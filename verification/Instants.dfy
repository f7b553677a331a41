/** UTC instants and their one stored text form (ragra/tz.py). The SQL layer compares these texts, so
    the central fact is that text order is time order. */
module Instants {
  import opened Text

  const SECOND: int := 1000000
  const MINUTE: int := 60 * SECOND
  const HOUR: int := 60 * MINUTE
  const DAY: int := 24 * HOUR
  const DAYS: int := 3652059  // days from 0001-01-01 up to and including 9999-12-31
  const INSTANTS: int := DAYS * DAY

  /** Microseconds since 0001-01-01T00:00:00 UTC, over the years datetime can hold. */
  type Instant = t: int | 0 <= t < INSTANTS

  /** The fields of a UTC datetime. */
  datatype Fields = Fields(year: nat, month: nat, day: nat, hour: nat, minute: nat, second: nat, micro: nat)

  // -------------------------------------------------------- civil calendar

  predicate Leap(y: nat) {
    y % 4 == 0 && (y % 100 != 0 || y % 400 == 0)
  }

  function DaysInMonth(y: nat, m: nat): (d: nat)
    requires 1 <= m <= 12
    ensures 28 <= d <= 31
  {
    if m == 2 then (if Leap(y) then 29 else 28) else if m in {4, 6, 9, 11} then 30 else 31
  }

  function DaysBeforeYear(y: nat): nat
    requires y >= 1
  {
    365 * (y - 1) + (y - 1) / 4 - (y - 1) / 100 + (y - 1) / 400
  }

  function DaysBeforeMonth(y: nat, m: nat): nat
    requires 1 <= m <= 13
  {
    if m == 1 then 0 else DaysBeforeMonth(y, m - 1) + DaysInMonth(y, m - 1)
  }

  predicate Valid(f: Fields) {
    && 1 <= f.year <= 9999 && 1 <= f.month <= 12 && 1 <= f.day <= DaysInMonth(f.year, f.month)
    && f.hour < 24 && f.minute < 60 && f.second < 60 && f.micro < 1000000
  }

  function DayNumber(y: nat, m: nat, d: nat): nat
    requires y >= 1 && 1 <= m <= 12 && d >= 1
  {
    DaysBeforeYear(y) + DaysBeforeMonth(y, m) + d - 1
  }

  function SecondNumber(f: Fields): nat
    requires Valid(f)
  {
    ((DayNumber(f.year, f.month, f.day) * 24 + f.hour) * 60 + f.minute) * 60 + f.second
  }

  lemma StepOver4(n: nat)
    ensures (n + 1) / 4 == n / 4 + (if (n + 1) % 4 == 0 then 1 else 0)
  {
  }

  lemma StepOver100(n: nat)
    ensures (n + 1) / 100 == n / 100 + (if (n + 1) % 100 == 0 then 1 else 0)
    ensures (n + 1) % 100 == 0 ==> (n + 1) % 4 == 0
  {
  }

  lemma StepOver400(n: nat)
    ensures (n + 1) / 400 == n / 400 + (if (n + 1) % 400 == 0 then 1 else 0)
    ensures (n + 1) % 400 == 0 ==> (n + 1) % 100 == 0
  {
  }

  lemma YearLength(y: nat)
    requires y >= 1
    ensures DaysBeforeYear(y + 1) == DaysBeforeYear(y) + (if Leap(y) then 366 else 365)
  {
    StepOver4(y - 1);
    StepOver100(y - 1);
    StepOver400(y - 1);
  }

  lemma YearsInOrder(y: nat, z: nat)
    requires 1 <= y < z
    ensures DaysBeforeYear(y + 1) <= DaysBeforeYear(z)
  {
  }

  lemma MonthTable(y: nat)
    ensures DaysBeforeMonth(y, 13) == (if Leap(y) then 366 else 365)
    ensures forall m :: 1 <= m <= 12 ==> DaysBeforeMonth(y, m + 1) == DaysBeforeMonth(y, m) + DaysInMonth(y, m)
    ensures forall m, n :: 1 <= m < n <= 13 ==> DaysBeforeMonth(y, m) + DaysInMonth(y, m) <= DaysBeforeMonth(y, n)
  {
    assert DaysBeforeMonth(y, 2) == 31;
    assert DaysBeforeMonth(y, 4) == DaysBeforeMonth(y, 3) + 31;
    assert DaysBeforeMonth(y, 6) == DaysBeforeMonth(y, 5) + 31;
    assert DaysBeforeMonth(y, 8) == DaysBeforeMonth(y, 7) + 31;
    assert DaysBeforeMonth(y, 10) == DaysBeforeMonth(y, 9) + 30;
    assert DaysBeforeMonth(y, 12) == DaysBeforeMonth(y, 11) + 30;
    forall m, n | 1 <= m < n <= 13 ensures DaysBeforeMonth(y, m) + DaysInMonth(y, m) <= DaysBeforeMonth(y, n) {
      MonthsInOrder(y, m, n);
    }
  }

  lemma {:induction false} MonthsInOrder(y: nat, m: nat, n: nat)
    requires 1 <= m < n <= 13
    ensures DaysBeforeMonth(y, m) + DaysInMonth(y, m) <= DaysBeforeMonth(y, n)
  {
    if n > m + 1 { MonthsInOrder(y, m, n - 1); }
  }

  predicate TripleLess(a: nat, b: nat, c: nat, a': nat, b': nat, c': nat) {
    a < a' || (a == a' && (b < b' || (b == b' && c < c')))
  }

  lemma DateInYear(y: nat, m: nat, d: nat)
    requires 1 <= y <= 9999 && 1 <= m <= 12 && 1 <= d <= DaysInMonth(y, m)
    ensures DaysBeforeYear(y) <= DayNumber(y, m, d) < DaysBeforeYear(y + 1) <= DAYS
  {
    MonthTable(y);
    YearLength(y);
    YearLength(9999);
    if y < 9999 { YearsInOrder(y, 9999); }
  }

  /** Dates in field order are days in order. */
  lemma DatesInOrder(y: nat, m: nat, d: nat, y': nat, m': nat, d': nat)
    requires 1 <= y <= 9999 && 1 <= m <= 12 && 1 <= d <= DaysInMonth(y, m)
    requires 1 <= y' <= 9999 && 1 <= m' <= 12 && 1 <= d' <= DaysInMonth(y', m')
    ensures DayNumber(y, m, d) < DayNumber(y', m', d') <==> TripleLess(y, m, d, y', m', d')
  {
    DateInYear(y, m, d);
    DateInYear(y', m', d');
    if y < y' {
      YearsInOrder(y, y');
    } else if y' < y {
      YearsInOrder(y', y);
    } else if m < m' {
      MonthsInOrder(y, m, m');
    } else if m' < m {
      MonthsInOrder(y, m', m);
    }
  }

  /** The instant a set of UTC fields names. */
  function FromFields(f: Fields): Instant
    requires Valid(f)
  {
    DateInYear(f.year, f.month, f.day);
    SecondNumber(f) * SECOND + f.micro
  }

  // --------------------------------------------------------- back to fields

  function YearOf(day: nat, y: nat): (r: nat)
    requires 1 <= y <= 9999 && DaysBeforeYear(y) <= day < DAYS
    ensures y <= r <= 9999 && DaysBeforeYear(r) <= day < DaysBeforeYear(r + 1)
    decreases 9999 - y
  {
    if day < DaysBeforeYear(y + 1) then y else YearOf(day, y + 1)
  }

  function MonthOf(y: nat, left: nat, m: nat): (r: nat)
    requires 1 <= m <= 12 && DaysBeforeMonth(y, m) <= left < DaysBeforeMonth(y, 13)
    ensures m <= r <= 12 && DaysBeforeMonth(y, r) <= left < DaysBeforeMonth(y, r + 1)
    decreases 12 - m
  {
    if left < DaysBeforeMonth(y, m + 1) then m else MonthOf(y, left, m + 1)
  }

  function SecondOfDay(f: Fields): nat {
    (f.hour * 60 + f.minute) * 60 + f.second
  }

  lemma SecondsOfDays(f: Fields)
    requires Valid(f)
    ensures SecondNumber(f) == 86400 * DayNumber(f.year, f.month, f.day) + SecondOfDay(f)
    ensures SecondOfDay(f) < 86400
  {
  }

  lemma ClockParts(second: nat)
    requires second < 86400
    ensures (second / 3600 * 60 + second / 60 % 60) * 60 + second % 60 == second && second / 3600 < 24
  {
  }

  lemma DayParts(t: nat)
    ensures (86400 * (t / DAY) + t % DAY / SECOND) * SECOND + t % SECOND == t && t % DAY / SECOND < 86400
  {
  }

  /** The fields of an instant: the inverse of FromFields. */
  function ToFields(t: Instant): (f: Fields)
    ensures Valid(f) && FromFields(f) == t
  {
    var date, second := ToDate(t / DAY), t % DAY / SECOND;
    var f := Fields(date.0, date.1, date.2, second / 3600, second / 60 % 60, second % 60, t % SECOND);
    ClockParts(second);
    DayParts(t);
    SecondsOfDays(f);
    f
  }

  function ToDate(day: nat): (r: (nat, nat, nat))
    requires day < DAYS
    ensures 1 <= r.0 <= 9999 && 1 <= r.1 <= 12 && 1 <= r.2 <= DaysInMonth(r.0, r.1)
    ensures DayNumber(r.0, r.1, r.2) == day
  {
    var y := YearOf(day, 1);
    YearLength(y);
    MonthTable(y);
    var left := day - DaysBeforeYear(y);
    var m := MonthOf(y, left, 1);
    (y, m, left - DaysBeforeMonth(y, m) + 1)
  }

  /** Different fields name different instants, so reading an instant back gives the fields it was made from. */
  lemma FieldsReadBack(f: Fields)
    requires Valid(f)
    ensures ToFields(FromFields(f)) == f
  {
    var g := ToFields(FromFields(f));
    SecondsOfDays(f);
    SecondsOfDays(g);
    DatesInOrder(f.year, f.month, f.day, g.year, g.month, g.day);
    DatesInOrder(g.year, g.month, g.day, f.year, f.month, f.day);
    ClocksReadBack(DayNumber(f.year, f.month, f.day), SecondOfDay(f), DayNumber(g.year, g.month, g.day), SecondOfDay(g),
                   f.micro, g.micro);
  }

  lemma ClocksReadBack(d: nat, s: nat, d': nat, s': nat, u: nat, u': nat)
    requires s < 86400 && s' < 86400 && u < SECOND && u' < SECOND
    requires (86400 * d + s) * SECOND + u == (86400 * d' + s') * SECOND + u'
    ensures d == d' && s == s' && u == u'
  {
  }

  // -------------------------------------------------------------- text form

  function DateText(f: Fields): string {
    Pad(f.year, 4) + ("-" + (Pad(f.month, 2) + ("-" + Pad(f.day, 2))))
  }

  function ClockText(f: Fields): string {
    Pad(f.hour, 2) + (":" + (Pad(f.minute, 2) + (":" + Pad(f.second, 2))))
  }

  /** The fraction is dropped when it is zero, so texts differ in width. */
  function FractionText(micro: nat): string {
    if micro == 0 then "" else "." + Pad(micro, 6)
  }

  function SecondText(f: Fields): (s: string)
    ensures |s| == 19
  {
    DateText(f) + ("T" + ClockText(f))
  }

  /** utc_iso: ISO 8601 with an explicit +00:00 offset. */
  function UtcIso(t: Instant): string {
    var f := ToFields(t);
    SecondText(f) + (FractionText(f.micro) + "+00:00")
  }

  // -------------------------------------------------- text order, time order

  /** Heads of equal length, then a separator, then tails: the order of the whole and its ties. */
  lemma PairOrder(x: string, y: string, sep: string, a: string, b: string)
    requires |x| == |y|
    ensures LexLess(x + (sep + a), y + (sep + b)) <==> LexLess(x, y) || (x == y && LexLess(a, b))
    ensures x + (sep + a) == y + (sep + b) <==> x == y && a == b
  {
    LexLessIrreflexive(sep);
    LexLessSplit(sep, sep, a, b);
    LexLessSplit(x, y, sep + a, sep + b);
    LexLessSplit(sep, sep, b, a);
    LexLessSplit(y, x, sep + b, sep + a);
    LexLessTotal(x + (sep + a), y + (sep + b));
    LexLessIrreflexive(x + (sep + a));
    LexLessTotal(x, y);
    LexLessTotal(a, b);
  }

  lemma TripleOrder(a: string, b: string, c: string, a': string, b': string, c': string, sep: string)
    requires |a| == |a'| && |b| == |b'|
    ensures LexLess(a + (sep + (b + (sep + c))), a' + (sep + (b' + (sep + c')))) <==>
            LexLess(a, a') || (a == a' && (LexLess(b, b') || (b == b' && LexLess(c, c'))))
    ensures a + (sep + (b + (sep + c))) == a' + (sep + (b' + (sep + c'))) <==> a == a' && b == b' && c == c'
  {
    PairOrder(b, b', sep, c, c');
    PairOrder(a, a', sep, b + (sep + c), b' + (sep + c'));
  }

  /** Three separated zero-padded numbers compare as the triple of numbers does. */
  lemma PaddedTripleOrder(wide: nat, narrow: nat, a: nat, b: nat, c: nat, a': nat, b': nat, c': nat, sep: string)
    requires a < Pow10(wide) && a' < Pow10(wide)
    requires b < Pow10(narrow) && b' < Pow10(narrow) && c < Pow10(narrow) && c' < Pow10(narrow)
    ensures
      var s, t := Pad(a, wide) + (sep + (Pad(b, narrow) + (sep + Pad(c, narrow)))),
                  Pad(a', wide) + (sep + (Pad(b', narrow) + (sep + Pad(c', narrow))));
      && (LexLess(s, t) <==> TripleLess(a, b, c, a', b', c'))
      && (s == t <==> a == a' && b == b' && c == c')
  {
    PadOrder(a, a', wide);
    PadOrder(b, b', narrow);
    PadOrder(c, c', narrow);
    TripleOrder(Pad(a, wide), Pad(b, narrow), Pad(c, narrow), Pad(a', wide), Pad(b', narrow), Pad(c', narrow), sep);
  }

  lemma DateTextOrder(f: Fields, g: Fields)
    requires Valid(f) && Valid(g)
    ensures LexLess(DateText(f), DateText(g)) <==>
            DayNumber(f.year, f.month, f.day) < DayNumber(g.year, g.month, g.day)
    ensures DateText(f) == DateText(g) <==> DayNumber(f.year, f.month, f.day) == DayNumber(g.year, g.month, g.day)
  {
    assert Pow10(2) == 100 && Pow10(4) == 10000;
    PaddedTripleOrder(4, 2, f.year, f.month, f.day, g.year, g.month, g.day, "-");
    DatesInOrder(f.year, f.month, f.day, g.year, g.month, g.day);
    DatesInOrder(g.year, g.month, g.day, f.year, f.month, f.day);
  }

  lemma ClockTextOrder(f: Fields, g: Fields)
    requires Valid(f) && Valid(g)
    ensures LexLess(ClockText(f), ClockText(g)) <==> SecondOfDay(f) < SecondOfDay(g)
    ensures ClockText(f) == ClockText(g) <==> SecondOfDay(f) == SecondOfDay(g)
  {
    assert Pow10(2) == 100;
    PaddedTripleOrder(2, 2, f.hour, f.minute, f.second, g.hour, g.minute, g.second, ":");
  }

  lemma SecondTextOrder(f: Fields, g: Fields)
    requires Valid(f) && Valid(g)
    ensures LexLess(SecondText(f), SecondText(g)) <==> SecondNumber(f) < SecondNumber(g)
    ensures SecondText(f) == SecondText(g) <==> SecondNumber(f) == SecondNumber(g)
  {
    DateTextOrder(f, g);
    ClockTextOrder(f, g);
    SecondsOfDays(f);
    SecondsOfDays(g);
    PairOrder(DateText(f), DateText(g), "T", ClockText(f), ClockText(g));
  }

  lemma FractionTextOrder(u: nat, v: nat)
    requires u < 1000000 && v < 1000000
    ensures LexLess(FractionText(u) + "+00:00", FractionText(v) + "+00:00") <==> u < v
  {
    assert Pow10(6) == 1000000;
    if u != 0 && v != 0 {
      PadOrder(u, v, 6);
      LexLessSplit(".", ".", Pad(u, 6), Pad(v, 6));
      LexLessIrreflexive(".");
      LexLessSplit(FractionText(u), FractionText(v), "+00:00", "+00:00");
      LexLessIrreflexive("+00:00");
    } else if u == v {
      LexLessIrreflexive(FractionText(u) + "+00:00");
    } else if u == 0 {
      assert (FractionText(u) + "+00:00")[0] == '+' && (FractionText(v) + "+00:00")[0] == '.';
    } else {
      assert (FractionText(u) + "+00:00")[0] == '.' && (FractionText(v) + "+00:00")[0] == '+';
    }
  }

  /** Text order is time order, although the fraction is dropped at zero microseconds. */
  lemma TextOrderIsTimeOrder(a: Instant, b: Instant)
    ensures LexLess(UtcIso(a), UtcIso(b)) <==> a < b
  {
    var f, g := ToFields(a), ToFields(b);
    SecondTextOrder(f, g);
    FractionTextOrder(f.micro, g.micro);
    LexLessSplit(SecondText(f), SecondText(g), FractionText(f.micro) + "+00:00", FractionText(g.micro) + "+00:00");
    assert a == SecondNumber(f) * SECOND + f.micro && b == SecondNumber(g) * SECOND + g.micro;
  }

  /** Distinct instants have distinct texts. */
  lemma UtcIsoInjective(a: Instant, b: Instant)
    requires UtcIso(a) == UtcIso(b)
    ensures a == b
  {
    TextOrderIsTimeOrder(a, b);
    TextOrderIsTimeOrder(b, a);
    LexLessIrreflexive(UtcIso(a));
  }

  // ---------------------------------------------------------------- parsing

  function Digits(s: string): (n: Option<nat>)
  {
    if s != "" && AllDigits(s) then Some(Number(s)) else None
  }

  /** The fields written in the 19 characters up to the second, if they name a real date and time. */
  function ParseSecond(s: string): (r: Option<Fields>)
    requires |s| == 19
    ensures r.Some? ==> Valid(r.value)
  {
    match (Digits(s[0..4]), Digits(s[5..7]), Digits(s[8..10]), Digits(s[11..13]), Digits(s[14..16]), Digits(s[17..19]))
    case (Some(y), Some(mo), Some(d), Some(h), Some(mi), Some(sec)) =>
      var f := Fields(y, mo, d, h, mi, sec, 0);
      if s[4] == '-' && s[7] == '-' && s[13] == ':' && s[16] == ':' && Valid(f) then Some(f) else None
    case _ => None
  }

  /** The microseconds of an empty or six-digit fraction. */
  function ParseFraction(s: string): (r: Option<nat>)
    ensures r.Some? ==> r.value < 1000000
  {
    if s == "" then Some(0)
    else if |s| == 7 && s[0] == '.' && AllDigits(s[1..]) then
      var n := Number(s[1..]);
      if n < 1000000 then Some(n) else None
    else None
  }

  /** The offset from UTC of a `+hh:mm` or `-hh:mm` suffix. */
  function ParseOffset(s: string): Option<int>
    requires |s| == 6
  {
    match (Digits(s[1..3]), Digits(s[4..6]))
    case (Some(h), Some(m)) =>
      if s[3] != ':' || h >= 24 || m >= 60 || s[0] !in {'+', '-'} then None
      else if s[0] == '+' then Some(h * HOUR + m * MINUTE) else Some(-(h * HOUR + m * MINUTE))
    case _ => None
  }

  /** The instant of wall fields at an offset from UTC; None where the move to UTC leaves the calendar. */
  function Located(f: Fields, micro: nat, offset: int): Option<Instant>
    requires Valid(f) && micro < 1000000
  {
    var t := FromFields(f.(micro := micro)) - offset;
    if 0 <= t < INSTANTS then Some(t) else None
  }

  /** fromisoformat and the move to UTC, on the extended form with an explicit offset; None where it raises. */
  function ParseIso(text: string): Option<Instant> {
    if |text| < 25 then None
    else
      var second := ParseSecond(text[..19]);
      var micro := ParseFraction(text[19..|text| - 6]);
      var offset := ParseOffset(text[|text| - 6..]);
      if second.Some? && micro.Some? && offset.Some? then Located(second.value, micro.value, offset.value) else None
  }

  /** parse_instant: a stripped text, where a trailing Z stands for +00:00. */
  function ParseInstant(value: string): Option<Instant> {
    var text := Strip(value);
    if text != "" && text[|text| - 1] in {'Z', 'z'} then ParseIso(text[..|text| - 1] + "+00:00") else ParseIso(text)
  }

  lemma DigitsOfPad(n: nat, width: nat)
    requires 0 < width && n < Pow10(width)
    ensures Digits(Pad(n, width)) == Some(n)
  {
    NumberOfPad(n, width);
  }

  lemma ParseSecondText(f: Fields)
    requires Valid(f)
    ensures ParseSecond(SecondText(f)) == Some(f.(micro := 0))
  {
    var s := SecondText(f);
    assert Pow10(2) == 100 && Pow10(4) == 10000;
    assert s[0..4] == Pad(f.year, 4) && s[5..7] == Pad(f.month, 2) && s[8..10] == Pad(f.day, 2);
    assert s[11..13] == Pad(f.hour, 2) && s[14..16] == Pad(f.minute, 2) && s[17..19] == Pad(f.second, 2);
    DigitsOfPad(f.year, 4);
    DigitsOfPad(f.month, 2);
    DigitsOfPad(f.day, 2);
    DigitsOfPad(f.hour, 2);
    DigitsOfPad(f.minute, 2);
    DigitsOfPad(f.second, 2);
  }

  lemma ParseFractionText(micro: nat)
    requires micro < 1000000
    ensures ParseFraction(FractionText(micro)) == Some(micro)
  {
    assert Pow10(6) == 1000000;
    if micro != 0 {
      DigitsOfPad(micro, 6);
      assert FractionText(micro)[1..] == Pad(micro, 6);
    }
  }

  lemma ParseZeroOffset()
    ensures ParseOffset("+00:00") == Some(0)
  {
    var s := "+00:00";
    assert s[1..3] == "00" && s[4..6] == "00";
    assert Number("00") == 0 by { assert "00"[..1] == "0" && "0"[..0] == ""; }
  }

  /** A text put together from a second, a fraction and an offset comes apart again. */
  lemma TextParts(second: string, fraction: string, offset: string)
    requires |second| == 19 && |offset| == 6
    ensures
      var text := second + (fraction + offset);
      && text[..19] == second && text[19..|text| - 6] == fraction && text[|text| - 6..] == offset
      && text[..|text| - 6] == second + fraction && text == second + fraction + offset
  {
  }

  lemma UtcIsoEnds(t: Instant)
    ensures |UtcIso(t)| >= 25
    ensures UtcIso(t)[..|UtcIso(t)| - 6] + "+00:00" == UtcIso(t)
    ensures Stripped(UtcIso(t)) && UtcIso(t)[|UtcIso(t)| - 1] == '0'
    ensures Stripped(UtcIso(t)[..|UtcIso(t)| - 6] + "Z")
  {
    var f := ToFields(t);
    var text := UtcIso(t);
    TextParts(SecondText(f), FractionText(f.micro), "+00:00");
    assert text[0] == Pad(f.year, 4)[0];
    assert text[|text| - 1] == "+00:00"[5];
  }

  lemma LocatedAtUtc(f: Fields)
    requires Valid(f)
    ensures Located(f.(micro := 0), f.micro, 0) == Some(FromFields(f))
  {
    assert f.(micro := 0).(micro := f.micro) == f;
  }

  lemma ParseIsoReadsUtcIso(t: Instant)
    ensures ParseIso(UtcIso(t)) == Some(t)
  {
    var f := ToFields(t);
    var text := UtcIso(t);
    TextParts(SecondText(f), FractionText(f.micro), "+00:00");
    ParseSecondText(f);
    ParseFractionText(f.micro);
    ParseZeroOffset();
    assert ParseSecond(text[..19]) == Some(f.(micro := 0));
    assert ParseFraction(text[19..|text| - 6]) == Some(f.micro);
    assert ParseOffset(text[|text| - 6..]) == Some(0);
    LocatedAtUtc(f);
  }

  /** What utc_iso writes, parse_instant reads back; the same text spelled with Z, and either one with
      blanks around it, names the same instant. */
  lemma ParseReadsUtcIso(t: Instant, before: string, after: string)
    requires AllSpace(before) && AllSpace(after)
    ensures ParseInstant(before + UtcIso(t) + after) == Some(t)
    ensures ParseInstant(before + (UtcIso(t)[..|UtcIso(t)| - 6] + "Z") + after) == Some(t)
  {
    var text := UtcIso(t);
    UtcIsoEnds(t);
    ParseIsoReadsUtcIso(t);
    var zulu := text[..|text| - 6] + "Z";
    StripPadded(before, text, after);
    StripPadded(before, zulu, after);
    assert zulu[..|zulu| - 1] == text[..|text| - 6];
  }

  // ------------------------------------------------------------ other offsets

  function OffsetText(east: bool, hours: nat, minutes: nat): (s: string)
    ensures |s| == 6
  {
    (if east then "+" else "-") + (Pad(hours, 2) + (":" + Pad(minutes, 2)))
  }

  /** How far ahead of UTC the offset is. */
  function Ahead(east: bool, hours: nat, minutes: nat): int {
    if east then hours * HOUR + minutes * MINUTE else -(hours * HOUR + minutes * MINUTE)
  }

  lemma ParseOffsetText(east: bool, hours: nat, minutes: nat)
    requires hours < 24 && minutes < 60
    ensures ParseOffset(OffsetText(east, hours, minutes)) == Some(Ahead(east, hours, minutes))
  {
    var s := OffsetText(east, hours, minutes);
    assert s[1..3] == Pad(hours, 2) && s[4..6] == Pad(minutes, 2);
    assert Pow10(2) == 100;
    DigitsOfPad(hours, 2);
    DigitsOfPad(minutes, 2);
  }

  lemma ParsePieces(text: string, f: Fields, offset: string, ahead: int, t: int)
    requires Valid(f) && |offset| == 6 && ParseOffset(offset) == Some(ahead)
    requires text == SecondText(f) + (FractionText(f.micro) + offset) && t == FromFields(f) - ahead
    ensures ParseIso(text) == if 0 <= t < INSTANTS then Some(t) else None
  {
    TextParts(SecondText(f), FractionText(f.micro), offset);
    ParseSecondText(f);
    ParseFractionText(f.micro);
    assert f.(micro := 0).(micro := f.micro) == f;
    assert ParseSecond(text[..19]) == Some(f.(micro := 0));
    assert ParseFraction(text[19..|text| - 6]) == Some(f.micro);
  }

  lemma OffsetEnds(text: string, f: Fields, offset: string)
    requires Valid(f) && |offset| == 6 && IsDigit(offset[5])
    requires text == SecondText(f) + (FractionText(f.micro) + offset)
    ensures Strip(text) == text && text != "" && IsDigit(text[|text| - 1])
  {
    TextParts(SecondText(f), FractionText(f.micro), offset);
    assert text[0] == Pad(f.year, 4)[0] && text[|text| - 1] == offset[5];
    assert "" + text + "" == text;
    StripPadded("", text, "");
  }

  lemma PlainIsParsed(text: string, t: int)
    requires Strip(text) == text && text != "" && IsDigit(text[|text| - 1])
    requires ParseIso(text) == if 0 <= t < INSTANTS then Some(t) else None
    ensures ParseInstant(text) == if 0 <= t < INSTANTS then Some(t) else None
  {
  }

  /** A wall time written with its offset is read as the instant it names: earlier than it reads east of Greenwich,
      later west of it. */
  lemma ParseReadsOffset(text: string, f: Fields, east: bool, hours: nat, minutes: nat, t: int)
    requires Valid(f) && hours < 24 && minutes < 60
    requires text == SecondText(f) + (FractionText(f.micro) + OffsetText(east, hours, minutes))
    requires t == FromFields(f) - Ahead(east, hours, minutes)
    ensures ParseInstant(text) == if 0 <= t < INSTANTS then Some(t) else None
  {
    ParseOffsetText(east, hours, minutes);
    OffsetEnds(text, f, OffsetText(east, hours, minutes));
    ParsePieces(text, f, OffsetText(east, hours, minutes), Ahead(east, hours, minutes), t);
    PlainIsParsed(text, t);
  }
}
