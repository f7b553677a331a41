/** Reading a day's time slots written without AM or PM (ragra/timetable/normalize.py). */
module TwelveHour {

  /** One slot as written: start and end, hour and minute. */
  datatype Slot = Slot(startHour: int, startMinute: int, endHour: int, endMinute: int)

  /** The hours of a row of slots in reading order. */
  function Flatten(slots: seq<Slot>): (hours: seq<int>)
    ensures |hours| == 2 * |slots|
    ensures forall i :: 0 <= i < |slots| ==> hours[2 * i] == slots[i].startHour && hours[2 * i + 1] == slots[i].endHour
  {
    if slots == [] then []
    else Flatten(slots[..|slots| - 1]) + [slots[|slots| - 1].startHour, slots[|slots| - 1].endHour]
  }

  /** The hour at k is smaller than the one before it. */
  predicate Drops(hours: seq<int>, k: int) {
    0 < k < |hours| && hours[k] < hours[k - 1]
  }

  /** Some hour up to position i is smaller than the one before it. */
  predicate Wrapped(hours: seq<int>, i: nat)
    requires i < |hours|
  {
    exists k :: 0 < k <= i && Drops(hours, k)
  }

  /** The reading of one hour: twelve later once the row has wrapped, except for twelve itself. */
  function Resolved(hours: seq<int>, i: nat): int
    requires i < |hours|
  {
    if Wrapped(hours, i) && hours[i] != 12 then hours[i] + 12 else hours[i]
  }

  function ResolveSlot(slots: seq<Slot>, i: nat): Slot
    requires i < |slots|
  {
    var hours := Flatten(slots);
    Slot(Resolved(hours, 2 * i), slots[i].startMinute, Resolved(hours, 2 * i + 1), slots[i].endMinute)
  }

  /** resolve_24h_time_sequence: one pass with a flag that turns to afternoon at the first drop and stays. */
  method Resolve24hTimeSequence(slots: seq<Slot>) returns (resolved: seq<Slot>)
    ensures |resolved| == |slots|
    ensures forall i :: 0 <= i < |slots| ==> resolved[i] == ResolveSlot(slots, i)
  {
    ghost var hours := Flatten(slots);
    var pm := false;
    var previous := 0;
    var resolvedHours: seq<int> := [];
    for i := 0 to |slots|
      invariant |resolvedHours| == 2 * i
      invariant i > 0 ==> previous == hours[2 * i - 1]
      invariant if i == 0 then !pm else pm == Wrapped(hours, 2 * i - 1)
      invariant forall k :: 0 <= k < 2 * i ==> resolvedHours[k] == Resolved(hours, k)
    {
      var start, end := slots[i].startHour, slots[i].endHour;
      WrappedStep(hours, 2 * i);
      WrappedStep(hours, 2 * i + 1);
      if i > 0 && start < previous { pm := true; }
      resolvedHours := resolvedHours + [if pm && start != 12 then start + 12 else start];
      if end < start { pm := true; }
      resolvedHours := resolvedHours + [if pm && end != 12 then end + 12 else end];
      previous := end;
    }
    resolved := [];
    for i := 0 to |slots|
      invariant |resolved| == i
      invariant forall k :: 0 <= k < i ==> resolved[k] == ResolveSlot(slots, k)
    {
      resolved := resolved + [Slot(resolvedHours[2 * i], slots[i].startMinute,
                                   resolvedHours[2 * i + 1], slots[i].endMinute)];
    }
  }

  lemma WrappedStep(hours: seq<int>, i: nat)
    requires i < |hours|
    ensures Wrapped(hours, i) <==> i > 0 && (Wrapped(hours, i - 1) || Drops(hours, i))
  {
  }

  // -------------------------------------------------------------- round trip

  /** A true hour as the timetable writes it. */
  function Written(hour: int): int {
    if hour > 12 then hour - 12 else hour
  }

  function WriteAll(hours: seq<int>): (w: seq<int>)
    ensures |w| == |hours|
    ensures forall i :: 0 <= i < |hours| ==> w[i] == Written(hours[i])
  {
    seq(|hours|, i requires 0 <= i < |hours| => Written(hours[i]))
  }

  /** Chronological hours of one day. */
  predicate Chronological(hours: seq<int>) {
    && (forall i :: 0 <= i < |hours| ==> 0 <= hours[i] <= 23)
    && (forall i, j :: 0 <= i < j < |hours| ==> hours[i] <= hours[j])
  }

  /** The first afternoon hour of a chronological row. */
  predicate CrossesNoon(hours: seq<int>, i: int) {
    0 <= i < |hours| && hours[i] > 12 && (i == 0 || hours[i - 1] <= 12)
  }

  /** The first afternoon hour is written smaller than the hour before it. */
  predicate DropsAtNoon(hours: seq<int>) {
    forall i :: 0 <= i < |hours| && CrossesNoon(hours, i) ==> i > 0 && hours[i] - 12 < hours[i - 1]
  }

  predicate ReadsBack(hours: seq<int>, i: nat)
    requires i < |hours|
  {
    Resolved(WriteAll(hours), i) == hours[i]
  }

  lemma MorningNeverWraps(hours: seq<int>, i: nat)
    requires Chronological(hours) && i < |hours| && hours[i] <= 12
    ensures !Wrapped(WriteAll(hours), i)
  {
    var w := WriteAll(hours);
    forall k | 0 < k <= i ensures !Drops(w, k) {
      assert hours[k - 1] <= hours[k];
      assert k < i ==> hours[k] <= hours[i];
    }
  }

  lemma {:induction false} FirstAfternoon(hours: seq<int>, i: nat) returns (k: nat)
    requires i < |hours| && hours[i] > 12
    ensures k <= i && CrossesNoon(hours, k)
  {
    if i == 0 || hours[i - 1] <= 12 { k := i; } else { k := FirstAfternoon(hours, i - 1); }
  }

  /** The first afternoon hour is read back only if the written row drops there. */
  lemma AfternoonNeedsDrop(hours: seq<int>, i: nat)
    requires Chronological(hours) && CrossesNoon(hours, i)
    ensures ReadsBack(hours, i) <==> i > 0 && hours[i] - 12 < hours[i - 1]
  {
    var w := WriteAll(hours);
    WrappedStep(w, i);
    if i > 0 { MorningNeverWraps(hours, i - 1); }
  }

  /** Every later hour is read back once the row has dropped. */
  lemma AfternoonFollows(hours: seq<int>, i: nat, k: nat)
    requires Chronological(hours) && k <= i < |hours| && CrossesNoon(hours, k)
    requires k > 0 && hours[k] - 12 < hours[k - 1]
    ensures ReadsBack(hours, i)
  {
    var w := WriteAll(hours);
    assert Drops(w, k);
    assert k < i ==> hours[k] <= hours[i];
  }

  /** Reading undoes writing, for every chronological row, exactly when the first afternoon hour is written
      smaller than the hour before it. */
  lemma RoundTripExactly(hours: seq<int>)
    requires Chronological(hours)
    ensures (forall i :: 0 <= i < |hours| ==> ReadsBack(hours, i)) <==> DropsAtNoon(hours)
  {
    if DropsAtNoon(hours) {
      forall i | 0 <= i < |hours| ensures ReadsBack(hours, i) {
        if hours[i] <= 12 {
          MorningNeverWraps(hours, i);
        } else {
          var k := FirstAfternoon(hours, i);
          AfternoonFollows(hours, i, k);
        }
      }
    }
    forall i | 0 <= i < |hours| && CrossesNoon(hours, i)
      ensures ReadsBack(hours, i) <==> i > 0 && hours[i] - 12 < hours[i - 1]
    {
      AfternoonNeedsDrop(hours, i);
    }
  }

  /** In particular for every row that starts at noon or before and ends less than twelve hours later. */
  lemma HalfDayRoundTrips(hours: seq<int>)
    requires Chronological(hours)
    requires forall i :: 0 <= i < |hours| ==> hours[0] <= 12 && hours[i] < hours[0] + 12
    ensures forall i :: 0 <= i < |hours| ==> ReadsBack(hours, i)
  {
    forall i | 0 <= i < |hours| && CrossesNoon(hours, i) ensures i > 0 && hours[i] - 12 < hours[i - 1] {
      assert i > 1 ==> hours[0] <= hours[i - 1];
    }
    RoundTripExactly(hours);
  }

  /** Twelve-hour input always gives hours of the day. */
  lemma ResolvedInDay(hours: seq<int>, i: nat)
    requires i < |hours| && 0 <= hours[i] <= 12
    ensures 0 <= Resolved(hours, i) <= 23
  {
  }

  /** Where it is not read back: a day that starts at one in the afternoon has no drop and is read as morning. */
  lemma AfternoonAloneIsMisread()
    ensures Chronological([13, 14]) && !DropsAtNoon([13, 14]) && Resolved(WriteAll([13, 14]), 0) == 1
  {
    assert CrossesNoon([13, 14], 0);
  }
}
