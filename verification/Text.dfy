/** Strings as the store and the web forms use them: decimal digits, code-point order,
    stripping, splitting and joining. */
module Text {

  datatype Option<+T> = None | Some(value: T)

  // ---------------------------------------------------------------- digits

  function Digit(d: nat): (c: char)
    requires d < 10
    ensures IsDigit(c)
  {
    (d + 48) as char
  }

  predicate IsDigit(c: char) {
    '0' <= c <= '9'
  }

  function DigitValue(c: char): nat
    requires IsDigit(c)
  {
    c as int - 48
  }

  function Pow10(n: nat): nat {
    if n == 0 then 1 else 10 * Pow10(n - 1)
  }

  /** The `width` low decimal digits of n, zero padded: the `:0{width}d` of a format string. */
  function Pad(n: nat, width: nat): (s: string)
    ensures |s| == width
    ensures forall i :: 0 <= i < width ==> IsDigit(s[i])
  {
    if width == 0 then "" else Pad(n / 10, width - 1) + [Digit(n % 10)]
  }

  /** The decimal text of n without padding, as str(n). */
  function IntText(n: nat): (s: string)
    ensures |s| > 0
    ensures forall i :: 0 <= i < |s| ==> IsDigit(s[i])
  {
    if n < 10 then [Digit(n)] else IntText(n / 10) + [Digit(n % 10)]
  }

  predicate AllDigits(s: string) {
    forall i :: 0 <= i < |s| ==> IsDigit(s[i])
  }

  function Number(s: string): nat
    requires AllDigits(s)
  {
    if s == "" then 0 else 10 * Number(s[..|s| - 1]) + DigitValue(s[|s| - 1])
  }

  lemma {:induction false} NumberOfPad(n: nat, width: nat)
    requires n < Pow10(width)
    ensures Number(Pad(n, width)) == n
  {
    if width > 0 {
      NumberOfPad(n / 10, width - 1);
      var p := Pad(n / 10, width - 1);
      assert (p + [Digit(n % 10)])[..width - 1] == p;
    }
  }

  lemma {:induction false} NumberOfIntText(n: nat)
    ensures Number(IntText(n)) == n
  {
    if n < 10 {
      assert IntText(n)[..0] == "";
    } else {
      NumberOfIntText(n / 10);
      var p := IntText(n / 10);
      assert (p + [Digit(n % 10)])[..|p|] == p;
    }
  }

  // ------------------------------------------------------- code-point order

  /** SQLite's default text comparison on ASCII: the shorter of two strings that agree comes first. */
  predicate LexLess(a: string, b: string) {
    b != "" && (a == "" || a[0] < b[0] || (a[0] == b[0] && LexLess(a[1..], b[1..])))
  }

  /** Texts with equally long heads compare by head first and by tail only on a tie. */
  lemma {:induction false} LexLessSplit(x: string, y: string, a: string, b: string)
    requires |x| == |y|
    ensures LexLess(x + a, y + b) <==> LexLess(x, y) || (x == y && LexLess(a, b))
  {
    if x == "" {
      assert x + a == a && y + b == b;
    } else {
      assert (x + a)[1..] == x[1..] + a && (y + b)[1..] == y[1..] + b;
      LexLessSplit(x[1..], y[1..], a, b);
      assert x == [x[0]] + x[1..] && y == [y[0]] + y[1..];
    }
  }

  lemma {:induction false} LexLessIrreflexive(a: string)
    ensures !LexLess(a, a)
  {
    if a != "" { LexLessIrreflexive(a[1..]); }
  }

  lemma {:induction false} LexLessTotal(a: string, b: string)
    ensures LexLess(a, b) || a == b || LexLess(b, a)
    ensures !(LexLess(a, b) && LexLess(b, a))
  {
    if a != "" && b != "" {
      LexLessTotal(a[1..], b[1..]);
      assert a == [a[0]] + a[1..] && b == [b[0]] + b[1..];
    }
  }

  lemma {:induction false} LexLessTransitive(a: string, b: string, c: string)
    requires LexLess(a, b) && LexLess(b, c)
    ensures LexLess(a, c)
  {
    if a != "" && a[0] == b[0] == c[0] { LexLessTransitive(a[1..], b[1..], c[1..]); }
  }

  /** Zero-padded numbers of one width sort as text exactly as they sort as numbers. */
  lemma {:induction false} PadOrder(m: nat, n: nat, width: nat)
    requires m < Pow10(width) && n < Pow10(width)
    ensures LexLess(Pad(m, width), Pad(n, width)) <==> m < n
    ensures Pad(m, width) == Pad(n, width) <==> m == n
  {
    NumberOfPad(m, width);
    NumberOfPad(n, width);
    if width > 0 {
      PadOrder(m / 10, n / 10, width - 1);
      LexLessSplit(Pad(m / 10, width - 1), Pad(n / 10, width - 1), [Digit(m % 10)], [Digit(n % 10)]);
    }
  }

  // -------------------------------------------------- strip, split and join

  /** The code points str.isspace accepts. */
  predicate IsSpace(c: char) {
    var n := c as int;
    9 <= n <= 13 || 28 <= n <= 32 || n == 0x85 || n == 0xA0 || n == 0x1680 || 0x2000 <= n <= 0x200A
    || n == 0x2028 || n == 0x2029 || n == 0x202F || n == 0x205F || n == 0x3000
  }

  function LStrip(s: string): string {
    if s != "" && IsSpace(s[0]) then LStrip(s[1..]) else s
  }

  function RStrip(s: string): string {
    if s != "" && IsSpace(s[|s| - 1]) then RStrip(s[..|s| - 1]) else s
  }

  function Strip(s: string): string {
    RStrip(LStrip(s))
  }

  /** A text str.strip leaves alone. */
  predicate Stripped(s: string) {
    s == "" || (!IsSpace(s[0]) && !IsSpace(s[|s| - 1]))
  }

  predicate AllSpace(s: string) {
    forall i :: 0 <= i < |s| ==> IsSpace(s[i])
  }

  lemma {:induction false} LStripCut(s: string) returns (k: nat)
    ensures k <= |s| && LStrip(s) == s[k..] && AllSpace(s[..k])
    ensures k < |s| ==> !IsSpace(s[k])
  {
    if s != "" && IsSpace(s[0]) {
      var j := LStripCut(s[1..]);
      k := j + 1;
      assert s[1..][..j] == s[1..k] && s[1..][j..] == s[k..];
      assert forall i :: 0 <= i < k ==> i == 0 || s[i] == s[1..k][i - 1];
    } else {
      k := 0;
    }
  }

  lemma {:induction false} RStripCut(s: string) returns (k: nat)
    ensures k <= |s| && RStrip(s) == s[..k] && AllSpace(s[k..])
    ensures k > 0 ==> !IsSpace(s[k - 1])
  {
    if s != "" && IsSpace(s[|s| - 1]) {
      k := RStripCut(s[..|s| - 1]);
      assert s[..|s| - 1][..k] == s[..k];
      assert forall i :: k <= i < |s| ==> i == |s| - 1 || s[i] == s[..|s| - 1][k..][i - k];
    } else {
      k := |s|;
    }
  }

  /** Stripping removes white space from both ends and nothing else. */
  lemma {:induction false} StripCuts(s: string) returns (before: string, after: string)
    ensures s == before + Strip(s) + after
    ensures AllSpace(before) && AllSpace(after)
    ensures Stripped(Strip(s))
  {
    var i := LStripCut(s);
    var k := RStripCut(s[i..]);
    before, after := s[..i], s[i..][k..];
    if k > 0 { assert s[i..][..k][0] == s[i]; }
  }

  lemma {:induction false} LStripPadded(before: string, x: string)
    requires AllSpace(before) && (x == "" || !IsSpace(x[0]))
    ensures LStrip(before + x) == x
  {
    if before == "" {
      assert before + x == x;
    } else {
      assert (before + x)[1..] == before[1..] + x;
      LStripPadded(before[1..], x);
    }
  }

  lemma {:induction false} RStripPadded(x: string, after: string)
    requires AllSpace(after) && (x == "" || !IsSpace(x[|x| - 1]))
    ensures RStrip(x + after) == x
  {
    if after == "" {
      assert x + after == x;
    } else {
      assert (x + after)[..|x + after| - 1] == x + after[..|after| - 1];
      RStripPadded(x, after[..|after| - 1]);
    }
  }

  /** Blank ends around a stripped text are what strip takes off. */
  lemma StripPadded(before: string, s: string, after: string)
    requires AllSpace(before) && AllSpace(after) && Stripped(s)
    ensures Strip(before + s + after) == s
  {
    if s == "" {
      assert before + s + after == (before + after) + "";
      LStripPadded(before + after, "");
    } else {
      assert before + s + after == before + (s + after);
      LStripPadded(before, s + after);
      RStripPadded(s, after);
    }
  }

  /** Stripping leaves nothing of blanks, and something of anything else. */
  lemma BlankIsEmpty(title: string)
    ensures Strip(title) == "" <==> AllSpace(title)
  {
    LStripBlank(title);
    RStripBlank(LStrip(title));
  }

  lemma {:induction false} LStripBlank(s: string)
    ensures AllSpace(LStrip(s)) <==> AllSpace(s)
    ensures AllSpace(s) ==> LStrip(s) == ""
  {
    if s != "" && IsSpace(s[0]) {
      LStripBlank(s[1..]);
      assert s == [s[0]] + s[1..];
    }
  }

  lemma {:induction false} RStripBlank(s: string)
    ensures RStrip(s) == "" <==> AllSpace(s)
  {
    if s != "" && IsSpace(s[|s| - 1]) {
      RStripBlank(s[..|s| - 1]);
      assert s == s[..|s| - 1] + [s[|s| - 1]];
    }
  }

  predicate Without(s: string, c: char) {
    forall i :: 0 <= i < |s| ==> s[i] != c
  }

  /** str.split on one character: always at least one part, empty parts kept. */
  function SplitOn(s: string, c: char): (parts: seq<string>)
    ensures |parts| > 0
    ensures forall i :: 0 <= i < |parts| ==> Without(parts[i], c)
  {
    if s == "" then [""]
    else
      var rest := SplitOn(s[1..], c);
      if s[0] == c then [""] + rest else [[s[0]] + rest[0]] + rest[1..]
  }

  /** Every character of a part comes from the text that was split. */
  lemma {:induction false} SplitOnKeeps(s: string, c: char, i: nat, p: char)
    requires i < |SplitOn(s, c)| && p in SplitOn(s, c)[i]
    ensures p in s
  {
    if s != "" {
      var rest := SplitOn(s[1..], c);
      if s[0] == c {
        if i > 0 { SplitOnKeeps(s[1..], c, i - 1, p); }
      } else if i == 0 {
        if p != s[0] { assert p in rest[0]; SplitOnKeeps(s[1..], c, 0, p); }
      } else {
        SplitOnKeeps(s[1..], c, i, p);
      }
    }
  }

  lemma {:induction false} SplitOnHead(head: string, c: char, tail: string)
    requires Without(head, c)
    ensures SplitOn(head + [c] + tail, c) == [head] + SplitOn(tail, c)
  {
    var s := head + [c] + tail;
    if head == "" {
      assert s[1..] == tail;
    } else {
      assert s[1..] == head[1..] + [c] + tail;
      SplitOnHead(head[1..], c, tail);
      assert [head[0]] + head[1..] == head;
    }
  }

  lemma {:induction false} SplitOnNone(s: string, c: char)
    requires Without(s, c)
    ensures SplitOn(s, c) == [s]
  {
    if s != "" {
      SplitOnNone(s[1..], c);
      assert [s[0]] + s[1..] == s;
    }
  }

  function Join(parts: seq<string>, sep: string): string {
    if |parts| == 0 then "" else if |parts| == 1 then parts[0] else parts[0] + sep + Join(parts[1..], sep)
  }
}
