/** The enrollment text area: one course per line, parsed and printed (ragra/web/app.py). */
module Enrollment {
  import opened Text

  datatype Kind = Regular | Repeat

  datatype EnrolledCourse = EnrolledCourse(name: string, section: string, kind: Kind, batch: Option<string>,
                                           aliases: seq<string>)

  datatype LineError = TooFewParts | NameOrSectionMissing | UnknownType

  /** What one line says. */
  datatype Line = Empty | Course(course: EnrolledCourse) | Bad(error: LineError)

  /** The courses of a text, or the number of its first bad line, counted from 1. */
  datatype Parsed = Courses(courses: seq<EnrolledCourse>) | Failed(line: nat, error: LineError)

  // ----------------------------------------------------------------- lines

  /** The characters str.splitlines breaks at. */
  predicate IsBreak(c: char) {
    var n := c as int;
    10 <= n <= 13 || 28 <= n <= 30 || n == 0x85 || n == 0x2028 || n == 0x2029
  }

  predicate NoBreaks(s: string) {
    forall i :: 0 <= i < |s| ==> !IsBreak(s[i])
  }

  function FirstBreak(s: string): (k: nat)
    ensures k <= |s| && NoBreaks(s[..k]) && (k < |s| ==> IsBreak(s[k]))
  {
    if s == "" || IsBreak(s[0]) then 0
    else
      var k := FirstBreak(s[1..]);
      assert forall i :: 0 < i < k + 1 ==> s[i] == s[1..][..k][i - 1];
      k + 1
  }

  /** str.splitlines: a carriage return with its line feed is one break, and a final break opens no line. */
  function SplitLines(s: string): (lines: seq<string>)
    ensures forall i :: 0 <= i < |lines| ==> NoBreaks(lines[i])
    decreases |s|
  {
    if s == "" then []
    else
      var k := FirstBreak(s);
      if k == |s| then [s]
      else
        var width := if s[k] == '\r' && k + 1 < |s| && s[k + 1] == '\n' then 2 else 1;
        [s[..k]] + SplitLines(s[k + width..])
  }

  lemma {:induction false} FirstBreakIs(head: string, tail: string)
    requires NoBreaks(head) && (tail == "" || IsBreak(tail[0]))
    ensures FirstBreak(head + tail) == |head|
  {
    if head == "" {
      assert head + tail == tail;
    } else {
      assert (head + tail)[1..] == head[1..] + tail;
      FirstBreakIs(head[1..], tail);
    }
  }

  predicate PlainLine(s: string) {
    s != "" && NoBreaks(s)
  }

  /** A line feed, a carriage return, or both, as browsers send it. */
  predicate LineEnd(end: string) {
    end == "\n" || end == "\r" || end == "\r\n"
  }

  /** Lines joined by line ends of one kind are split back into the same lines. */
  lemma {:induction false} LinesRoundTrip(lines: seq<string>, end: string)
    requires LineEnd(end) && forall i :: 0 <= i < |lines| ==> PlainLine(lines[i])
    ensures SplitLines(Join(lines, end)) == lines
  {
    if |lines| == 1 {
      LastLine(lines[0]);
    } else if |lines| > 1 {
      var rest := Join(lines[1..], end);
      assert PlainLine(lines[0]) && PlainLine(lines[1]);
      JoinStarts(lines[1..], end);
      assert lines[0] + end + rest == lines[0] + (end + rest);
      OneLineOff(lines[0], end, rest);
      LinesRoundTrip(lines[1..], end);
      assert [lines[0]] + lines[1..] == lines;
    }
  }

  lemma LastLine(line: string)
    requires PlainLine(line)
    ensures SplitLines(line) == [line]
  {
    assert line + "" == line;
    FirstBreakIs(line, "");
  }

  lemma JoinStarts(lines: seq<string>, end: string)
    requires lines != [] && lines[0] != ""
    ensures Join(lines, end) != "" && Join(lines, end)[0] == lines[0][0]
  {
  }

  lemma OneLineOff(head: string, end: string, rest: string)
    requires LineEnd(end) && PlainLine(head) && rest != "" && !IsBreak(rest[0])
    ensures SplitLines(head + (end + rest)) == [head] + SplitLines(rest)
  {
    var text := head + (end + rest);
    FirstBreakIs(head, end + rest);
    assert text[..|head|] == head && text[|head|..] == end + rest;
    assert text[|head|] == end[0] && text[|head| + 1] == (end + rest)[1];
    assert text[|head| + |end|..] == rest;
  }

  // ---------------------------------------------------------------- parsing

  function StripAll(parts: seq<string>): (r: seq<string>)
    ensures |r| == |parts| && forall i :: 0 <= i < |parts| ==> r[i] == Strip(parts[i])
  {
    seq(|parts|, i requires 0 <= i < |parts| => Strip(parts[i]))
  }

  function NonEmpty(parts: seq<string>): seq<string> {
    if parts == [] then [] else (if parts[0] == "" then [] else [parts[0]]) + NonEmpty(parts[1..])
  }

  function AliasesOf(field: string): seq<string> {
    NonEmpty(StripAll(SplitOn(field, ',')))
  }

  function Upper(c: char): char {
    if 'a' <= c <= 'z' then (c as int - 32) as char else c
  }

  function UpperAll(s: string): string {
    seq(|s|, i requires 0 <= i < |s| => Upper(s[i]))
  }

  function KindName(k: Kind): string {
    match k case Regular => "REGULAR" case Repeat => "REPEAT"
  }

  function KindOf(field: string): Option<Kind> {
    var name := UpperAll(field);
    if name == "REGULAR" then Some(Regular) else if name == "REPEAT" then Some(Repeat) else None
  }

  /** The text is the word, in capitals or not. */
  predicate IsWord(text: string, word: string) {
    |text| == |word| && forall i :: 0 <= i < |word| ==>
      text[i] == word[i] || ('A' <= word[i] <= 'Z' && text[i] as int == word[i] as int + 32)
  }

  /** A type is read in capitals or not, and no other word is one. */
  lemma KindIgnoresCase(field: string)
    ensures KindOf(field) == Some(Regular) <==> IsWord(field, "REGULAR")
    ensures KindOf(field) == Some(Repeat) <==> IsWord(field, "REPEAT")
  {
    UpperIsWord(field, "REGULAR");
    UpperIsWord(field, "REPEAT");
  }

  lemma UpperIsWord(text: string, word: string)
    requires forall i :: 0 <= i < |word| ==> 'A' <= word[i] <= 'Z'
    ensures UpperAll(text) == word <==> IsWord(text, word)
  {
    if UpperAll(text) == word {
      forall i | 0 <= i < |word|
        ensures text[i] == word[i] || ('A' <= word[i] <= 'Z' && text[i] as int == word[i] as int + 32)
      {
        assert Upper(text[i]) == word[i];
      }
    }
  }

  function ParseParts(parts: seq<string>): Line {
    if |parts| < 3 then Bad(TooFewParts)
    else if parts[0] == "" || parts[1] == "" then Bad(NameOrSectionMissing)
    else
      var batch := if |parts| > 3 && parts[3] != "" then Some(parts[3]) else None;
      var aliases := if |parts| > 4 && parts[4] != "" then AliasesOf(parts[4]) else [];
      match KindOf(parts[2])
      case None => Bad(UnknownType)
      case Some(kind) => Course(EnrolledCourse(parts[0], parts[1], kind, batch, aliases))
  }

  function ParseLine(raw: string): Line {
    var line := Strip(raw);
    if line == "" then Empty else ParseParts(StripAll(SplitOn(line, '|')))
  }

  /** The fields of a line, as written between its bars. */
  function FieldsOf(raw: string): seq<string> {
    SplitOn(Strip(raw), '|')
  }

  function Bars(s: string): nat {
    if s == "" then 0 else Bars(s[1..]) + if s[0] == '|' then 1 else 0
  }

  lemma {:induction false} BarsSplit(s: string)
    ensures |SplitOn(s, '|')| == Bars(s) + 1
  {
    if s != "" { BarsSplit(s[1..]); }
  }

  /** When a line is refused or passed over. */
  lemma LineRefused(raw: string)
    ensures ParseLine(raw) == Empty <==> AllSpace(raw)
    ensures ParseLine(raw) == Bad(TooFewParts) <==> !AllSpace(raw) && Bars(Strip(raw)) < 2
    ensures ParseLine(raw) == Bad(NameOrSectionMissing) <==>
            && !AllSpace(raw) && Bars(Strip(raw)) >= 2
            && (AllSpace(FieldsOf(raw)[0]) || AllSpace(FieldsOf(raw)[1]))
    ensures ParseLine(raw) == Bad(UnknownType) <==>
            && !AllSpace(raw) && Bars(Strip(raw)) >= 2 && !AllSpace(FieldsOf(raw)[0]) && !AllSpace(FieldsOf(raw)[1])
            && !IsWord(Strip(FieldsOf(raw)[2]), "REGULAR") && !IsWord(Strip(FieldsOf(raw)[2]), "REPEAT")
  {
    var fields := FieldsOf(raw);
    BlankIsEmpty(raw);
    BarsSplit(Strip(raw));
    if |fields| >= 3 {
      BlankIsEmpty(fields[0]);
      BlankIsEmpty(fields[1]);
      KindIgnoresCase(Strip(fields[2]));
    }
  }

  /** What an accepted line says: name, section and type; a batch year if there is a fourth field that is not blank; and
      whatever is not blank between the commas of a fifth. */
  lemma LineAccepted(raw: string, alias: string)
    requires ParseLine(raw).Course?
    ensures var c, fields := ParseLine(raw).course, FieldsOf(raw);
      && |fields| >= 3 && c.name == Strip(fields[0]) && c.section == Strip(fields[1])
      && IsWord(Strip(fields[2]), if c.kind == Regular then "REGULAR" else "REPEAT")
      && c.batch == (if |fields| > 3 && !AllSpace(fields[3]) then Some(Strip(fields[3])) else None)
      && (alias in c.aliases <==>
            && |fields| > 4 && alias != ""
            && var names := SplitOn(Strip(fields[4]), ',');
               exists i :: 0 <= i < |names| && Strip(names[i]) == alias)
  {
    var fields := FieldsOf(raw);
    KindIgnoresCase(Strip(fields[2]));
    if |fields| > 3 { BlankIsEmpty(fields[3]); }
    if |fields| > 4 { AliasesAre(Strip(fields[4]), SplitOn(Strip(fields[4]), ','), alias); }
  }

  lemma AliasesAre(field: string, pieces: seq<string>, alias: string)
    requires pieces == SplitOn(field, ',')
    ensures alias in AliasesOf(field) <==> alias != "" && exists i :: 0 <= i < |pieces| && Strip(pieces[i]) == alias
  {
    NonEmptyAre(StripAll(pieces), alias);
    StrippedAre(pieces, alias);
  }

  lemma StrippedAre(pieces: seq<string>, x: string)
    ensures x in StripAll(pieces) <==> exists i :: 0 <= i < |pieces| && Strip(pieces[i]) == x
  {
    var parts := StripAll(pieces);
    if x in parts {
      var i :| 0 <= i < |parts| && parts[i] == x;
      assert Strip(pieces[i]) == x;
    }
    if i :| 0 <= i < |pieces| && Strip(pieces[i]) == x { assert parts[i] == x; }
  }

  lemma {:induction false} NonEmptyAre(parts: seq<string>, x: string)
    ensures x in NonEmpty(parts) <==> x != "" && x in parts
  {
    if parts != [] { NonEmptyAre(parts[1..], x); }
  }

  /** Every line read on its own. */
  function ReadLines(lines: seq<string>, reader: string -> Line): (read: seq<Line>)
    ensures |read| == |lines| && forall i :: 0 <= i < |lines| ==> read[i] == reader(lines[i])
  {
    seq(|lines|, i requires 0 <= i < |lines| => reader(lines[i]))
  }

  /** The courses of the first n lines, up to the first bad one. */
  function Collect(read: seq<Line>, n: nat): Parsed
    requires n <= |read|
  {
    if n == 0 then Courses([])
    else
      match Collect(read, n - 1)
      case Failed(line, error) => Failed(line, error)
      case Courses(courses) =>
        match read[n - 1]
        case Empty => Courses(courses)
        case Bad(error) => Failed(n, error)
        case Course(course) => Courses(courses + [course])
  }

  function ParseWith(lines: seq<string>, reader: string -> Line): Parsed {
    Collect(ReadLines(lines, reader), |lines|)
  }

  function Parse(text: string): Parsed {
    ParseWith(SplitLines(text), ParseLine)
  }

  lemma {:induction false} FailureSticks(read: seq<Line>, m: nat, n: nat)
    requires m <= n <= |read| && Collect(read, m).Failed?
    ensures Collect(read, n) == Collect(read, m)
  {
    if m < n { FailureSticks(read, m, n - 1); }
  }

  /** The loop over the lines: it stops at the first bad one. */
  method CollectCourses(lines: seq<string>, reader: string -> Line) returns (result: Parsed)
    ensures result == ParseWith(lines, reader)
  {
    ghost var read := ReadLines(lines, reader);
    var courses: seq<EnrolledCourse> := [];
    for lineno := 1 to |lines| + 1
      invariant Collect(read, lineno - 1) == Courses(courses)
    {
      match reader(lines[lineno - 1]) {
        case Empty =>
        case Bad(error) =>
          FailureSticks(read, lineno, |lines|);
          return Failed(lineno, error);
        case Course(course) =>
          courses := courses + [course];
      }
    }
    return Courses(courses);
  }

  /** _parse_enrollment_text. */
  method ParseEnrollmentText(text: string) returns (result: Parsed)
    ensures result == Parse(text)
  {
    result := CollectCourses(SplitLines(text), ParseLine);
  }

  lemma {:induction false} CollectStopsAtFirstBad(read: seq<Line>, n: nat)
    requires n <= |read|
    ensures Collect(read, n).Courses? <==> forall j :: 0 <= j < n ==> !read[j].Bad?
    ensures var r := Collect(read, n);
      r.Failed? ==>
        && 1 <= r.line <= n && read[r.line - 1] == Bad(r.error)
        && forall j :: 0 <= j < r.line - 1 ==> !read[j].Bad?
  {
    if n > 0 { CollectStopsAtFirstBad(read, n - 1); }
  }

  lemma FirstBadDecides(read: seq<Line>, k: nat, error: LineError)
    ensures Collect(read, |read|).Courses? <==> forall j :: 0 <= j < |read| ==> !read[j].Bad?
    ensures Collect(read, |read|) == Failed(k, error) <==>
            && 1 <= k <= |read| && read[k - 1] == Bad(error)
            && forall j :: 0 <= j < k - 1 ==> !read[j].Bad?
  {
    CollectStopsAtFirstBad(read, |read|);
  }

  /** What each line of a text reads as. */
  function Readings(text: string): (read: seq<Line>)
    ensures |read| == |SplitLines(text)| && forall j :: 0 <= j < |read| ==> read[j] == ParseLine(SplitLines(text)[j])
  {
    ReadLines(SplitLines(text), ParseLine)
  }

  /** A text is refused with the error of line k exactly when line k is its first bad line, and accepted exactly when it
      has none. */
  lemma RefusedAtFirstBadLine(text: string, k: nat, error: LineError)
    ensures Parse(text).Courses? <==> forall j :: 0 <= j < |Readings(text)| ==> !Readings(text)[j].Bad?
    ensures Parse(text) == Failed(k, error) <==>
            && 1 <= k <= |Readings(text)| && Readings(text)[k - 1] == Bad(error)
            && forall j :: 0 <= j < k - 1 ==> !Readings(text)[j].Bad?
  {
    FirstBadDecides(Readings(text), k, error);
  }

  // --------------------------------------------------------------- printing

  function LineParts(c: EnrolledCourse): (parts: seq<string>)
    ensures |parts| >= 3
  {
    var batch := if c.batch.Some? then c.batch.value else "";
    [c.name, c.section, KindName(c.kind)]
    + (if batch != "" || c.aliases != [] then [batch] else [])
    + (if c.aliases != [] then [Join(c.aliases, ",")] else [])
  }

  function PrintLine(c: EnrolledCourse): string {
    Join(LineParts(c), " | ")
  }

  function PrintLines(e: seq<EnrolledCourse>): (lines: seq<string>)
    ensures |lines| == |e| && forall i :: 0 <= i < |e| ==> lines[i] == PrintLine(e[i])
  {
    seq(|e|, i requires 0 <= i < |e| => PrintLine(e[i]))
  }

  function Print(e: seq<EnrolledCourse>): string {
    Join(PrintLines(e), "\n")
  }

  /** _enrollment_to_text. */
  method EnrollmentToText(enrollment: seq<EnrolledCourse>) returns (text: string)
    ensures text == Print(enrollment)
  {
    var lines: seq<string> := [];
    for i := 0 to |enrollment|
      invariant lines == PrintLines(enrollment[..i])
    {
      var course := enrollment[i];
      assert enrollment[..i + 1] == enrollment[..i] + [course];
      var batch := if course.batch.Some? then course.batch.value else "";
      var parts := [course.name, course.section, KindName(course.kind)];
      if batch != "" || course.aliases != [] { parts := parts + [batch]; }
      if course.aliases != [] { parts := parts + [Join(course.aliases, ",")]; }
      assert parts == LineParts(course);
      lines := lines + [Join(parts, " | ")];
    }
    assert enrollment[..|enrollment|] == enrollment;
    text := Join(lines, "\n");
  }

  // ------------------------------------------------------------- well-formed

  /** A field the text format can carry: something, with no blank ends, no bar and no line break inside. */
  predicate Field(s: string) {
    s != "" && Stripped(s) && Without(s, '|') && NoBreaks(s)
  }

  predicate Alias(s: string) {
    Field(s) && Without(s, ',')
  }

  predicate WellFormed(c: EnrolledCourse) {
    && Field(c.name) && Field(c.section)
    && (c.batch.Some? ==> Field(c.batch.value))
    && forall i :: 0 <= i < |c.aliases| ==> Alias(c.aliases[i])
  }

  // ------------------------------------------- what parsing yields is well-formed

  lemma StripKeeps(s: string, c: char)
    requires Without(s, c)
    ensures Without(Strip(s), c)
  {
    var before, after := StripCuts(s);
    forall i | 0 <= i < |Strip(s)| ensures Strip(s)[i] != c { assert s[|before| + i] == Strip(s)[i]; }
  }

  lemma StripKeepsLine(s: string)
    requires NoBreaks(s)
    ensures NoBreaks(Strip(s)) && Stripped(Strip(s))
  {
    var before, after := StripCuts(s);
    forall i | 0 <= i < |Strip(s)| ensures !IsBreak(Strip(s)[i]) { assert s[|before| + i] == Strip(s)[i]; }
  }

  lemma PartKeepsLine(s: string, c: char, i: nat)
    requires NoBreaks(s) && i < |SplitOn(s, c)|
    ensures NoBreaks(SplitOn(s, c)[i])
  {
    var part := SplitOn(s, c)[i];
    forall k | 0 <= k < |part| ensures !IsBreak(part[k]) { SplitOnKeeps(s, c, i, part[k]); }
  }

  lemma PartKeeps(s: string, c: char, i: nat, other: char)
    requires Without(s, other) && i < |SplitOn(s, c)|
    ensures Without(SplitOn(s, c)[i], other)
  {
    var part := SplitOn(s, c)[i];
    forall k | 0 <= k < |part| ensures part[k] != other { SplitOnKeeps(s, c, i, part[k]); }
  }

  /** A part of a line, once stripped, is a field or empty. */
  predicate FieldOrEmpty(s: string) {
    s == "" || Field(s)
  }

  lemma PartIsField(line: string, i: nat)
    requires NoBreaks(line) && i < |SplitOn(line, '|')|
    ensures FieldOrEmpty(StripAll(SplitOn(line, '|'))[i])
  {
    var part := SplitOn(line, '|')[i];
    PartKeepsLine(line, '|', i);
    StripKeepsLine(part);
    StripKeeps(part, '|');
  }

  lemma PieceIsAlias(field: string, i: nat)
    requires Field(field) && i < |SplitOn(field, ',')|
    ensures var piece := StripAll(SplitOn(field, ','))[i]; piece == "" || Alias(piece)
  {
    var part := SplitOn(field, ',')[i];
    PartKeepsLine(field, ',', i);
    PartKeeps(field, ',', i, '|');
    StripKeepsLine(part);
    StripKeeps(part, ',');
    StripKeeps(part, '|');
  }

  lemma {:induction false} NonEmptyIs(parts: seq<string>)
    requires forall i :: 0 <= i < |parts| ==> parts[i] == "" || Alias(parts[i])
    ensures forall i :: 0 <= i < |NonEmpty(parts)| ==> Alias(NonEmpty(parts)[i])
  {
    if parts != [] { NonEmptyIs(parts[1..]); }
  }

  lemma AliasesAreAliases(field: string)
    requires Field(field)
    ensures forall i :: 0 <= i < |AliasesOf(field)| ==> Alias(AliasesOf(field)[i])
  {
    var pieces := StripAll(SplitOn(field, ','));
    forall i | 0 <= i < |pieces| ensures pieces[i] == "" || Alias(pieces[i]) { PieceIsAlias(field, i); }
    NonEmptyIs(pieces);
  }

  lemma PartsGiveWellFormed(parts: seq<string>)
    requires forall i :: 0 <= i < |parts| ==> FieldOrEmpty(parts[i])
    ensures ParseParts(parts).Course? ==> WellFormed(ParseParts(parts).course)
  {
    if |parts| > 4 && parts[4] != "" {
      assert FieldOrEmpty(parts[4]);
      AliasesAreAliases(parts[4]);
    }
    if |parts| >= 3 { assert FieldOrEmpty(parts[0]) && FieldOrEmpty(parts[1]); }
    if |parts| > 3 { assert FieldOrEmpty(parts[3]); }
  }

  lemma LineGivesWellFormed(raw: string)
    requires NoBreaks(raw)
    ensures ParseLine(raw).Course? ==> WellFormed(ParseLine(raw).course)
  {
    StripKeepsLine(raw);
    var parts := StripAll(SplitOn(Strip(raw), '|'));
    forall i | 0 <= i < |parts| ensures FieldOrEmpty(parts[i]) { PartIsField(Strip(raw), i); }
    PartsGiveWellFormed(parts);
  }

  lemma {:induction false} CollectedFrom(read: seq<Line>, n: nat, c: EnrolledCourse)
    requires n <= |read| && Collect(read, n).Courses? && c in Collect(read, n).courses
    ensures Course(c) in read
  {
    if n > 0 && read[n - 1] != Course(c) { CollectedFrom(read, n - 1, c); }
  }

  /** Whatever the text, the courses it parses to are well-formed. */
  lemma ParseIsWellFormed(text: string)
    ensures Parse(text).Courses? ==> forall c :: c in Parse(text).courses ==> WellFormed(c)
  {
    var lines := SplitLines(text);
    var read := ReadLines(lines, ParseLine);
    if Parse(text).Courses? {
      forall c | c in Parse(text).courses ensures WellFormed(c) {
        CollectedFrom(read, |read|, c);
        var i :| 0 <= i < |read| && read[i] == Course(c);
        LineGivesWellFormed(lines[i]);
      }
    }
  }

  // ------------------------------------------------------ parsing undoes printing

  /** Fields joined by " | " come apart at the bars and strip back to themselves. */
  lemma {:induction false} PartsRoundTrip(parts: seq<string>, pad: string)
    requires parts != [] && forall i :: 0 <= i < |parts| ==> Stripped(parts[i]) && Without(parts[i], '|')
    requires AllSpace(pad) && Without(pad, '|')
    ensures StripAll(SplitOn(pad + Join(parts, " | "), '|')) == parts
  {
    var first := parts[0];
    if |parts| == 1 {
      SplitOnNone(pad + first, '|');
      StripPadded(pad, first, "");
      assert pad + first + "" == pad + first;
    } else {
      var rest := Join(parts[1..], " | ");
      var head, tail := pad + first + " ", " " + rest;
      assert pad + Join(parts, " | ") == head + ['|'] + tail;
      FirstPart(pad, first, tail);
      PartsRoundTrip(parts[1..], " ");
    }
  }

  lemma FirstPart(pad: string, first: string, tail: string)
    requires Stripped(first) && Without(first, '|') && AllSpace(pad) && Without(pad, '|')
    ensures StripAll(SplitOn(pad + first + " " + ['|'] + tail, '|')) == [first] + StripAll(SplitOn(tail, '|'))
  {
    var head := pad + first + " ";
    SplitOnHead(head, '|', tail);
    StripPadded(pad, first, " ");
    assert StripAll([head] + SplitOn(tail, '|')) == [Strip(head)] + StripAll(SplitOn(tail, '|'));
  }

  lemma {:induction false} AliasesRoundTrip(aliases: seq<string>)
    requires aliases != [] && forall i :: 0 <= i < |aliases| ==> Alias(aliases[i])
    ensures AliasesOf(Join(aliases, ",")) == aliases
  {
    var first := aliases[0];
    assert Alias(first);
    StripPadded("", first, "");
    assert "" + first + "" == first;
    if |aliases| == 1 {
      SplitOnNone(first, ',');
      assert StripAll([first]) == [first] == aliases;
      assert NonEmpty([first]) == [first] + NonEmpty([]);
    } else {
      var rest := Join(aliases[1..], ",");
      assert Join(aliases, ",") == first + [','] + rest;
      FirstAlias(first, rest);
      AliasesRoundTrip(aliases[1..]);
    }
  }

  lemma FirstAlias(first: string, rest: string)
    requires Alias(first) && Strip(first) == first
    ensures AliasesOf(first + [','] + rest) == [first] + AliasesOf(rest)
  {
    SplitOnHead(first, ',', rest);
    assert StripAll([first] + SplitOn(rest, ',')) == [first] + StripAll(SplitOn(rest, ','));
  }

  /** Aliases joined by commas make one field. */
  lemma {:induction false} AliasesMakeField(aliases: seq<string>)
    requires aliases != [] && forall i :: 0 <= i < |aliases| ==> Alias(aliases[i])
    ensures Field(Join(aliases, ","))
  {
    assert Alias(aliases[0]);
    if |aliases| > 1 {
      AliasesMakeField(aliases[1..]);
      assert Join(aliases, ",") == aliases[0] + "," + Join(aliases[1..], ",");
    }
  }

  /** A line of fields starts and ends with its first and last field and has no line break. */
  lemma {:induction false} JoinedLine(parts: seq<string>)
    requires parts != [] && Field(parts[|parts| - 1])
    requires forall i :: 0 <= i < |parts| ==> FieldOrEmpty(parts[i])
    ensures var line := Join(parts, " | ");
      && line != "" && NoBreaks(line) && !IsSpace(line[|line| - 1]) && (Field(parts[0]) ==> line[0] == parts[0][0])
  {
    if |parts| > 1 {
      JoinedLine(parts[1..]);
      assert FieldOrEmpty(parts[0]);
      assert Join(parts, " | ") == parts[0] + " | " + Join(parts[1..], " | ");
    }
  }

  lemma KindRoundTrip(k: Kind)
    ensures KindOf(KindName(k)) == Some(k) && Field(KindName(k))
  {
    assert UpperAll(KindName(k)) == KindName(k);
  }

  lemma PrintedParts(c: EnrolledCourse)
    requires WellFormed(c)
    ensures var parts := LineParts(c);
      && Field(parts[0]) && Field(parts[|parts| - 1]) && forall i :: 0 <= i < |parts| ==> FieldOrEmpty(parts[i])
    ensures ParseParts(LineParts(c)) == Course(c)
  {
    KindRoundTrip(c.kind);
    if c.aliases != [] {
      AliasesMakeField(c.aliases);
      AliasesRoundTrip(c.aliases);
      PartsWithAliases(c, Join(c.aliases, ","));
    } else {
      PartsWithoutAliases(c);
    }
  }

  lemma PartsWithAliases(c: EnrolledCourse, joined: string)
    requires WellFormed(c) && c.aliases != [] && joined == Join(c.aliases, ",") && Field(joined)
    requires AliasesOf(joined) == c.aliases && KindOf(KindName(c.kind)) == Some(c.kind) && Field(KindName(c.kind))
    ensures var parts := LineParts(c);
      && Field(parts[0]) && Field(parts[|parts| - 1]) && forall i :: 0 <= i < |parts| ==> FieldOrEmpty(parts[i])
    ensures ParseParts(LineParts(c)) == Course(c)
  {
    var batch := if c.batch.Some? then c.batch.value else "";
    assert LineParts(c) == [c.name, c.section, KindName(c.kind), batch, joined];
  }

  lemma PartsWithoutAliases(c: EnrolledCourse)
    requires WellFormed(c) && c.aliases == []
    requires KindOf(KindName(c.kind)) == Some(c.kind) && Field(KindName(c.kind))
    ensures var parts := LineParts(c);
      && Field(parts[0]) && Field(parts[|parts| - 1]) && forall i :: 0 <= i < |parts| ==> FieldOrEmpty(parts[i])
    ensures ParseParts(LineParts(c)) == Course(c)
  {
    var batch := if c.batch.Some? then c.batch.value else "";
    assert LineParts(c) == if batch != "" then [c.name, c.section, KindName(c.kind), batch]
                           else [c.name, c.section, KindName(c.kind)];
  }

  lemma ParseLineBy(line: string, parts: seq<string>, c: EnrolledCourse)
    requires line != "" && Stripped(line) && StripAll(SplitOn(line, '|')) == parts && ParseParts(parts) == Course(c)
    ensures ParseLine(line) == Course(c)
  {
    StripPadded("", line, "");
    assert "" + line + "" == line;
  }

  lemma PrintedLineIsPlain(parts: seq<string>)
    requires parts != [] && Field(parts[0]) && Field(parts[|parts| - 1])
    requires forall i :: 0 <= i < |parts| ==> FieldOrEmpty(parts[i])
    ensures PlainLine(Join(parts, " | ")) && Stripped(Join(parts, " | "))
    ensures StripAll(SplitOn(Join(parts, " | "), '|')) == parts
  {
    JoinedLine(parts);
    PartsRoundTrip(parts, "");
    assert "" + Join(parts, " | ") == Join(parts, " | ");
  }

  lemma LineRoundTrip(c: EnrolledCourse)
    requires WellFormed(c)
    ensures PlainLine(PrintLine(c)) && ParseLine(PrintLine(c)) == Course(c)
  {
    PrintedParts(c);
    PrintedLineIsPlain(LineParts(c));
    ParseLineBy(PrintLine(c), LineParts(c), c);
  }

  lemma {:induction false} CollectAll(read: seq<Line>, e: seq<EnrolledCourse>, n: nat)
    requires n <= |read| == |e| && forall i :: 0 <= i < |e| ==> read[i] == Course(e[i])
    ensures Collect(read, n) == Courses(e[..n])
  {
    if n > 0 { CollectAll(read, e, n - 1); }
  }

  /** Parsing undoes printing exactly for well-formed courses, with or without a batch year, with or without aliases. */
  lemma ParseUndoesPrint(e: seq<EnrolledCourse>)
    ensures Parse(Print(e)) == Courses(e) <==> forall i :: 0 <= i < |e| ==> WellFormed(e[i])
  {
    if forall i :: 0 <= i < |e| ==> WellFormed(e[i]) {
      var lines := PrintLines(e);
      forall i | 0 <= i < |e| ensures PlainLine(lines[i]) && ParseLine(lines[i]) == Course(e[i])
      { LineRoundTrip(e[i]); }
      LinesRoundTrip(lines, "\n");
      CollectAll(ReadLines(lines, ParseLine), e, |e|);
    }
    ParseIsWellFormed(Print(e));
    if Parse(Print(e)) == Courses(e) {
      forall i | 0 <= i < |e| ensures WellFormed(e[i]) { assert e[i] in Parse(Print(e)).courses; }
    }
  }

  /** The text area can be pre-filled with what was saved and saved again without change. */
  lemma PrintKeepsParse(text: string)
    requires Parse(text).Courses?
    ensures Parse(Print(Parse(text).courses)) == Parse(text)
  {
    ParseIsWellFormed(text);
    var e := Parse(text).courses;
    forall i | 0 <= i < |e| ensures WellFormed(e[i]) { assert e[i] in e; }
    ParseUndoesPrint(e);
  }

  /** A form sends the printed text back with other line ends, and it is the same enrollment. */
  lemma SentBackParses(e: seq<EnrolledCourse>, end: string)
    requires LineEnd(end) && forall i :: 0 <= i < |e| ==> WellFormed(e[i])
    ensures Parse(Join(PrintLines(e), end)) == Courses(e)
  {
    var lines := PrintLines(e);
    forall i | 0 <= i < |e| ensures PlainLine(lines[i]) && ParseLine(lines[i]) == Course(e[i]) { LineRoundTrip(e[i]); }
    LinesRoundTrip(lines, end);
    CollectAll(ReadLines(lines, ParseLine), e, |e|);
  }
}
