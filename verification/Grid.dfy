/** Reading one weekday tab of the timetable sheet (ragra/adapters/fast_timetable.py). */
module Grid {
  import opened Text
  import TwelveHour

  type Slot = TwelveHour.Slot

  /** What the cell pattern takes out of one course cell. */
  datatype ParsedCell = ParsedCell(course: string, section: string, year: Option<string>, timeOverride: Option<Slot>,
                                   cancelled: bool)

  datatype ExtractedClass = ExtractedClass(course: string, section: string, year: Option<string>, day: int, time: Slot,
                                           room: Option<string>, cancelled: bool)

  /** The two regular expressions: a bare time range with its four numbers, and the course cell. */
  datatype Patterns = Patterns(isTime: string -> bool, slot: string -> Slot, course: string -> Option<ParsedCell>)
  {
    /** A time range is never blank. */
    predicate Sensible() {
      !isTime("")
    }
  }

  predicate Blank(cell: string) {
    Strip(cell) == ""
  }

  predicate TimeCell(p: Patterns, cell: string) {
    !Blank(cell) && p.isTime(Strip(cell))
  }

  predicate LabelCell(p: Patterns, cell: string) {
    !Blank(cell) && !p.isTime(Strip(cell))
  }

  predicate HeaderRow(p: Patterns, row: seq<string>) {
    exists i :: 0 <= i < |row| && TimeCell(p, row[i])
  }

  // ----------------------------------------------------- what a header row says

  /** m is the last non-blank cell at or left of col. */
  predicate Mark(row: seq<string>, col: int, m: int) {
    0 <= m <= col < |row| && !Blank(row[m]) && forall k :: m < k <= col ==> Blank(row[k])
  }

  /** The cell a column belongs to, if any. */
  function MarkOf(row: seq<string>, col: nat): (m: int)
    requires col < |row|
    ensures m == -1 || Mark(row, col, m)
    ensures forall k :: m < k <= col ==> Blank(row[k])
  {
    if !Blank(row[col]) then col else if col == 0 then -1 else MarkOf(row, col - 1)
  }

  lemma MarkIsUnique(row: seq<string>, col: int, m: int)
    requires Mark(row, col, m)
    ensures MarkOf(row, col) == m
  {
  }

  /** The column lies in the span of a time cell. */
  predicate Covers(p: Patterns, row: seq<string>, col: int) {
    0 <= col < |row| && MarkOf(row, col) >= 0 && TimeCell(p, row[MarkOf(row, col)])
  }

  /** The time cells of a row, left to right, as written. */
  function TimeSlots(p: Patterns, row: seq<string>): seq<Slot> {
    if row == [] then []
    else TimeSlots(p, row[..|row| - 1]) + (if TimeCell(p, row[|row| - 1]) then [p.slot(row[|row| - 1])] else [])
  }

  /** How many time cells stand left of column i. */
  function Rank(p: Patterns, row: seq<string>, i: nat): nat
    requires i <= |row|
  {
    |TimeSlots(p, row[..i])|
  }

  lemma RankStep(p: Patterns, row: seq<string>, i: nat)
    requires i < |row|
    ensures Rank(p, row, i + 1) == Rank(p, row, i) + if TimeCell(p, row[i]) then 1 else 0
    ensures TimeSlots(p, row[..i + 1]) == TimeSlots(p, row[..i]) + if TimeCell(p, row[i]) then [p.slot(row[i])] else []
  {
    assert row[..i + 1][..i] == row[..i];
  }

  /** The time cell at m is number Rank(m) of its row: reading the resolved list there never runs off its end. */
  lemma {:induction false} RankInRange(p: Patterns, row: seq<string>, m: nat)
    requires m < |row| && TimeCell(p, row[m])
    ensures Rank(p, row, m) < |TimeSlots(p, row)|
    ensures TimeSlots(p, row)[Rank(p, row, m)] == p.slot(row[m])
  {
    RankStep(p, row, |row| - 1);
    assert row[..|row|] == row;
    if m < |row| - 1 {
      RankInRange(p, row[..|row| - 1], m);
      assert row[..|row| - 1][..m] == row[..m];
    }
  }

  /** The last label left of column i, else column 0. */
  function RoomLabel(p: Patterns, row: seq<string>, i: nat): (r: nat)
    requires i <= |row|
    ensures (r < i && LabelCell(p, row[r])) || (r == 0 && forall k :: 0 <= k < i ==> !LabelCell(p, row[k]))
    ensures forall k :: r < k < i ==> !LabelCell(p, row[k])
  {
    if i == 0 then 0 else if LabelCell(p, row[i - 1]) then i - 1 else RoomLabel(p, row, i - 1)
  }

  /** The time a header row gives a column it covers. */
  function HeaderSlot(p: Patterns, row: seq<string>, col: int): Slot
    requires Covers(p, row, col)
  {
    var m := MarkOf(row, col);
    RankInRange(p, row, m);
    TwelveHour.ResolveSlot(TimeSlots(p, row), Rank(p, row, m))
  }

  function HeaderRoom(p: Patterns, row: seq<string>, col: int): nat
    requires Covers(p, row, col)
  {
    RoomLabel(p, row, MarkOf(row, col))
  }

  // ------------------------------------------------- the two maps of the scan

  datatype Columns = Columns(time: map<int, Slot>, room: map<int, nat>)

  /** What a header row says of a column. */
  datatype Stamp = Stamp(slot: Slot, room: nat)

  function StampAt(p: Patterns, row: seq<string>, col: int): Option<Stamp> {
    if Covers(p, row, col) then Some(Stamp(HeaderSlot(p, row, col), HeaderRoom(p, row, col))) else None
  }

  function StampsOf(p: Patterns, row: seq<string>): (stamps: seq<Option<Stamp>>)
    ensures |stamps| == |row| && forall col :: 0 <= col < |row| ==> stamps[col] == StampAt(p, row, col)
  {
    seq(|row|, col requires 0 <= col < |row| => StampAt(p, row, col))
  }

  /** One row of stamps overlays the columns it stamps, among the first `width`, and leaves every other alone. */
  function Overlay(c: Columns, stamps: seq<Option<Stamp>>, width: nat): Columns
    requires width <= |stamps|
  {
    if width == 0 then c
    else
      var narrow := Overlay(c, stamps, width - 1);
      if stamps[width - 1].Some? then Stamped(narrow, width - 1, stamps[width - 1].value) else narrow
  }

  function Stamped(c: Columns, col: int, s: Stamp): Columns {
    Columns(c.time[col := s.slot], c.room[col := s.room])
  }

  /** The entries of c at col are those of the stamp. */
  predicate HasStamp(c: Columns, col: int, s: Stamp) {
    col in c.time && c.time[col] == s.slot && col in c.room && c.room[col] == s.room
  }

  /** The entries of a and b at col agree. */
  predicate SameAt(a: Columns, b: Columns, col: int) {
    && (col in a.time <==> col in b.time) && (col in a.time ==> a.time[col] == b.time[col])
    && (col in a.room <==> col in b.room) && (col in a.room ==> a.room[col] == b.room[col])
  }

  lemma {:induction false} OverlayAt(c: Columns, stamps: seq<Option<Stamp>>, width: nat, col: int)
    requires width <= |stamps|
    ensures if 0 <= col < width && stamps[col].Some? then HasStamp(Overlay(c, stamps, width), col, stamps[col].value)
            else SameAt(Overlay(c, stamps, width), c, col)
  {
    if width > 0 { OverlayAt(c, stamps, width - 1, col); }
  }

  /** The maps after a number of rows. */
  function ColumnsAfter(p: Patterns, rows: seq<seq<string>>): Columns {
    if rows == [] then Columns(map[], map[])
    else
      var before := ColumnsAfter(p, rows[..|rows| - 1]);
      var row := rows[|rows| - 1];
      if HeaderRow(p, row) then Overlay(before, StampsOf(p, row), |row|) else before
  }

  /** h is the most recent of the first r rows whose time cells span the column. */
  predicate Governs(p: Patterns, rows: seq<seq<string>>, r: int, col: int, h: int) {
    0 <= h < r <= |rows| && Covers(p, rows[h], col) && forall k :: h < k < r ==> !Covers(p, rows[k], col)
  }

  function Governor(p: Patterns, rows: seq<seq<string>>, r: nat, col: int): (h: int)
    requires r <= |rows|
    ensures h == -1 || Governs(p, rows, r, col, h)
    ensures forall k :: h < k < r ==> !Covers(p, rows[k], col)
  {
    if r == 0 then -1 else if Covers(p, rows[r - 1], col) then r - 1 else Governor(p, rows, r - 1, col)
  }

  lemma GovernorIsUnique(p: Patterns, rows: seq<seq<string>>, r: nat, col: int, h: int)
    requires Governs(p, rows, r, col, h)
    ensures Governor(p, rows, r, col) == h
  {
    var g := Governor(p, rows, r, col);
    assert g >= h;
  }

  lemma CoveredIsHeader(p: Patterns, row: seq<string>, col: int)
    requires Covers(p, row, col)
    ensures HeaderRow(p, row)
  {
    assert TimeCell(p, row[MarkOf(row, col)]);
  }

  lemma {:induction false} ColumnsByGovernor(p: Patterns, rows: seq<seq<string>>, r: nat, col: int)
    requires r <= |rows|
    ensures var c, h := ColumnsAfter(p, rows[..r]), Governor(p, rows, r, col);
      && (col in c.time <==> h >= 0) && (col in c.room <==> h >= 0)
      && (h >= 0 ==> c.time[col] == HeaderSlot(p, rows[h], col) && c.room[col] == HeaderRoom(p, rows[h], col))
  {
    if r > 0 {
      var row, before := rows[r - 1], ColumnsAfter(p, rows[..r - 1]);
      assert rows[..r][..r - 1] == rows[..r - 1];
      ColumnsByGovernor(p, rows, r - 1, col);
      OverlayAt(before, StampsOf(p, row), |row|, col);
      if Covers(p, row, col) { CoveredIsHeader(p, row, col); }
    }
  }

  /** The column maps are the most recent header row spanning each column - not the last header row: a column no later
      header spans keeps the time and room column of the earlier one. */
  lemma ColumnsAreMostRecent(p: Patterns, rows: seq<seq<string>>, r: nat, col: int)
    requires r <= |rows|
    ensures col in ColumnsAfter(p, rows[..r]).time <==> exists h :: Governs(p, rows, r, col, h)
    ensures col in ColumnsAfter(p, rows[..r]).room <==> col in ColumnsAfter(p, rows[..r]).time
    ensures forall h :: Governs(p, rows, r, col, h) ==>
      && ColumnsAfter(p, rows[..r]).time[col] == HeaderSlot(p, rows[h], col)
      && ColumnsAfter(p, rows[..r]).room[col] == HeaderRoom(p, rows[h], col)
  {
    ColumnsByGovernor(p, rows, r, col);
    forall h | Governs(p, rows, r, col, h) ensures h == Governor(p, rows, r, col)
    { GovernorIsUnique(p, rows, r, col, h); }
  }

  /** Reading the sheet by its last header row alone gives the same maps exactly when that row spans every column an
      earlier one spanned. */
  lemma LastHeaderSuffices(p: Patterns, rows: seq<seq<string>>, header: seq<string>)
    requires HeaderRow(p, header)
    ensures ColumnsAfter(p, rows + [header]) == ColumnsAfter(p, [header]) <==>
            forall col :: col in ColumnsAfter(p, rows).time ==> Covers(p, header, col)
  {
    var none := Columns(map[], map[]);
    assert (rows + [header])[..|rows|] == rows && [header][..0] == [];
    forall col ensures col in ColumnsAfter(p, rows).room <==> col in ColumnsAfter(p, rows).time {
      assert rows[..|rows|] == rows;
      ColumnsByGovernor(p, rows, |rows|, col);
    }
    OverlayAlone(ColumnsAfter(p, rows), StampsOf(p, header));
    assert ColumnsAfter(p, [header]) == Overlay(none, StampsOf(p, header), |header|);
    forall col ensures IsStamped(StampsOf(p, header), col) <==> Covers(p, header, col) {
      assert 0 <= col < |header| ==> StampsOf(p, header)[col] == StampAt(p, header, col);
    }
  }

  /** Where the two readings differ: a header of two slots, then one of a single slot; the second column keeps the
      slot of the first header. */
  lemma OldColumnSurvives(p: Patterns, time: string)
    requires TimeCell(p, time)
    ensures 1 in ColumnsAfter(p, [[time, time]]).time && !Covers(p, [time], 1)
    ensures ColumnsAfter(p, [[time, time]] + [[time]]) != ColumnsAfter(p, [[time]])
  {
    var wide, narrow := [time, time], [time];
    assert TimeCell(p, wide[0]) && TimeCell(p, narrow[0]);
    assert Mark(wide, 1, 1);
    MarkIsUnique(wide, 1, 1);
    assert Governs(p, [wide], 1, 1, 0);
    assert [wide][..1] == [wide];
    ColumnsAreMostRecent(p, [wide], 1, 1);
    LastHeaderSuffices(p, [wide], narrow);
  }

  predicate IsStamped(stamps: seq<Option<Stamp>>, col: int) {
    0 <= col < |stamps| && stamps[col].Some?
  }

  lemma OverlayAlone(c: Columns, stamps: seq<Option<Stamp>>)
    requires forall col :: col in c.room <==> col in c.time
    ensures Overlay(c, stamps, |stamps|) == Overlay(Columns(map[], map[]), stamps, |stamps|) <==>
            forall col :: col in c.time ==> IsStamped(stamps, col)
  {
    var none := Columns(map[], map[]);
    var over, alone := Overlay(c, stamps, |stamps|), Overlay(none, stamps, |stamps|);
    forall col ensures if IsStamped(stamps, col) then SameAt(over, alone, col)
                       else SameAt(over, c, col) && SameAt(alone, none, col) {
      OverlayAt(c, stamps, |stamps|, col);
      OverlayAt(none, stamps, |stamps|, col);
    }
    if forall col :: col in c.time ==> IsStamped(stamps, col) {
      forall col ensures SameAt(over, alone, col) {
        if !IsStamped(stamps, col) { assert SameAt(over, c, col) && SameAt(alone, none, col); }
      }
      SameEverywhere(over, alone);
    }
    if over == alone {
      forall col | col in c.time ensures IsStamped(stamps, col) {
        assert IsStamped(stamps, col) || (SameAt(over, c, col) && SameAt(alone, none, col));
      }
    }
  }

  lemma SameEverywhere(a: Columns, b: Columns)
    requires forall col :: SameAt(a, b, col)
    ensures a == b
  {
    forall col | col in a.time ensures col in b.time && a.time[col] == b.time[col] { assert SameAt(a, b, col); }
    forall col | col in b.time ensures col in a.time { assert SameAt(a, b, col); }
    assert a.time == b.time;
    forall col | col in a.room ensures col in b.room && a.room[col] == b.room[col] { assert SameAt(a, b, col); }
    forall col | col in b.room ensures col in a.room { assert SameAt(a, b, col); }
    assert a.room == b.room;
  }

  // ------------------------------------------------------------ one data cell

  function Afternoon(hour: int, columnIsPm: bool): int {
    if columnIsPm && hour < 12 then hour + 12 else hour
  }

  /** A time written inside a cell is read in the half of the day its column is in. */
  function ResolveOverride(written: Slot, column: Slot): Slot {
    var pm := column.startHour >= 12;
    written.(startHour := Afternoon(written.startHour, pm), endHour := Afternoon(written.endHour, pm))
  }

  function RoomIn(row: seq<string>, roomCol: nat): Option<string> {
    if roomCol < |row| && !Blank(row[roomCol]) then Some(Strip(row[roomCol])) else None
  }

  function Meeting(p: Patterns, c: Columns, row: seq<string>, col: nat, day: int): Option<ExtractedClass>
    requires col < |row|
  {
    if col !in c.time || Blank(row[col]) then None
    else
      match p.course(row[col])
      case None => None
      case Some(cell) =>
        var time := if cell.timeOverride.Some? then ResolveOverride(cell.timeOverride.value, c.time[col])
                    else c.time[col];
        var room := RoomIn(row, if col in c.room then c.room[col] else 0);
        Some(ExtractedClass(cell.course, cell.section, cell.year, day, time, room, cell.cancelled))
  }

  /** What stands in each cell of a data row. */
  function RowCells(p: Patterns, c: Columns, row: seq<string>, day: int): (cells: seq<Option<ExtractedClass>>)
    ensures |cells| == |row| && forall col :: 0 <= col < |row| ==> cells[col] == Meeting(p, c, row, col, day)
  {
    seq(|row|, col requires 0 <= col < |row| => Meeting(p, c, row, col, day))
  }

  /** The classes among the first cells, from left to right. */
  function Present(cells: seq<Option<ExtractedClass>>, width: nat): seq<ExtractedClass>
    requires width <= |cells|
  {
    if width == 0 then []
    else Present(cells, width - 1) + if cells[width - 1].Some? then [cells[width - 1].value] else []
  }

  function RowMeetings(p: Patterns, c: Columns, row: seq<string>, day: int): seq<ExtractedClass> {
    Present(RowCells(p, c, row, day), |row|)
  }

  function Meetings(p: Patterns, rows: seq<seq<string>>, day: int): seq<ExtractedClass> {
    if rows == [] then []
    else
      var before, row := rows[..|rows| - 1], rows[|rows| - 1];
      Meetings(p, before, day) + RowPart(p, before, row, day)
  }

  /** What one row adds, below the rows before it. */
  function RowPart(p: Patterns, before: seq<seq<string>>, row: seq<string>, day: int): seq<ExtractedClass> {
    if HeaderRow(p, row) then [] else RowMeetings(p, ColumnsAfter(p, before), row, day)
  }

  lemma MeetingsOneMore(p: Patterns, rows: seq<seq<string>>, r: nat, day: int)
    requires r < |rows|
    ensures Meetings(p, rows[..r + 1], day) == Meetings(p, rows[..r], day) + RowPart(p, rows[..r], rows[r], day)
  {
    assert rows[..r + 1][..r] == rows[..r];
  }

  // ------------------------------------------------------------------ the scan

  predicate Entries(row: seq<string>, entries: seq<nat>, upTo: nat)
    requires upTo <= |row|
  {
    && (forall j :: 0 <= j < |entries| ==> entries[j] < upTo && !Blank(row[entries[j]]))
    && (forall i, j :: 0 <= i < j < |entries| ==> entries[i] < entries[j])
    && (forall k :: 0 <= k < upTo && !Blank(row[k]) ==> k in entries)
  }

  /** Where the entry at a position starts; the end of the row after the last one. */
  function Edge(row: seq<string>, entries: seq<nat>, position: nat): nat
    requires position <= |entries|
  {
    if position < |entries| then entries[position] else |row|
  }

  lemma GapIsBlank(row: seq<string>, entries: seq<nat>, position: nat, k: nat)
    requires Entries(row, entries, |row|) && position < |entries|
    requires entries[position] < k < Edge(row, entries, position + 1)
    ensures Blank(row[k])
  {
    forall j | 0 <= j < |entries| ensures entries[j] != k {
      assert j < position ==> entries[j] < entries[position];
      assert position + 1 < j ==> entries[position + 1] < entries[j];
    }
  }

  lemma BlankBeforeFirst(row: seq<string>, entries: seq<nat>, k: nat)
    requires Entries(row, entries, |row|) && k < Edge(row, entries, 0)
    ensures k < |row| && Blank(row[k])
  {
    assert entries != [] ==> entries[0] < |row|;
    forall j | 0 <= j < |entries| ensures entries[j] != k {
      assert 0 < j ==> entries[0] < entries[j];
    }
  }

  method CollectTimeCells(p: Patterns, row: seq<string>) returns (slots: seq<Slot>)
    requires p.Sensible()
    ensures slots == TimeSlots(p, row)
    ensures slots == [] <==> !HeaderRow(p, row)
  {
    slots := [];
    for i := 0 to |row|
      invariant slots == TimeSlots(p, row[..i])
    {
      RankStep(p, row, i);
      if row[i] != "" && p.isTime(Strip(row[i])) { slots := slots + [p.slot(row[i])]; }
    }
    assert row[..|row|] == row;
    SlotsOfHeader(p, row, |row|);
  }

  lemma {:induction false} SlotsOfHeader(p: Patterns, row: seq<string>, i: nat)
    requires i <= |row|
    ensures TimeSlots(p, row[..i]) == [] <==> forall k :: 0 <= k < i ==> !TimeCell(p, row[k])
  {
    if i > 0 {
      SlotsOfHeader(p, row, i - 1);
      RankStep(p, row, i - 1);
    }
  }

  method CollectEntries(row: seq<string>) returns (entries: seq<nat>)
    ensures Entries(row, entries, |row|)
  {
    entries := [];
    for i := 0 to |row|
      invariant Entries(row, entries, i)
    {
      if !Blank(row[i]) { entries := entries + [i]; }
    }
  }

  /** Nothing is covered left of the first entry, and inside a span everything is covered as its entry says. */
  lemma SpanColumn(p: Patterns, row: seq<string>, entries: seq<nat>, position: nat, col: nat)
    requires Entries(row, entries, |row|) && position < |entries|
    requires entries[position] <= col < Edge(row, entries, position + 1)
    ensures col < |row| && MarkOf(row, col) == entries[position]
    ensures Covers(p, row, col) <==> TimeCell(p, row[entries[position]])
  {
    assert position + 1 < |entries| ==> entries[position + 1] < |row|;
    forall k | entries[position] < k <= col ensures Blank(row[k]) { GapIsBlank(row, entries, position, k); }
    MarkIsUnique(row, col, entries[position]);
  }

  lemma BeforeFirstEntry(p: Patterns, row: seq<string>, entries: seq<nat>, col: int)
    requires Entries(row, entries, |row|) && 0 <= col < Edge(row, entries, 0)
    ensures !Covers(p, row, col)
  {
    forall k | 0 <= k <= col ensures k < |row| && Blank(row[k]) { BlankBeforeFirst(row, entries, k); }
  }

  /** Between two entries no time cell and no label is passed. */
  lemma AcrossGap(p: Patterns, row: seq<string>, i: nat, j: nat)
    requires i <= j <= |row| && forall k :: i <= k < j ==> Blank(row[k])
    ensures Rank(p, row, j) == Rank(p, row, i) && RoomLabel(p, row, j) == RoomLabel(p, row, i)
  {
    RankAcrossGap(p, row, i, j);
    LabelAcrossGap(p, row, i, j);
  }

  lemma {:induction false} RankAcrossGap(p: Patterns, row: seq<string>, i: nat, j: nat)
    requires i <= j <= |row| && forall k :: i <= k < j ==> Blank(row[k])
    ensures Rank(p, row, j) == Rank(p, row, i)
  {
    if i < j {
      RankAcrossGap(p, row, i, j - 1);
      RankStep(p, row, j - 1);
    }
  }

  lemma {:induction false} LabelAcrossGap(p: Patterns, row: seq<string>, i: nat, j: nat)
    requires i <= j <= |row| && forall k :: i <= k < j ==> Blank(row[k])
    ensures RoomLabel(p, row, j) == RoomLabel(p, row, i)
  {
    if i < j { LabelAcrossGap(p, row, i, j - 1); }
  }

  lemma NextEntry(p: Patterns, row: seq<string>, entries: seq<nat>, position: nat)
    requires Entries(row, entries, |row|) && position < |entries|
    ensures entries[position] < Edge(row, entries, position + 1) <= |row|
    ensures Rank(p, row, Edge(row, entries, position + 1))
            == Rank(p, row, entries[position]) + if TimeCell(p, row[entries[position]]) then 1 else 0
    ensures RoomLabel(p, row, Edge(row, entries, position + 1))
            == if LabelCell(p, row[entries[position]]) then entries[position] else RoomLabel(p, row, entries[position])
  {
    var i, e := entries[position], Edge(row, entries, position + 1);
    assert i < e && e <= |row|;
    forall k | i + 1 <= k < e ensures Blank(row[k]) { GapIsBlank(row, entries, position, k); }
    AcrossGap(p, row, i + 1, e);
    RankStep(p, row, i);
  }

  lemma FirstEntry(p: Patterns, row: seq<string>, entries: seq<nat>)
    requires Entries(row, entries, |row|)
    ensures Edge(row, entries, 0) <= |row| && Rank(p, row, Edge(row, entries, 0)) == 0
    ensures RoomLabel(p, row, Edge(row, entries, 0)) == 0
  {
    var e := Edge(row, entries, 0);
    forall k | 0 <= k < e ensures Blank(row[k]) { BlankBeforeFirst(row, entries, k); }
    AcrossGap(p, row, 0, e);
    assert row[..0] == [];
  }

  lemma {:induction false} OverlaySkips(c: Columns, stamps: seq<Option<Stamp>>, i: nat, j: nat)
    requires i <= j <= |stamps| && forall col :: i <= col < j ==> stamps[col].None?
    ensures Overlay(c, stamps, j) == Overlay(c, stamps, i)
  {
    if i < j { OverlaySkips(c, stamps, i, j - 1); }
  }

  /** Stamp one slot and room column on the columns of a span. */
  method StampSpan(columns: Columns, ghost before: Columns, ghost stamps: seq<Option<Stamp>>, index: nat, spanEnd: nat,
                   slot: Slot, roomSource: nat)
    returns (after: Columns)
    requires index <= spanEnd <= |stamps| && columns == Overlay(before, stamps, index)
    requires forall col :: index <= col < spanEnd ==> stamps[col] == Some(Stamp(slot, roomSource))
    ensures after == Overlay(before, stamps, spanEnd)
  {
    after := columns;
    for col: nat := index to spanEnd
      invariant after == Overlay(before, stamps, col)
    {
      after := Columns(after.time[col := slot], after.room[col := roomSource]);
    }
  }

  /** Every column of a time cell's span is stamped with its slot and the last label left of it. */
  lemma SpanStamp(p: Patterns, row: seq<string>, entries: seq<nat>, position: nat, col: nat)
    requires Entries(row, entries, |row|) && position < |entries|
    requires entries[position] <= col < Edge(row, entries, position + 1)
    requires TimeCell(p, row[entries[position]])
    ensures Rank(p, row, entries[position]) < |TimeSlots(p, row)|
    ensures StampAt(p, row, col) ==
            Some(Stamp(TwelveHour.ResolveSlot(TimeSlots(p, row), Rank(p, row, entries[position])),
                       RoomLabel(p, row, entries[position])))
  {
    SpanColumn(p, row, entries, position, col);
    RankInRange(p, row, entries[position]);
  }

  /** A time cell stamps every column of its span. */
  lemma TimeSpan(p: Patterns, row: seq<string>, entries: seq<nat>, position: nat, resolved: seq<Slot>, timeIndex: nat,
                 roomSource: nat)
    requires Entries(row, entries, |row|) && position < |entries| && TimeCell(p, row[entries[position]])
    requires |resolved| == |TimeSlots(p, row)|
    requires forall i :: 0 <= i < |resolved| ==> resolved[i] == TwelveHour.ResolveSlot(TimeSlots(p, row), i)
    requires timeIndex == Rank(p, row, entries[position]) && roomSource == RoomLabel(p, row, entries[position])
    ensures timeIndex < |resolved|
    ensures Edge(row, entries, position + 1) <= |row|
    ensures forall col :: entries[position] <= col < Edge(row, entries, position + 1) ==>
              StampsOf(p, row)[col] == Some(Stamp(resolved[timeIndex], roomSource))
  {
    NextEntry(p, row, entries, position);
    RankInRange(p, row, entries[position]);
    forall col | entries[position] <= col < Edge(row, entries, position + 1)
      ensures StampsOf(p, row)[col] == Some(Stamp(resolved[timeIndex], roomSource))
    {
      SpanStamp(p, row, entries, position, col);
    }
  }

  /** Any other entry stamps none. */
  lemma LabelSpan(p: Patterns, row: seq<string>, entries: seq<nat>, position: nat)
    requires Entries(row, entries, |row|) && position < |entries| && !TimeCell(p, row[entries[position]])
    ensures Edge(row, entries, position + 1) <= |row|
    ensures forall col :: entries[position] <= col < Edge(row, entries, position + 1) ==> StampsOf(p, row)[col].None?
  {
    NextEntry(p, row, entries, position);
    forall col | entries[position] <= col < Edge(row, entries, position + 1) ensures StampsOf(p, row)[col].None? {
      SpanColumn(p, row, entries, position, col);
    }
  }

  /** Where the entry loop stands: the count of time cells and the last label left of column `edge`, and the columns
      stamped up to there. */
  ghost predicate HeaderRead(p: Patterns, row: seq<string>, before: Columns, edge: nat, timeIndex: nat, roomSource: nat,
                             after: Columns) {
    && edge <= |row| && timeIndex == Rank(p, row, edge) && roomSource == RoomLabel(p, row, edge)
    && after == Overlay(before, StampsOf(p, row), edge)
  }

  /** One entry of a header row: a time cell stamps its span, any other is the room label from now on. */
  method ReadEntry(p: Patterns, row: seq<string>, entries: seq<nat>, position: nat, resolved: seq<Slot>,
                   ghost before: Columns, sofar: Columns, timeIndex: nat, roomSource: nat)
    returns (after: Columns, nextIndex: nat, nextSource: nat)
    requires Entries(row, entries, |row|) && position < |entries|
    requires |resolved| == |TimeSlots(p, row)|
    requires forall i :: 0 <= i < |resolved| ==> resolved[i] == TwelveHour.ResolveSlot(TimeSlots(p, row), i)
    requires HeaderRead(p, row, before, entries[position], timeIndex, roomSource, sofar)
    ensures HeaderRead(p, row, before, Edge(row, entries, position + 1), nextIndex, nextSource, after)
  {
    var index := entries[position];
    var spanEnd := if position + 1 < |entries| then entries[position + 1] else |row|;
    NextEntry(p, row, entries, position);
    if p.isTime(Strip(row[index])) {
      TimeSpan(p, row, entries, position, resolved, timeIndex, roomSource);
      after := StampSpan(sofar, before, StampsOf(p, row), index, spanEnd, resolved[timeIndex], roomSource);
      nextIndex, nextSource := timeIndex + 1, roomSource;
    } else {
      LabelSpan(p, row, entries, position);
      OverlaySkips(before, StampsOf(p, row), index, spanEnd);
      after, nextIndex, nextSource := sofar, timeIndex, index;
    }
  }

  lemma HeaderStarts(p: Patterns, row: seq<string>, entries: seq<nat>, before: Columns)
    requires Entries(row, entries, |row|)
    ensures HeaderRead(p, row, before, Edge(row, entries, 0), 0, 0, before)
  {
    var stamps := StampsOf(p, row);
    FirstEntry(p, row, entries);
    forall col | 0 <= col < Edge(row, entries, 0) ensures stamps[col].None? { BeforeFirstEntry(p, row, entries, col); }
    OverlaySkips(before, stamps, 0, Edge(row, entries, 0));
  }

  /** One header row: every time cell stamps its slot and room column on each column up to the next non-blank cell. */
  method ReadHeader(p: Patterns, row: seq<string>, slots: seq<Slot>, before: Columns) returns (after: Columns)
    requires slots == TimeSlots(p, row)
    ensures after == Overlay(before, StampsOf(p, row), |row|)
  {
    var resolved := TwelveHour.Resolve24hTimeSequence(slots);
    var entries := CollectEntries(row);
    HeaderStarts(p, row, entries, before);
    after := before;
    var timeIndex: nat, roomSource: nat := 0, 0;
    for position := 0 to |entries|
      invariant HeaderRead(p, row, before, Edge(row, entries, position), timeIndex, roomSource, after)
    {
      after, timeIndex, roomSource :=
        ReadEntry(p, row, entries, position, resolved, before, after, timeIndex, roomSource);
    }
  }

  /** The cells of one data row. */
  method ReadRow(p: Patterns, columns: Columns, row: seq<string>, day: int) returns (found: seq<ExtractedClass>)
    ensures found == RowMeetings(p, columns, row, day)
  {
    ghost var cells := RowCells(p, columns, row, day);
    found := [];
    for col := 0 to |row|
      invariant found == Present(cells, col)
    {
      var meeting := Meeting(p, columns, row, col, day);
      assert cells[col] == meeting;
      if meeting.Some? { found := found + [meeting.value]; }
    }
  }

  lemma RowsOneMore(p: Patterns, rows: seq<seq<string>>, r: nat, day: int)
    requires r < |rows|
    ensures HeaderRow(p, rows[r]) ==>
      && ColumnsAfter(p, rows[..r + 1]) == Overlay(ColumnsAfter(p, rows[..r]), StampsOf(p, rows[r]), |rows[r]|)
      && Meetings(p, rows[..r + 1], day) == Meetings(p, rows[..r], day)
    ensures !HeaderRow(p, rows[r]) ==>
      && ColumnsAfter(p, rows[..r + 1]) == ColumnsAfter(p, rows[..r])
      && Meetings(p, rows[..r + 1], day)
         == Meetings(p, rows[..r], day) + RowMeetings(p, ColumnsAfter(p, rows[..r]), rows[r], day)
  {
    assert rows[..r + 1][..r] == rows[..r];
  }

  /** extract_classes_from_grid: one pass over the rows, headers updating the maps and the other rows reading them. */
  method ExtractClassesFromGrid(p: Patterns, grid: seq<seq<string>>, day: int) returns (extracted: seq<ExtractedClass>)
    requires p.Sensible()
    ensures extracted == Meetings(p, grid, day)
  {
    var columns := Columns(map[], map[]);
    extracted := [];
    for r := 0 to |grid|
      invariant columns == ColumnsAfter(p, grid[..r])
      invariant extracted == Meetings(p, grid[..r], day)
    {
      var row := grid[r];
      RowsOneMore(p, grid, r, day);
      var timeCells := CollectTimeCells(p, row);
      if timeCells != [] {
        columns := ReadHeader(p, row, timeCells, columns);
      } else {
        var found := ReadRow(p, columns, row, day);
        extracted := extracted + found;
      }
    }
    assert grid[..|grid|] == grid;
  }

  // ------------------------------------------------------ what is read, and why

  /** An hour written in a cell whose column starts at some hour of the day, and the hour it stands for: in an afternoon
      column an hour before twelve is one of the afternoon; any other is what is written. */
  predicate HourReadAs(written: int, columnStart: int, hour: int) {
    && (12 <= columnStart && written < 12 ==> hour == written + 12)
    && (columnStart < 12 || 12 <= written ==> hour == written)
  }

  /** A time written in a cell, below a slot of its column, and the time it stands for. */
  predicate OverrideReadAs(written: Slot, column: Slot, time: Slot) {
    && HourReadAs(written.startHour, column.startHour, time.startHour)
    && HourReadAs(written.endHour, column.startHour, time.endHour)
    && time.startMinute == written.startMinute && time.endMinute == written.endMinute
  }

  lemma OverrideIsReadAs(written: Slot, column: Slot, time: Slot)
    ensures time == ResolveOverride(written, column) <==> OverrideReadAs(written, column, time)
  {
  }

  /** Class x is what the sheet says at row r, column col, under header row h. */
  predicate ReadAt(p: Patterns, rows: seq<seq<string>>, day: int, x: ExtractedClass, r: int, col: int, h: int) {
    && Governs(p, rows, r, col, h) && r < |rows| && !HeaderRow(p, rows[r])
    && 0 <= col < |rows[r]| && !Blank(rows[r][col]) && p.course(rows[r][col]).Some?
    && var cell := p.course(rows[r][col]).value;
       var slot := HeaderSlot(p, rows[h], col);
       && x.course == cell.course && x.section == cell.section && x.year == cell.year && x.cancelled == cell.cancelled
       && x.day == day
       && (cell.timeOverride.None? ==> x.time == slot)
       && (cell.timeOverride.Some? ==> OverrideReadAs(cell.timeOverride.value, slot, x.time))
       && RoomReadAs(rows[r], HeaderRoom(p, rows[h], col), x.room)
  }

  /** The room is the stripped text in the room column, where that holds anything. */
  predicate RoomReadAs(row: seq<string>, roomCol: nat, room: Option<string>) {
    && (room.Some? <==> roomCol < |row| && Strip(row[roomCol]) != "")
    && (room.Some? ==> room.value == Strip(row[roomCol]))
  }

  lemma RoomIsReadAs(row: seq<string>, roomCol: nat, room: Option<string>)
    ensures room == RoomIn(row, roomCol) <==> RoomReadAs(row, roomCol, room)
  {
  }

  lemma CellIsReadAs(cell: ParsedCell, slot: Slot, time: Slot)
    ensures time == (if cell.timeOverride.Some? then ResolveOverride(cell.timeOverride.value, slot) else slot) <==>
            && (cell.timeOverride.None? ==> time == slot)
            && (cell.timeOverride.Some? ==> OverrideReadAs(cell.timeOverride.value, slot, time))
  {
    if cell.timeOverride.Some? { OverrideIsReadAs(cell.timeOverride.value, slot, time); }
  }

  lemma MeetingIsReadAt(p: Patterns, rows: seq<seq<string>>, day: int, x: ExtractedClass, r: nat, col: nat)
    requires r < |rows| && !HeaderRow(p, rows[r]) && col < |rows[r]|
    ensures Meeting(p, ColumnsAfter(p, rows[..r]), rows[r], col, day) == Some(x) <==>
            exists h :: ReadAt(p, rows, day, x, r, col, h)
  {
    ColumnsAreMostRecent(p, rows, r, col);
    forall h | Governs(p, rows, r, col, h)
      ensures Meeting(p, ColumnsAfter(p, rows[..r]), rows[r], col, day) == Some(x) <==>
              ReadAt(p, rows, day, x, r, col, h)
    {
      MeetingUnder(p, rows, day, x, r, col, h);
    }
  }

  lemma MeetingUnder(p: Patterns, rows: seq<seq<string>>, day: int, x: ExtractedClass, r: nat, col: nat, h: int)
    requires r < |rows| && !HeaderRow(p, rows[r]) && col < |rows[r]| && Governs(p, rows, r, col, h)
    requires var c := ColumnsAfter(p, rows[..r]);
      && col in c.time && c.time[col] == HeaderSlot(p, rows[h], col)
      && col in c.room && c.room[col] == HeaderRoom(p, rows[h], col)
    ensures Meeting(p, ColumnsAfter(p, rows[..r]), rows[r], col, day) == Some(x) <==>
            ReadAt(p, rows, day, x, r, col, h)
  {
    if !Blank(rows[r][col]) && p.course(rows[r][col]).Some? {
      CellIsReadAs(p.course(rows[r][col]).value, HeaderSlot(p, rows[h], col), x.time);
      RoomIsReadAs(rows[r], HeaderRoom(p, rows[h], col), x.room);
    }
  }

  // ------------------------------------------------------- in which order, how often

  /** A cell of the sheet. */
  datatype Place = Place(row: nat, col: nat)

  /** Row by row, and within a row from left to right. */
  predicate Precedes(a: Place, b: Place) {
    a.row < b.row || (a.row == b.row && a.col < b.col)
  }

  /** What stands at a place, read with the columns of the rows above it. */
  function MeetingAt(p: Patterns, rows: seq<seq<string>>, day: int, at: Place): Option<ExtractedClass> {
    if at.row < |rows| && at.col < |rows[at.row]| && !HeaderRow(p, rows[at.row])
    then Meeting(p, ColumnsAfter(p, rows[..at.row]), rows[at.row], at.col, day) else None
  }

  function PresentAt(cells: seq<Option<ExtractedClass>>, width: nat, r: nat): seq<Place>
    requires width <= |cells|
  {
    if width == 0 then []
    else PresentAt(cells, width - 1, r) + if cells[width - 1].Some? then [Place(r, width - 1)] else []
  }

  function PartPlaces(p: Patterns, before: seq<seq<string>>, row: seq<string>, day: int): seq<Place> {
    if HeaderRow(p, row) then [] else PresentAt(RowCells(p, ColumnsAfter(p, before), row, day), |row|, |before|)
  }

  /** The places of the sheet that hold a class, in reading order. */
  function Places(p: Patterns, rows: seq<seq<string>>, day: int): seq<Place> {
    if rows == [] then []
    else
      var before, row := rows[..|rows| - 1], rows[|rows| - 1];
      Places(p, before, day) + PartPlaces(p, before, row, day)
  }

  lemma {:induction false} PresentMatch(cells: seq<Option<ExtractedClass>>, width: nat, r: nat)
    requires width <= |cells|
    ensures var places, found := PresentAt(cells, width, r), Present(cells, width);
      && |places| == |found|
      && (forall i :: 0 <= i < |places| ==>
            places[i].row == r && places[i].col < width && cells[places[i].col] == Some(found[i]))
      && (forall i, j :: 0 <= i < j < |places| ==> places[i].col < places[j].col)
      && (forall col: nat :: col < width && cells[col].Some? ==> Place(r, col) in places)
  {
    if width > 0 { PresentMatch(cells, width - 1, r); }
  }

  predicate Matches(p: Patterns, rows: seq<seq<string>>, day: int, places: seq<Place>, found: seq<ExtractedClass>,
                    n: nat) {
    && |places| == |found|
    && (forall i :: 0 <= i < |places| ==>
          places[i].row < n && MeetingAt(p, rows, day, places[i]) == Some(found[i]))
    && (forall i, j :: 0 <= i < j < |places| ==> Precedes(places[i], places[j]))
  }

  lemma PartMatches(p: Patterns, rows: seq<seq<string>>, day: int, r: nat)
    requires r < |rows|
    ensures var places, found := PartPlaces(p, rows[..r], rows[r], day), RowPart(p, rows[..r], rows[r], day);
      && Matches(p, rows, day, places, found, r + 1)
      && (forall i :: 0 <= i < |places| ==> places[i].row == r)
      && (forall at: Place :: at.row == r && MeetingAt(p, rows, day, at).Some? ==> at in places)
  {
    PresentMatch(RowCells(p, ColumnsAfter(p, rows[..r]), rows[r], day), |rows[r]|, r);
  }

  lemma MatchesConcat(p: Patterns, rows: seq<seq<string>>, day: int, a: seq<Place>, x: seq<ExtractedClass>,
                      b: seq<Place>, y: seq<ExtractedClass>, n: nat)
    requires Matches(p, rows, day, a, x, n) && Matches(p, rows, day, b, y, n + 1)
    requires forall i :: 0 <= i < |b| ==> b[i].row == n
    ensures Matches(p, rows, day, a + b, x + y, n + 1)
  {
    var places, found := a + b, x + y;
    forall i | 0 <= i < |places|
      ensures places[i].row < n + 1 && MeetingAt(p, rows, day, places[i]) == Some(found[i])
    {
      if i < |a| {
        assert places[i] == a[i] && found[i] == x[i];
      } else {
        assert places[i] == b[i - |a|] && found[i] == y[i - |a|];
      }
    }
    ReadingOrder(a, b, n);
  }

  lemma ReadingOrder(a: seq<Place>, b: seq<Place>, n: nat)
    requires forall i :: 0 <= i < |a| ==> a[i].row < n
    requires forall i :: 0 <= i < |b| ==> b[i].row == n
    requires forall i, j :: 0 <= i < j < |a| ==> Precedes(a[i], a[j])
    requires forall i, j :: 0 <= i < j < |b| ==> Precedes(b[i], b[j])
    ensures forall i, j :: 0 <= i < j < |a + b| ==> Precedes((a + b)[i], (a + b)[j])
  {
  }

  lemma {:induction false} PlacesMatch(p: Patterns, rows: seq<seq<string>>, day: int, n: nat)
    requires n <= |rows|
    ensures Matches(p, rows, day, Places(p, rows[..n], day), Meetings(p, rows[..n], day), n)
    ensures forall at: Place :: at.row < n && MeetingAt(p, rows, day, at).Some? ==> at in Places(p, rows[..n], day)
  {
    if n > 0 {
      var r := n - 1;
      assert rows[..n][..r] == rows[..r];
      PlacesMatch(p, rows, day, r);
      PartMatches(p, rows, day, r);
      MeetingsOneMore(p, rows, r, day);
      MatchesConcat(p, rows, day, Places(p, rows[..r], day), Meetings(p, rows[..r], day),
                    PartPlaces(p, rows[..r], rows[r], day), RowPart(p, rows[..r], rows[r], day), r);
    }
  }

  /** Under some header row the sheet says x at this place. */
  ghost predicate SheetSays(p: Patterns, rows: seq<seq<string>>, day: int, x: ExtractedClass, at: Place) {
    exists h :: ReadAt(p, rows, day, x, at.row, at.col, h)
  }

  lemma PlaceIsRead(p: Patterns, rows: seq<seq<string>>, day: int, x: ExtractedClass, at: Place)
    ensures MeetingAt(p, rows, day, at) == Some(x) <==> SheetSays(p, rows, day, x, at)
    ensures SheetSays(p, rows, day, x, at) ==> at.row < |rows|
  {
    if at.row < |rows| && at.col < |rows[at.row]| && !HeaderRow(p, rows[at.row]) {
      MeetingIsReadAt(p, rows, day, x, at.row, at.col);
    }
  }

  /** The scan returns one class for each place of the sheet that holds one, row by row and from left to right, each as
      the sheet says at its place; no place is left out or read twice. */
  lemma ScanFollowsTheSheet(p: Patterns, rows: seq<seq<string>>, day: int)
    ensures var places, found := Places(p, rows, day), Meetings(p, rows, day);
      && |places| == |found|
      && (forall i :: 0 <= i < |places| ==> SheetSays(p, rows, day, found[i], places[i]))
      && (forall i, j :: 0 <= i < j < |places| ==> Precedes(places[i], places[j]))
    ensures forall x, at: Place :: SheetSays(p, rows, day, x, at) ==> at in Places(p, rows, day)
  {
    assert rows[..|rows|] == rows;
    PlacesMatch(p, rows, day, |rows|);
    var places, found := Places(p, rows, day), Meetings(p, rows, day);
    forall i | 0 <= i < |places| ensures SheetSays(p, rows, day, found[i], places[i]) {
      PlaceIsRead(p, rows, day, found[i], places[i]);
    }
    forall x, at: Place | SheetSays(p, rows, day, x, at) ensures at in places {
      PlaceIsRead(p, rows, day, x, at);
    }
  }

  lemma SheetSaysOneThing(p: Patterns, rows: seq<seq<string>>, day: int, x: ExtractedClass, y: ExtractedClass,
                          at: Place)
    requires SheetSays(p, rows, day, x, at) && SheetSays(p, rows, day, y, at)
    ensures x == y
  {
    PlaceIsRead(p, rows, day, x, at);
    PlaceIsRead(p, rows, day, y, at);
  }

  /** So a class is found exactly where a course cell stands below a time span, with its time, room and text from the
      most recent header row spanning that column. */
  lemma ScanMeetsTheSheet(p: Patterns, rows: seq<seq<string>>, day: int, x: ExtractedClass)
    ensures x in Meetings(p, rows, day) <==> exists at: Place :: SheetSays(p, rows, day, x, at)
  {
    ScanFollowsTheSheet(p, rows, day);
    var places, found := Places(p, rows, day), Meetings(p, rows, day);
    if at: Place :| SheetSays(p, rows, day, x, at) {
      var i :| 0 <= i < |places| && places[i] == at;
      SheetSaysOneThing(p, rows, day, x, found[i], at);
    }
  }

  /** The hours are written as on a clock face. */
  predicate ClockFace(slot: Slot) {
    0 <= slot.startHour <= 12 && 0 <= slot.endHour <= 12
  }

  lemma OverrideInDay(written: Slot, column: Slot, time: Slot)
    requires ClockFace(written) && OverrideReadAs(written, column, time)
    ensures 0 <= time.startHour <= 23 && 0 <= time.endHour <= 23
  {
  }

  lemma {:induction false} SlotsOnClockFace(p: Patterns, row: seq<string>)
    requires forall cell :: ClockFace(p.slot(cell))
    ensures forall i :: 0 <= i < |TimeSlots(p, row)| ==> ClockFace(TimeSlots(p, row)[i])
  {
    if row != [] { SlotsOnClockFace(p, row[..|row| - 1]); }
  }

  lemma HeaderInDay(p: Patterns, row: seq<string>, col: int)
    requires Covers(p, row, col) && forall cell :: ClockFace(p.slot(cell))
    ensures var slot := HeaderSlot(p, row, col); 0 <= slot.startHour <= 23 && 0 <= slot.endHour <= 23
  {
    var m := MarkOf(row, col);
    RankInRange(p, row, m);
    SlotsOnClockFace(p, row);
    var slots, i := TimeSlots(p, row), Rank(p, row, m);
    TwelveHour.ResolvedInDay(TwelveHour.Flatten(slots), 2 * i);
    TwelveHour.ResolvedInDay(TwelveHour.Flatten(slots), 2 * i + 1);
  }

  /** If every time on the sheet is written as on a clock face, every class found starts and ends at hours of a day. */
  lemma FoundInDay(p: Patterns, rows: seq<seq<string>>, day: int, x: ExtractedClass)
    requires x in Meetings(p, rows, day) && forall cell :: ClockFace(p.slot(cell))
    requires forall text :: p.course(text).Some? && p.course(text).value.timeOverride.Some? ==>
               ClockFace(p.course(text).value.timeOverride.value)
    ensures 0 <= x.time.startHour <= 23 && 0 <= x.time.endHour <= 23
  {
    ScanMeetsTheSheet(p, rows, day, x);
    var at: Place :| SheetSays(p, rows, day, x, at);
    var h :| ReadAt(p, rows, day, x, at.row, at.col, h);
    HeaderInDay(p, rows[h], at.col);
    var cell := p.course(rows[at.row][at.col]).value;
    if cell.timeOverride.Some? {
      OverrideInDay(cell.timeOverride.value, HeaderSlot(p, rows[h], at.col), x.time);
    }
  }

  /** A header of two slots, from eleven and from half past two. */
  lemma TwoSlots(p: Patterns, morning: string, afternoon: string)
    requires TimeCell(p, morning) && TimeCell(p, afternoon)
    requires p.slot(morning) == TwelveHour.Slot(11, 0, 12, 20) && p.slot(afternoon) == TwelveHour.Slot(2, 30, 3, 50)
    ensures var header := [morning, afternoon];
      Covers(p, header, 1) && HeaderSlot(p, header, 1) == TwelveHour.Slot(14, 30, 15, 50)
      && HeaderRoom(p, header, 1) == 0
  {
    var header := [morning, afternoon];
    MarkIsUnique(header, 1, 1);
    assert header[..1] == [morning] && header[..1][..0] == [] && header[..2] == header;
    var slots := [p.slot(morning), p.slot(afternoon)];
    assert TimeSlots(p, []) == [] && TimeSlots(p, [morning]) == [p.slot(morning)];
    assert TimeSlots(p, header) == slots && Rank(p, header, 1) == 1;
    assert slots[..1] == [p.slot(morning)] && slots[..1][..0] == [];
    var hours := TwelveHour.Flatten(slots);
    assert hours[2 * 0] == 11 && hours[2 * 0 + 1] == 12 && hours[2 * 1] == 2 && hours[2 * 1 + 1] == 3;
    assert TwelveHour.Drops(hours, 2);
  }

  /** Below half past two a class written for half past two to twenty past four is in the afternoon, and reaches half an
      hour past its column. */
  lemma OverrideExample(p: Patterns, morning: string, afternoon: string, text: string, cell: ParsedCell, day: int)
    requires TimeCell(p, morning) && TimeCell(p, afternoon)
    requires p.slot(morning) == TwelveHour.Slot(11, 0, 12, 20) && p.slot(afternoon) == TwelveHour.Slot(2, 30, 3, 50)
    requires !Blank(text) && !p.isTime(Strip(text)) && p.course(text) == Some(cell)
    requires cell.timeOverride == Some(TwelveHour.Slot(2, 30, 4, 20))
    ensures ExtractedClass(cell.course, cell.section, cell.year, day, TwelveHour.Slot(14, 30, 16, 20), None,
                           cell.cancelled)
            in Meetings(p, [[morning, afternoon], ["", text]], day)
  {
    var rows := [[morning, afternoon], ["", text]];
    var x := ExtractedClass(cell.course, cell.section, cell.year, day, TwelveHour.Slot(14, 30, 16, 20), None,
                            cell.cancelled);
    TwoSlots(p, morning, afternoon);
    assert Strip("") == "";
    assert Governs(p, rows, 1, 1, 0) && !HeaderRow(p, rows[1]);
    assert ReadAt(p, rows, day, x, 1, 1, 0);
    assert SheetSays(p, rows, day, x, Place(1, 1));
    ScanMeetsTheSheet(p, rows, day, x);
  }

  // ---------------------------------------------------------------- true times

  function WrittenSlot(slot: Slot): Slot {
    slot.(startHour := TwelveHour.Written(slot.startHour), endHour := TwelveHour.Written(slot.endHour))
  }

  lemma {:induction false} FlattenWritten(slots: seq<Slot>, truth: seq<Slot>)
    requires |slots| == |truth|
    requires forall k :: 0 <= k < |truth| ==> slots[k] == WrittenSlot(truth[k])
    ensures TwelveHour.Flatten(slots) == TwelveHour.WriteAll(TwelveHour.Flatten(truth))
  {
    if truth != [] {
      var last := |truth| - 1;
      FlattenWritten(slots[..last], truth[..last]);
      assert slots[last] == WrittenSlot(truth[last]);
    }
  }

  /** A row of slots written in twelve-hour form is read back slot by slot. */
  lemma WrittenRowReadsBack(slots: seq<Slot>, truth: seq<Slot>, i: nat)
    requires |slots| == |truth| && i < |truth|
    requires TwelveHour.Chronological(TwelveHour.Flatten(truth)) && TwelveHour.DropsAtNoon(TwelveHour.Flatten(truth))
    requires forall k :: 0 <= k < |truth| ==> slots[k] == WrittenSlot(truth[k])
    ensures TwelveHour.ResolveSlot(slots, i) == truth[i]
  {
    FlattenWritten(slots, truth);
    var hours := TwelveHour.Flatten(truth);
    TwelveHour.RoundTripExactly(hours);
    assert TwelveHour.ReadsBack(hours, 2 * i) && TwelveHour.ReadsBack(hours, 2 * i + 1);
    assert slots[i] == WrittenSlot(truth[i]);
  }

  /** A header whose slots were written in twelve-hour form from the true times of one half day gives every column the
      true time of its slot. */
  lemma HeaderTellsTrueTimes(p: Patterns, row: seq<string>, col: int, truth: seq<Slot>)
    requires Covers(p, row, col) && |truth| == |TimeSlots(p, row)|
    requires TwelveHour.Chronological(TwelveHour.Flatten(truth)) && TwelveHour.DropsAtNoon(TwelveHour.Flatten(truth))
    requires forall i :: 0 <= i < |truth| ==> TimeSlots(p, row)[i] == WrittenSlot(truth[i])
    ensures Rank(p, row, MarkOf(row, col)) < |truth|
    ensures HeaderSlot(p, row, col) == truth[Rank(p, row, MarkOf(row, col))]
  {
    RankInRange(p, row, MarkOf(row, col));
    WrittenRowReadsBack(TimeSlots(p, row), truth, Rank(p, row, MarkOf(row, col)));
  }
}
