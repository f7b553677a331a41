/** Reconciling the scraped timetable into the stored weekly classes (ragra/sync/timetable_sync.py,
    ragra/timetable/match.py). */
module TimetableSync {
  import opened Text
  import opened Sorting
  import opened Enrollment
  import Grid

  /** The two text normalisations of the timetable. */
  datatype Norms = Norms(course: string -> string, section: string -> string)

  /** A scraped class and the sheet it was seen on. */
  datatype Sighting = Sighting(sheet: string, cell: Grid.ExtractedClass)

  // ---------------------------------------------------------------- matching

  datatype Match = Nobody | One(enrolled: EnrolledCourse) | Several(count: nat)

  predicate Candidate(n: Norms, cell: Grid.ExtractedClass, e: EnrolledCourse) {
    && (n.course(cell.course) == n.course(e.name)
        || exists i :: 0 <= i < |e.aliases| && n.course(e.aliases[i]) == n.course(cell.course))
    && n.section(e.section) == n.section(cell.section)
  }

  function Candidates(n: Norms, cell: Grid.ExtractedClass, enrollment: seq<EnrolledCourse>): seq<EnrolledCourse> {
    if enrollment == [] then []
    else (if Candidate(n, cell, enrollment[0]) then [enrollment[0]] else []) + Candidates(n, cell, enrollment[1..])
  }

  /** match_cell: the one enrolled course a cell belongs to; several are reported, never picked from. */
  function MatchCell(n: Norms, cell: Grid.ExtractedClass, enrollment: seq<EnrolledCourse>): Match {
    var found := Candidates(n, cell, enrollment);
    if found == [] then Nobody else if |found| > 1 then Several(|found|) else One(found[0])
  }

  predicate OnlyCandidate(n: Norms, cell: Grid.ExtractedClass, enrollment: seq<EnrolledCourse>, i: nat)
    requires i < |enrollment|
  {
    forall j :: 0 <= j < |enrollment| ==> (Candidate(n, cell, enrollment[j]) <==> j == i)
  }

  lemma {:induction false} CandidatesAre(n: Norms, cell: Grid.ExtractedClass, enrollment: seq<EnrolledCourse>)
    ensures Candidates(n, cell, enrollment) == [] <==>
            forall j :: 0 <= j < |enrollment| ==> !Candidate(n, cell, enrollment[j])
    ensures |Candidates(n, cell, enrollment)| == 1 <==>
            exists i :: 0 <= i < |enrollment| && OnlyCandidate(n, cell, enrollment, i)
    ensures forall i :: 0 <= i < |enrollment| && OnlyCandidate(n, cell, enrollment, i) ==>
              Candidates(n, cell, enrollment) == [enrollment[i]]
  {
    if enrollment != [] {
      var rest := enrollment[1..];
      CandidatesAre(n, cell, rest);
      if Candidate(n, cell, enrollment[0]) {
        if Candidates(n, cell, rest) == [] {
          forall j | 0 <= j < |enrollment| ensures Candidate(n, cell, enrollment[j]) <==> j == 0 {
            if j > 0 { assert enrollment[j] == rest[j - 1]; }
          }
          assert OnlyCandidate(n, cell, enrollment, 0);
        }
        forall i | 0 <= i < |enrollment| && OnlyCandidate(n, cell, enrollment, i)
          ensures Candidates(n, cell, enrollment) == [enrollment[i]]
        {
          forall j | 0 <= j < |rest| ensures !Candidate(n, cell, rest[j]) { assert rest[j] == enrollment[j + 1]; }
        }
      } else {
        if |Candidates(n, cell, rest)| == 1 {
          var i :| 0 <= i < |rest| && OnlyCandidate(n, cell, rest, i);
          forall j | 0 <= j < |enrollment| ensures Candidate(n, cell, enrollment[j]) <==> j == i + 1 {
            if j > 0 { assert enrollment[j] == rest[j - 1]; }
          }
          assert OnlyCandidate(n, cell, enrollment, i + 1);
        }
        forall i | 0 <= i < |enrollment| && OnlyCandidate(n, cell, enrollment, i)
          ensures Candidates(n, cell, enrollment) == [enrollment[i]]
        {
          forall j | 0 <= j < |rest| ensures Candidate(n, cell, rest[j]) <==> j == i - 1 {
            assert rest[j] == enrollment[j + 1];
          }
          assert OnlyCandidate(n, cell, rest, i - 1);
        }
      }
    }
  }

  /** A cell is matched exactly when one enrollment row alone fits it, left out when none does, and otherwise reported
      as ambiguous. */
  lemma MatchIsUnambiguous(n: Norms, cell: Grid.ExtractedClass, enrollment: seq<EnrolledCourse>)
    ensures MatchCell(n, cell, enrollment).Nobody? <==>
            forall j :: 0 <= j < |enrollment| ==> !Candidate(n, cell, enrollment[j])
    ensures MatchCell(n, cell, enrollment).One? <==>
            exists i :: 0 <= i < |enrollment| && OnlyCandidate(n, cell, enrollment, i)
    ensures forall i :: 0 <= i < |enrollment| && OnlyCandidate(n, cell, enrollment, i) ==>
              MatchCell(n, cell, enrollment) == One(enrollment[i])
  {
    CandidatesAre(n, cell, enrollment);
  }

  // ---------------------------------------------------------------- grouping

  /** A matched class. */
  datatype Entry = Entry(seen: Sighting, enrolled: EnrolledCourse)

  datatype GroupKey = GroupKey(name: string, section: string, kind: Kind)

  function KeyOf(x: Entry): GroupKey {
    GroupKey(x.enrolled.name, x.enrolled.section, x.enrolled.kind)
  }

  function Entries(n: Norms, enrollment: seq<EnrolledCourse>, seen: seq<Sighting>): seq<Entry> {
    if seen == [] then []
    else
      var front, last := Entries(n, enrollment, seen[..|seen| - 1]), seen[|seen| - 1];
      match MatchCell(n, last.cell, enrollment)
      case One(enrolled) => front + [Entry(last, enrolled)]
      case _ => front
  }

  /** The groups in the order their first entry was met. */
  function Keys(entries: seq<Entry>): seq<GroupKey> {
    if entries == [] then []
    else
      var front, key := Keys(entries[..|entries| - 1]), KeyOf(entries[|entries| - 1]);
      if key in front then front else front + [key]
  }

  function Group(entries: seq<Entry>, key: GroupKey): seq<Entry> {
    if entries == [] then []
    else
      var front, last := Group(entries[..|entries| - 1], key), entries[|entries| - 1];
      if KeyOf(last) == key then front + [last] else front
  }

  /** The order within a group: by day, then by start time. */
  predicate Before(x: Entry, y: Entry) {
    var a, b := x.seen.cell, y.seen.cell;
    a.day < b.day
    || (a.day == b.day
        && (a.time.startHour < b.time.startHour
            || (a.time.startHour == b.time.startHour && a.time.startMinute < b.time.startMinute)))
  }

  function StartText(hour: nat, minute: nat): string {
    Pad(hour, 2) + [':'] + Pad(minute, 2)
  }

  /** Comparing "HH:MM" texts compares the times. */
  lemma StartTextOrder(h: nat, m: nat, k: nat, l: nat)
    requires h < 100 && m < 100 && k < 100 && l < 100
    ensures LexLess(StartText(h, m), StartText(k, l)) <==> h < k || (h == k && m < l)
  {
    assert Pow10(2) == 10 * Pow10(1) == 100;
    PadOrder(h, k, 2);
    PadOrder(m, l, 2);
    LexLessSplit(Pad(h, 2) + [':'], Pad(k, 2) + [':'], Pad(m, 2), Pad(l, 2));
    LexLessSplit(Pad(h, 2), Pad(k, 2), [':'], [':']);
    LexLessIrreflexive([':']);
  }

  lemma BeforeIsOrdering()
    ensures Ordering(Before)
  {
  }

  // ------------------------------------------------------------------ the rows

  datatype EventStatus = Scheduled | Cancelled

  datatype EventRow = EventRow(externalId: string, courseName: string, program: string, batch: Option<string>,
                               kind: Kind, day: int, index: nat, time: Grid.Slot, room: Option<string>,
                               section: string, status: EventStatus, sheet: string)

  /** The part of an id that tells classes of one program apart. */
  function IdTail(n: Norms, e: EnrolledCourse, index: nat): string {
    BatchPart(e) + [':'] + (n.section(e.section) + [':'] + (n.course(e.name) + [':'] + IntText(index)))
  }

  function BatchPart(e: EnrolledCourse): string {
    if e.batch.Some? && e.batch.value != "" then e.batch.value else "REPEAT"
  }

  function ExternalId(n: Norms, program: string, e: EnrolledCourse, index: nat): string {
    program + [':'] + IdTail(n, e, index)
  }

  /** The row of the index-th class of a group; the id is made from the group's first course. */
  function RowOf(n: Norms, program: string, first: EnrolledCourse, x: Entry, index: nat): EventRow {
    var c := x.seen.cell;
    EventRow(ExternalId(n, program, first, index), first.name, program, first.batch, first.kind, c.day, index, c.time,
             c.room, first.section, if c.cancelled then Cancelled else Scheduled, x.seen.sheet)
  }

  function GroupRows(n: Norms, program: string, sorted: seq<Entry>): (rows: seq<EventRow>)
    ensures |rows| == |sorted|
    ensures forall i :: 0 <= i < |sorted| ==> rows[i] == RowOf(n, program, sorted[0].enrolled, sorted[i], i)
  {
    seq(|sorted|, i requires 0 <= i < |sorted| => RowOf(n, program, sorted[0].enrolled, sorted[i], i))
  }

  function WantedOf(n: Norms, program: string, entries: seq<Entry>, key: GroupKey): seq<EventRow> {
    GroupRows(n, program, Sort(Group(entries, key), Before))
  }

  function WantedOver(n: Norms, program: string, entries: seq<Entry>, keys: seq<GroupKey>): seq<EventRow> {
    if keys == [] then []
    else WantedOver(n, program, entries, keys[..|keys| - 1]) + WantedOf(n, program, entries, keys[|keys| - 1])
  }

  /** The rows a scrape calls for. */
  function Wanted(n: Norms, program: string, entries: seq<Entry>): seq<EventRow> {
    WantedOver(n, program, entries, Keys(entries))
  }

  // ------------------------------------------------------------ writing the rows

  function Position(rows: seq<EventRow>, id: string): (k: nat)
    ensures k <= |rows| && (k < |rows| ==> rows[k].externalId == id)
    ensures forall i :: 0 <= i < k ==> rows[i].externalId != id
  {
    if rows == [] || rows[0].externalId == id then 0 else 1 + Position(rows[1..], id)
  }

  predicate SameTracked(a: EventRow, b: EventRow) {
    a.day == b.day && a.time == b.time && a.room == b.room && a.section == b.section && a.status == b.status
  }

  datatype Stored = Stored(rows: seq<EventRow>, created: nat, updated: nat, same: nat)

  function Upsert(s: Stored, row: EventRow): Stored {
    var k := Position(s.rows, row.externalId);
    if k == |s.rows| then s.(rows := s.rows + [row], created := s.created + 1)
    else if SameTracked(s.rows[k], row) then s.(rows := s.rows[k := row], same := s.same + 1)
    else s.(rows := s.rows[k := row], updated := s.updated + 1)
  }

  function UpsertAll(s: Stored, wanted: seq<EventRow>): Stored {
    if wanted == [] then s else Upsert(UpsertAll(s, wanted[..|wanted| - 1]), wanted[|wanted| - 1])
  }

  function Ids(rows: seq<EventRow>): set<string> {
    set x | x in rows :: x.externalId
  }

  predicate Missing(row: EventRow, seen: set<string>) {
    row.status == Scheduled && row.externalId !in seen
  }

  function CancelledIf(row: EventRow, seen: set<string>): EventRow {
    if Missing(row, seen) then row.(status := Cancelled) else row
  }

  function CancelMissing(rows: seq<EventRow>, seen: set<string>): (r: seq<EventRow>)
    ensures |r| == |rows| && forall i :: 0 <= i < |rows| ==> r[i] == CancelledIf(rows[i], seen)
  {
    seq(|rows|, i requires 0 <= i < |rows| => CancelledIf(rows[i], seen))
  }

  function MissingCount(rows: seq<EventRow>, seen: set<string>): nat {
    if rows == [] then 0
    else MissingCount(rows[..|rows| - 1], seen) + if Missing(rows[|rows| - 1], seen) then 1 else 0
  }

  function Reconciled(rows: seq<EventRow>, wanted: seq<EventRow>): seq<EventRow> {
    CancelMissing(UpsertAll(Stored(rows, 0, 0, 0), wanted).rows, Ids(wanted))
  }

  // ------------------------------------------------------------- convergence

  /** The unique column. */
  predicate DistinctIds(rows: seq<EventRow>) {
    forall i, j :: 0 <= i < j < |rows| ==> rows[i].externalId != rows[j].externalId
  }

  lemma UpsertRows(s: Stored, row: EventRow)
    requires DistinctIds(s.rows)
    ensures DistinctIds(Upsert(s, row).rows)
    ensures forall x :: x in Upsert(s, row).rows <==> x == row || (x in s.rows && x.externalId != row.externalId)
  {
    RowPlaced(s.rows, Upsert(s, row).rows, Position(s.rows, row.externalId), row);
  }

  /** Rows that are the same but for one place, which holds the only row with its id. */
  lemma RowPlaced(rows: seq<EventRow>, after: seq<EventRow>, k: nat, row: EventRow)
    requires DistinctIds(rows) && k <= |rows| && after == if k < |rows| then rows[k := row] else rows + [row]
    requires forall i :: 0 <= i < |rows| && i != k ==> rows[i].externalId != row.externalId
    requires k < |rows| ==> rows[k].externalId == row.externalId
    ensures DistinctIds(after)
    ensures forall x :: x in after <==> x == row || (x in rows && x.externalId != row.externalId)
  {
    forall x | x in after ensures x == row || (x in rows && x.externalId != row.externalId) {
      var i :| 0 <= i < |after| && after[i] == x;
      if i != k { assert after[i] == rows[i]; }
    }
    forall x | x in rows && x.externalId != row.externalId ensures x in after {
      var i :| 0 <= i < |rows| && rows[i] == x;
      assert after[i] == x;
    }
    assert after[k] == row;
  }

  lemma {:induction false} UpsertAllRows(s: Stored, wanted: seq<EventRow>)
    requires DistinctIds(s.rows) && DistinctIds(wanted)
    ensures DistinctIds(UpsertAll(s, wanted).rows)
    ensures forall x :: x in UpsertAll(s, wanted).rows <==> x in wanted || (x in s.rows && x.externalId !in Ids(wanted))
  {
    if wanted != [] {
      var front, last := wanted[..|wanted| - 1], wanted[|wanted| - 1];
      UpsertAllRows(s, front);
      UpsertRows(UpsertAll(s, front), last);
      assert wanted == front + [last];
      assert last.externalId !in Ids(front);
      assert Ids(wanted) == Ids(front) + {last.externalId};
    }
  }

  /** Cancelling keeps every row in its place. */
  lemma CancelMissingRows(mid: seq<EventRow>, ids: set<string>)
    ensures var after := CancelMissing(mid, ids);
      && (DistinctIds(mid) ==> DistinctIds(after))
      && (forall x :: x in mid ==> CancelledIf(x, ids) in after)
      && (forall x :: x in after ==> exists y :: y in mid && x == CancelledIf(y, ids))
  {
    var after := CancelMissing(mid, ids);
    forall x | x in mid ensures CancelledIf(x, ids) in after {
      var i :| 0 <= i < |mid| && mid[i] == x;
      assert after[i] == CancelledIf(x, ids);
    }
    forall x | x in after ensures exists y :: y in mid && x == CancelledIf(y, ids) {
      var i :| 0 <= i < |after| && after[i] == x;
      assert mid[i] in mid && x == CancelledIf(mid[i], ids);
    }
  }

  /** Whatever was stored before, a sound scrape leaves exactly its own rows scheduled: every row it calls for is
      stored as called for, every other stored row is kept but cancelled, and no other row appears. */
  lemma SyncConverges(rows: seq<EventRow>, wanted: seq<EventRow>)
    requires DistinctIds(rows) && DistinctIds(wanted)
    ensures DistinctIds(Reconciled(rows, wanted))
    ensures forall x :: x in wanted ==> x in Reconciled(rows, wanted)
    ensures forall x :: x in Reconciled(rows, wanted) && x.status == Scheduled ==> x in wanted
    ensures forall x :: x in rows && x.externalId !in Ids(wanted) ==>
              x.(status := Cancelled) in Reconciled(rows, wanted)
    ensures forall x :: x in Reconciled(rows, wanted) ==>
              x in wanted || exists y :: y in rows && y.externalId !in Ids(wanted) && x == y.(status := Cancelled)
  {
    var mid, after := UpsertAll(Stored(rows, 0, 0, 0), wanted).rows, Reconciled(rows, wanted);
    UpsertAllRows(Stored(rows, 0, 0, 0), wanted);
    CancelMissingRows(mid, Ids(wanted));
    forall x | x in wanted ensures x in after {
      assert x.externalId in Ids(wanted) && x in mid;
    }
    forall x | x in rows && x.externalId !in Ids(wanted) ensures x.(status := Cancelled) in after { assert x in mid; }
    forall x | x in after
      ensures x in wanted || exists y :: y in rows && y.externalId !in Ids(wanted) && x == y.(status := Cancelled)
    {
      var y :| y in mid && x == CancelledIf(y, Ids(wanted));
      if y in wanted { assert y.externalId in Ids(wanted); }
    }
  }

  lemma UpsertSame(s: Stored, row: EventRow)
    requires DistinctIds(s.rows) && row in s.rows
    ensures Upsert(s, row) == s.(same := s.same + 1)
  {
    var i :| 0 <= i < |s.rows| && s.rows[i] == row;
    var k := Position(s.rows, row.externalId);
    assert k == i;
    assert s.rows[k := row] == s.rows;
  }

  lemma {:induction false} UpsertAllSame(s: Stored, wanted: seq<EventRow>)
    requires DistinctIds(s.rows) && forall x :: x in wanted ==> x in s.rows
    ensures UpsertAll(s, wanted) == s.(same := s.same + |wanted|)
  {
    if wanted != [] {
      UpsertAllSame(s, wanted[..|wanted| - 1]);
      UpsertSame(UpsertAll(s, wanted[..|wanted| - 1]), wanted[|wanted| - 1]);
    }
  }

  lemma {:induction false} NoneMissing(rows: seq<EventRow>, seen: set<string>)
    requires forall x :: x in rows ==> !Missing(x, seen)
    ensures MissingCount(rows, seen) == 0 && CancelMissing(rows, seen) == rows
  {
    if rows != [] {
      assert forall x :: x in rows[..|rows| - 1] ==> x in rows;
      NoneMissing(rows[..|rows| - 1], seen);
      assert rows[|rows| - 1] in rows;
      forall i | 0 <= i < |rows| ensures CancelMissing(rows, seen)[i] == rows[i] { assert rows[i] in rows; }
    }
  }

  /** A repeat of the same scrape reports only unchanged classes, cancels none and leaves every row as it is. */
  lemma RepeatIsUnchanged(rows: seq<EventRow>, wanted: seq<EventRow>)
    requires DistinctIds(rows) && DistinctIds(wanted)
    ensures var after := Reconciled(rows, wanted);
      && UpsertAll(Stored(after, 0, 0, 0), wanted) == Stored(after, 0, 0, |wanted|)
      && MissingCount(after, Ids(wanted)) == 0 && Reconciled(after, wanted) == after
  {
    var after := Reconciled(rows, wanted);
    SyncConverges(rows, wanted);
    UpsertAllSame(Stored(after, 0, 0, 0), wanted);
    forall x | x in after ensures !Missing(x, Ids(wanted)) {
      if x in wanted { assert x.externalId in Ids(wanted); }
    }
    NoneMissing(after, Ids(wanted));
  }

  // ------------------------------------------------------------- distinct ids

  predicate ColonFree(n: Norms, e: EnrolledCourse) {
    Without(BatchPart(e), ':') && Without(n.section(e.section), ':') && Without(n.course(e.name), ':')
  }

  /** Enrollments without colons, no two alike after normalisation. */
  predicate ProperEnrollment(n: Norms, enrollment: seq<EnrolledCourse>) {
    && (forall i :: 0 <= i < |enrollment| ==> ColonFree(n, enrollment[i]))
    && (forall i, j :: 0 <= i < j < |enrollment| ==>
          n.section(enrollment[i].section) != n.section(enrollment[j].section)
          || n.course(enrollment[i].name) != n.course(enrollment[j].name))
  }

  lemma IdTailParts(n: Norms, e: EnrolledCourse, index: nat)
    requires ColonFree(n, e)
    ensures SplitOn(IdTail(n, e, index), ':') == [BatchPart(e), n.section(e.section), n.course(e.name), IntText(index)]
  {
    var number := IntText(index);
    var named := n.course(e.name) + [':'] + number;
    SplitOnHead(BatchPart(e), ':', n.section(e.section) + [':'] + named);
    SplitOnHead(n.section(e.section), ':', named);
    SplitOnHead(n.course(e.name), ':', number);
    SplitOnNone(number, ':');
  }

  /** Two ids of one program agree only for the same normalised course, section and index. */
  lemma ExternalIdInjective(n: Norms, program: string, d: EnrolledCourse, i: nat, e: EnrolledCourse, j: nat)
    requires ColonFree(n, d) && ColonFree(n, e)
    requires ExternalId(n, program, d, i) == ExternalId(n, program, e, j)
    ensures i == j && n.section(d.section) == n.section(e.section) && n.course(d.name) == n.course(e.name)
  {
    var a, b := ExternalId(n, program, d, i), ExternalId(n, program, e, j);
    assert a[|program| + 1..] == IdTail(n, d, i) && b[|program| + 1..] == IdTail(n, e, j);
    IdTailParts(n, d, i);
    IdTailParts(n, e, j);
    var p, q := SplitOn(IdTail(n, d, i), ':'), SplitOn(IdTail(n, e, j), ':');
    assert p[1] == q[1] && p[2] == q[2] && p[3] == q[3];
    NumberOfIntText(i);
    NumberOfIntText(j);
  }

  lemma {:induction false} EntriesEnrolled(n: Norms, enrollment: seq<EnrolledCourse>, seen: seq<Sighting>, x: Entry)
    requires x in Entries(n, enrollment, seen)
    ensures x.enrolled in enrollment
  {
    var last := seen[|seen| - 1];
    if x in Entries(n, enrollment, seen[..|seen| - 1]) {
      EntriesEnrolled(n, enrollment, seen[..|seen| - 1], x);
    } else {
      CandidateIsEnrolled(n, last.cell, enrollment, x.enrolled);
    }
  }

  lemma {:induction false} CandidateIsEnrolled(n: Norms, cell: Grid.ExtractedClass, enrollment: seq<EnrolledCourse>,
                                               e: EnrolledCourse)
    requires e in Candidates(n, cell, enrollment)
    ensures e in enrollment
  {
    if e != enrollment[0] { CandidateIsEnrolled(n, cell, enrollment[1..], e); }
  }

  lemma {:induction false} GroupMembers(entries: seq<Entry>, key: GroupKey, x: Entry)
    ensures multiset(Group(entries, key))[x] == if KeyOf(x) == key then multiset(entries)[x] else 0
    ensures x in Group(entries, key) <==> x in entries && KeyOf(x) == key
  {
    if entries != [] {
      var front, last := entries[..|entries| - 1], entries[|entries| - 1];
      GroupMembers(front, key, x);
      assert entries == front + [last];
    }
  }

  /** Every row of a group carries an id made from one enrolled course and its own index. */
  predicate RowFrom(n: Norms, program: string, entries: seq<Entry>, key: GroupKey, i: nat, x: EventRow) {
    var sorted := Sort(Group(entries, key), Before);
    i < |sorted| && x == RowOf(n, program, sorted[0].enrolled, sorted[i], i)
  }

  lemma FirstOfGroup(entries: seq<Entry>, key: GroupKey)
    requires |Sort(Group(entries, key), Before)| > 0
    ensures var first := Sort(Group(entries, key), Before)[0]; first in entries && KeyOf(first) == key
  {
    var sorted := Sort(Group(entries, key), Before);
    SortPermutes(Group(entries, key), Before);
    assert sorted[0] in sorted;
    GroupMembers(entries, key, sorted[0]);
  }

  lemma RowsFromAreDistinct(n: Norms, program: string, enrollment: seq<EnrolledCourse>, entries: seq<Entry>,
                            k: GroupKey, i: nat, x: EventRow, l: GroupKey, j: nat, y: EventRow)
    requires ProperEnrollment(n, enrollment) && forall e :: e in entries ==> e.enrolled in enrollment
    requires RowFrom(n, program, entries, k, i, x) && RowFrom(n, program, entries, l, j, y)
    requires x.externalId == y.externalId
    ensures k == l && i == j
  {
    FirstOfGroup(entries, k);
    FirstOfGroup(entries, l);
    var d, e := Sort(Group(entries, k), Before)[0].enrolled, Sort(Group(entries, l), Before)[0].enrolled;
    var a :| 0 <= a < |enrollment| && enrollment[a] == d;
    var b :| 0 <= b < |enrollment| && enrollment[b] == e;
    ExternalIdInjective(n, program, d, i, e, j);
    assert a == b;
  }

  predicate HasKey(entries: seq<Entry>, key: GroupKey) {
    exists i :: 0 <= i < |entries| && KeyOf(entries[i]) == key
  }

  lemma {:induction false} KeysAre(entries: seq<Entry>)
    ensures NoDuplicates(Keys(entries))
    ensures forall k :: k in Keys(entries) <==> HasKey(entries, k)
  {
    if entries != [] {
      var front, last := entries[..|entries| - 1], entries[|entries| - 1];
      KeysAre(front);
      forall k ensures HasKey(entries, k) <==> KeyOf(last) == k || HasKey(front, k) {
        if i :| 0 <= i < |front| && KeyOf(front[i]) == k { assert KeyOf(entries[i]) == k; }
        if KeyOf(last) == k { assert KeyOf(entries[|entries| - 1]) == k; }
      }
    }
  }

  lemma {:induction false} WantedRowComesFrom(n: Norms, program: string, entries: seq<Entry>, keys: seq<GroupKey>,
                                              x: EventRow)
    returns (k: GroupKey, i: nat)
    requires x in WantedOver(n, program, entries, keys)
    ensures k in keys && RowFrom(n, program, entries, k, i, x)
  {
    var front, last := keys[..|keys| - 1], keys[|keys| - 1];
    if x in WantedOver(n, program, entries, front) {
      k, i := WantedRowComesFrom(n, program, entries, front, x);
    } else {
      var rows := WantedOf(n, program, entries, last);
      k := last;
      i :| 0 <= i < |rows| && rows[i] == x;
    }
  }

  lemma {:induction false} RowFromIsWanted(n: Norms, program: string, entries: seq<Entry>, keys: seq<GroupKey>,
                                           x: EventRow, k: GroupKey, i: nat)
    requires k in keys && RowFrom(n, program, entries, k, i, x)
    ensures x in WantedOver(n, program, entries, keys)
  {
    var front, last := keys[..|keys| - 1], keys[|keys| - 1];
    if k == last {
      assert WantedOf(n, program, entries, last)[i] == x;
    } else {
      RowFromIsWanted(n, program, entries, front, x, k, i);
    }
  }

  lemma JoinDistinct(xs: seq<EventRow>, ys: seq<EventRow>)
    requires DistinctIds(xs) && DistinctIds(ys)
    requires forall x, y :: x in xs && y in ys ==> x.externalId != y.externalId
    ensures DistinctIds(xs + ys)
  {
    forall i, j | 0 <= i < j < |xs + ys| ensures (xs + ys)[i].externalId != (xs + ys)[j].externalId {
      if i < |xs| <= j { assert xs[i] in xs && ys[j - |xs|] in ys; }
    }
  }

  lemma {:induction false} WantedOverDistinct(n: Norms, program: string, enrollment: seq<EnrolledCourse>,
                                              entries: seq<Entry>, keys: seq<GroupKey>)
    requires ProperEnrollment(n, enrollment) && forall e :: e in entries ==> e.enrolled in enrollment
    requires NoDuplicates(keys)
    ensures DistinctIds(WantedOver(n, program, entries, keys))
  {
    if keys != [] {
      var front, last := keys[..|keys| - 1], keys[|keys| - 1];
      WantedOverDistinct(n, program, enrollment, entries, front);
      var xs, ys := WantedOver(n, program, entries, front), WantedOf(n, program, entries, last);
      forall i, j | 0 <= i < j < |ys| ensures ys[i].externalId != ys[j].externalId {
        if ys[i].externalId == ys[j].externalId {
          RowsFromAreDistinct(n, program, enrollment, entries, last, i, ys[i], last, j, ys[j]);
        }
      }
      forall x, y | x in xs && y in ys ensures x.externalId != y.externalId {
        var k, i := WantedRowComesFrom(n, program, entries, front, x);
        var j :| 0 <= j < |ys| && ys[j] == y;
        if x.externalId == y.externalId {
          RowsFromAreDistinct(n, program, enrollment, entries, k, i, x, last, j, y);
        }
      }
      JoinDistinct(xs, ys);
    }
  }

  /** The ids a scrape calls for are pairwise distinct. */
  lemma WantedIdsDistinct(n: Norms, program: string, enrollment: seq<EnrolledCourse>, seen: seq<Sighting>)
    requires ProperEnrollment(n, enrollment)
    ensures DistinctIds(Wanted(n, program, Entries(n, enrollment, seen)))
  {
    var entries := Entries(n, enrollment, seen);
    forall e | e in entries ensures e.enrolled in enrollment { EntriesEnrolled(n, enrollment, seen, e); }
    KeysAre(entries);
    WantedOverDistinct(n, program, enrollment, entries, Keys(entries));
  }

  // --------------------------------------------------------- order independence

  lemma {:induction false} EntriesCount(n: Norms, enrollment: seq<EnrolledCourse>, seen: seq<Sighting>, x: Entry)
    ensures multiset(Entries(n, enrollment, seen))[x]
            == if MatchCell(n, x.seen.cell, enrollment) == One(x.enrolled) then multiset(seen)[x.seen] else 0
  {
    if seen != [] {
      var front, last := seen[..|seen| - 1], seen[|seen| - 1];
      assert seen == front + [last];
      EntriesCount(n, enrollment, front, x);
      var found := EntriesOneMore(n, enrollment, seen);
      CountStep(Entries(n, enrollment, front), Entries(n, enrollment, seen), found, front, last, x,
                MatchCell(n, x.seen.cell, enrollment) == One(x.enrolled));
    }
  }

  lemma EntriesOneMore(n: Norms, enrollment: seq<EnrolledCourse>, seen: seq<Sighting>) returns (found: Match)
    requires seen != []
    ensures found == MatchCell(n, seen[|seen| - 1].cell, enrollment)
    ensures var front, last := Entries(n, enrollment, seen[..|seen| - 1]), seen[|seen| - 1];
      Entries(n, enrollment, seen) == if found.One? then front + [Entry(last, found.enrolled)] else front
  {
    found := MatchCell(n, seen[|seen| - 1].cell, enrollment);
  }

  lemma CountStep(before: seq<Entry>, after: seq<Entry>, found: Match, front: seq<Sighting>, last: Sighting, x: Entry,
                  matches: bool)
    requires after == if found.One? then before + [Entry(last, found.enrolled)] else before
    requires last == x.seen ==> (matches <==> found == One(x.enrolled))
    requires multiset(before)[x] == if matches then multiset(front)[x.seen] else 0
    ensures multiset(after)[x] == if matches then multiset(front + [last])[x.seen] else 0
  {
  }

  /** No two classes of one group start at the same day and time. */
  ghost predicate DistinctStarts(entries: seq<Entry>) {
    forall k :: NoTies(Group(entries, k), Before)
  }

  lemma SameGroupSorted(a: seq<Entry>, b: seq<Entry>, key: GroupKey)
    requires multiset(a) == multiset(b) && NoTies(Group(a, key), Before)
    ensures Sort(Group(a, key), Before) == Sort(Group(b, key), Before)
  {
    var g, h := Group(a, key), Group(b, key);
    forall x ensures multiset(g)[x] == multiset(h)[x] {
      GroupMembers(a, key, x);
      GroupMembers(b, key, x);
    }
    assert multiset(g) == multiset(h);
    SortPermutes(g, Before);
    SortPermutes(h, Before);
    BeforeIsOrdering();
    SortSorts(g, Before);
    SortSorts(h, Before);
    SortedHasNoTies(g);
    SortedUnique(Sort(g, Before), Sort(h, Before), Before);
  }

  lemma SortedHasNoTies(g: seq<Entry>)
    requires NoTies(g, Before)
    ensures NoTies(Sort(g, Before), Before)
  {
    var s := Sort(g, Before);
    SortPermutes(g, Before);
    forall i, j | 0 <= i < |s| && 0 <= j < |s| && !Before(s[i], s[j]) && !Before(s[j], s[i]) ensures s[i] == s[j] {
      assert s[i] in g && s[j] in g;
      var k :| 0 <= k < |g| && g[k] == s[i];
      var l :| 0 <= l < |g| && g[l] == s[j];
    }
  }

  lemma WantedCarriesOver(n: Norms, program: string, a: seq<Entry>, b: seq<Entry>, x: EventRow)
    requires multiset(a) == multiset(b) && DistinctStarts(a)
    requires x in Wanted(n, program, a)
    ensures x in Wanted(n, program, b)
  {
    var k, i := WantedRowComesFrom(n, program, a, Keys(a), x);
    SameGroupSorted(a, b, k);
    KeysAre(a);
    KeysAre(b);
    var p :| 0 <= p < |a| && KeyOf(a[p]) == k;
    assert a[p] in multiset(b);
    var q :| 0 <= q < |b| && b[q] == a[p];
    RowFromIsWanted(n, program, b, Keys(b), x, k, i);
  }

  lemma StartsCarryOver(a: seq<Entry>, b: seq<Entry>)
    requires multiset(a) == multiset(b) && DistinctStarts(a)
    ensures DistinctStarts(b)
  {
    forall k ensures NoTies(Group(b, k), Before) {
      var g, h := Group(a, k), Group(b, k);
      forall i, j | 0 <= i < |h| && 0 <= j < |h| && !Before(h[i], h[j]) && !Before(h[j], h[i]) ensures h[i] == h[j] {
        assert h[i] in h && h[j] in h;
        GroupMembers(b, k, h[i]);
        GroupMembers(b, k, h[j]);
        assert h[i] in multiset(a) && h[j] in multiset(a);
        GroupMembers(a, k, h[i]);
        GroupMembers(a, k, h[j]);
        var p :| 0 <= p < |g| && g[p] == h[i];
        var q :| 0 <= q < |g| && g[q] == h[j];
      }
    }
  }

  /** Which meeting gets which id does not depend on the order the cells were scraped in, when no two classes of one
      course start at the same day and time. */
  lemma OrderDoesNotMatter(n: Norms, program: string, enrollment: seq<EnrolledCourse>, seen: seq<Sighting>,
                           again: seq<Sighting>)
    requires multiset(seen) == multiset(again) && DistinctStarts(Entries(n, enrollment, seen))
    ensures forall x :: x in Wanted(n, program, Entries(n, enrollment, seen)) <==>
                        x in Wanted(n, program, Entries(n, enrollment, again))
  {
    var a, b := Entries(n, enrollment, seen), Entries(n, enrollment, again);
    forall x ensures multiset(a)[x] == multiset(b)[x] {
      EntriesCount(n, enrollment, seen, x);
      EntriesCount(n, enrollment, again, x);
    }
    assert multiset(a) == multiset(b);
    StartsCarryOver(a, b);
    forall x | x in Wanted(n, program, a) ensures x in Wanted(n, program, b) { WantedCarriesOver(n, program, a, b, x); }
    forall x | x in Wanted(n, program, b) ensures x in Wanted(n, program, a) { WantedCarriesOver(n, program, b, a, x); }
  }

  // ------------------------------------------------------------------ the scrape

  /** One weekday tab: its values, or None when it could not be read. */
  datatype Tab = Tab(day: int, sheet: string, grid: Option<seq<seq<string>>>)

  /** A scrape is sound when tabs were discovered, at least one, and every one was read. */
  predicate SoundScrape(scrape: Option<seq<Tab>>) {
    scrape.Some? && scrape.value != [] && forall i :: 0 <= i < |scrape.value| ==> scrape.value[i].grid.Some?
  }

  function SightingsOn(sheet: string, cells: seq<Grid.ExtractedClass>): (seen: seq<Sighting>)
    ensures |seen| == |cells|
    ensures forall i :: 0 <= i < |cells| ==> seen[i] == Sighting(sheet, cells[i])
  {
    seq(|cells|, i requires 0 <= i < |cells| => Sighting(sheet, cells[i]))
  }

  function Sightings(p: Grid.Patterns, tabs: seq<Tab>): seq<Sighting>
    requires forall i :: 0 <= i < |tabs| ==> tabs[i].grid.Some?
  {
    if tabs == [] then []
    else
      var last := tabs[|tabs| - 1];
      Sightings(p, tabs[..|tabs| - 1]) + SightingsOn(last.sheet, Grid.Meetings(p, last.grid.value, last.day))
  }

  function AmbiguousCount(n: Norms, enrollment: seq<EnrolledCourse>, seen: seq<Sighting>): nat {
    if seen == [] then 0
    else
      AmbiguousCount(n, enrollment, seen[..|seen| - 1])
      + if MatchCell(n, seen[|seen| - 1].cell, enrollment).Several? then 1 else 0
  }

  datatype Summary = Summary(found: nat, created: nat, updated: nat, same: nat, cancelled: nat, ambiguous: nat)

  /** The reports of a sync over given rows, wanted rows and ambiguous cells. */
  function Report(rows: seq<EventRow>, wanted: seq<EventRow>, ambiguous: nat): Summary {
    var s := UpsertAll(Stored(rows, 0, 0, 0), wanted);
    Summary(|wanted|, s.created, s.updated, s.same, MissingCount(s.rows, Ids(wanted)), ambiguous)
  }

  /** A sound scrape, from the tabs to the rows it calls for. */
  function Scraped(p: Grid.Patterns, n: Norms, program: string, enrollment: seq<EnrolledCourse>,
                   scrape: Option<seq<Tab>>)
    : seq<EventRow>
    requires SoundScrape(scrape)
  {
    Wanted(n, program, Entries(n, enrollment, Sightings(p, scrape.value)))
  }

  lemma SightingsOneMore(p: Grid.Patterns, tabs: seq<Tab>, i: nat)
    requires i < |tabs| && forall k :: 0 <= k <= i ==> tabs[k].grid.Some?
    ensures Sightings(p, tabs[..i + 1])
            == Sightings(p, tabs[..i]) + SightingsOn(tabs[i].sheet, Grid.Meetings(p, tabs[i].grid.value, tabs[i].day))
  {
    assert tabs[..i + 1][..i] == tabs[..i];
  }

  method ReadTabs(p: Grid.Patterns, scrape: Option<seq<Tab>>) returns (seen: Option<seq<Sighting>>)
    requires p.Sensible()
    ensures seen.Some? <==> SoundScrape(scrape)
    ensures seen.Some? ==> seen.value == Sightings(p, scrape.value)
  {
    if scrape.None? || scrape.value == [] { return None; }
    var tabs := scrape.value;
    var all: seq<Sighting> := [];
    for i := 0 to |tabs|
      invariant forall k :: 0 <= k < i ==> tabs[k].grid.Some?
      invariant all == Sightings(p, tabs[..i])
    {
      if tabs[i].grid.None? { return None; }
      var cells := Grid.ExtractClassesFromGrid(p, tabs[i].grid.value, tabs[i].day);
      SightingsOneMore(p, tabs, i);
      all := all + SightingsOn(tabs[i].sheet, cells);
    }
    assert tabs[..|tabs|] == tabs;
    return Some(all);
  }

  /** A dictionary that remembers the order its keys were first set in. */
  datatype Groups = Groups(order: seq<GroupKey>, members: map<GroupKey, seq<Entry>>)

  ghost predicate Grouping(g: Groups, entries: seq<Entry>) {
    && g.order == Keys(entries)
    && (forall k :: k in g.members <==> k in g.order)
    && (forall k :: k in g.members ==> g.members[k] == Group(entries, k))
    && (forall k :: k !in g.members ==> Group(entries, k) == [])
  }

  lemma GroupingGrows(g: Groups, entries: seq<Entry>, x: Entry)
    requires Grouping(g, entries)
    ensures var key := KeyOf(x);
      && (key in g.members ==> Grouping(g.(members := g.members[key := g.members[key] + [x]]), entries + [x]))
      && (key !in g.members ==> Grouping(Groups(g.order + [key], g.members[key := [x]]), entries + [x]))
  {
    assert (entries + [x])[..|entries|] == entries;
    forall k ensures Group(entries + [x], k) == if KeyOf(x) == k then Group(entries, k) + [x] else Group(entries, k) {}
  }

  method GroupMatches(n: Norms, enrollment: seq<EnrolledCourse>, seen: seq<Sighting>)
    returns (groups: Groups, ambiguous: nat)
    ensures Grouping(groups, Entries(n, enrollment, seen))
    ensures ambiguous == AmbiguousCount(n, enrollment, seen)
  {
    groups, ambiguous := Groups([], map[]), 0;
    for i := 0 to |seen|
      invariant Grouping(groups, Entries(n, enrollment, seen[..i]))
      invariant ambiguous == AmbiguousCount(n, enrollment, seen[..i])
    {
      assert seen[..i + 1][..i] == seen[..i];
      match MatchCell(n, seen[i].cell, enrollment) {
        case Nobody =>
        case Several(_) =>
          ambiguous := ambiguous + 1;
        case One(enrolled) =>
          var x := Entry(seen[i], enrolled);
          GroupingGrows(groups, Entries(n, enrollment, seen[..i]), x);
          var key := KeyOf(x);
          if key in groups.members {
            groups := groups.(members := groups.members[key := groups.members[key] + [x]]);
          } else {
            groups := Groups(groups.order + [key], groups.members[key := [x]]);
          }
      }
    }
    assert seen[..|seen|] == seen;
  }

  // --------------------------------------------------------- the stored classes

  lemma UpsertOneMore(s: Stored, wanted: seq<EventRow>, row: EventRow)
    ensures UpsertAll(s, wanted + [row]) == Upsert(UpsertAll(s, wanted), row)
  {
    assert (wanted + [row])[..|wanted|] == wanted;
  }

  lemma IdsOneMore(s: Stored, group: seq<EventRow>, i: nat, row: EventRow)
    requires i < |group| && group[i] == row
    ensures UpsertAll(s, group[..i + 1]) == Upsert(UpsertAll(s, group[..i]), row)
    ensures Ids(group[..i + 1]) == Ids(group[..i]) + {row.externalId}
  {
    assert group[..i + 1] == group[..i] + [row];
    UpsertOneMore(s, group[..i], row);
  }

  /** One group more. */
  lemma GroupAdds(n: Norms, program: string, entries: seq<Entry>, keys: seq<GroupKey>, j: nat, s: Stored)
    requires j < |keys|
    ensures
      var before, group := WantedOver(n, program, entries, keys[..j]), WantedOf(n, program, entries, keys[j]);
      var more := WantedOver(n, program, entries, keys[..j + 1]);
      && UpsertAll(s, more) == UpsertAll(UpsertAll(s, before), group)
      && Ids(more) == Ids(before) + Ids(group) && |more| == |before| + |group|
  {
    assert keys[..j + 1][..j] == keys[..j];
    UpsertAllInParts(s, WantedOver(n, program, entries, keys[..j]), WantedOf(n, program, entries, keys[j]));
  }

  lemma {:induction false} UpsertAllInParts(s: Stored, before: seq<EventRow>, group: seq<EventRow>)
    ensures UpsertAll(s, before + group) == UpsertAll(UpsertAll(s, before), group)
  {
    if group == [] {
      assert before + group == before;
    } else {
      var front, last := group[..|group| - 1], group[|group| - 1];
      UpsertAllInParts(s, before, front);
      assert before + group == (before + front) + [last];
      UpsertOneMore(s, before + front, last);
    }
  }

  class TimetableEvents {
    var rows: seq<EventRow>

    constructor ()
      ensures rows == []
    {
      rows := [];
    }

    /** upsert_timetable_event. */
    method UpsertTimetableEvent(row: EventRow) returns (created: bool, changed: bool)
      modifies this
      ensures var k := Position(old(rows), row.externalId);
        && (created <==> k == |old(rows)|)
        && (changed <==> !created && !SameTracked(old(rows)[k], row))
        && rows == if created then old(rows) + [row] else old(rows)[k := row]
    {
      var k := Position(rows, row.externalId);
      created := k == |rows|;
      if created {
        rows, changed := rows + [row], false;
      } else {
        changed := !SameTracked(rows[k], row);
        rows := rows[k := row];
      }
    }

    /** cancel_timetable_events_missing_from_source. */
    method CancelMissingFromSource(seen: set<string>) returns (cancelled: nat)
      modifies this
      ensures rows == CancelMissing(old(rows), seen)
      ensures cancelled == MissingCount(old(rows), seen)
    {
      cancelled := 0;
      ghost var start := rows;
      for i := 0 to |rows|
        invariant |rows| == |start|
        invariant forall k :: 0 <= k < |start| ==> rows[k] == if k < i then CancelledIf(start[k], seen) else start[k]
        invariant cancelled == MissingCount(start[..i], seen)
      {
        assert start[..i + 1][..i] == start[..i];
        if rows[i].status != Cancelled && rows[i].externalId !in seen {
          rows := rows[i := rows[i].(status := Cancelled)];
          cancelled := cancelled + 1;
        }
      }
      assert start[..|start|] == start;
    }

    /** One row, counted as created, updated or unchanged. */
    method StoreRow(row: EventRow, s: Stored) returns (after: Stored)
      requires rows == s.rows
      modifies this
      ensures after == Upsert(s, row) && rows == after.rows
    {
      var created, changed := UpsertTimetableEvent(row);
      after := Stored(rows, s.created + if created then 1 else 0, s.updated + if changed then 1 else 0,
                      s.same + if created || changed then 0 else 1);
    }

    /** The rows of one group, in the order of its days and start times. */
    method StoreGroup(n: Norms, program: string, entries: seq<Entry>, s: Stored)
        returns (after: Stored, ids: set<string>)
      requires rows == s.rows
      modifies this
      ensures var group := GroupRows(n, program, Sort(entries, Before));
        after == UpsertAll(s, group) && ids == Ids(group) && |group| == |entries|
      ensures rows == after.rows
    {
      var sorted := Sort(entries, Before);
      SortPermutes(entries, Before);
      ghost var group := GroupRows(n, program, sorted);
      after, ids := s, {};
      for i := 0 to |sorted|
        invariant rows == after.rows && after == UpsertAll(s, group[..i])
        invariant ids == Ids(group[..i])
      {
        var row := RowOf(n, program, sorted[0].enrolled, sorted[i], i);
        IdsOneMore(s, group, i, row);
        after := StoreRow(row, after);
        ids := ids + {row.externalId};
      }
      assert group[..|sorted|] == group;
    }

    /** sync_timetable: nothing is written unless the whole scrape is sound. */
    method SyncTimetable(p: Grid.Patterns, n: Norms, program: string, enrollment: seq<EnrolledCourse>,
                         scrape: Option<seq<Tab>>)
      returns (summary: Option<Summary>)
      requires p.Sensible()
      modifies this
      ensures summary.Some? <==> SoundScrape(scrape)
      ensures summary.None? ==> rows == old(rows)
      ensures summary.Some? ==>
        && rows == Reconciled(old(rows), Scraped(p, n, program, enrollment, scrape))
        && summary.value == Report(old(rows), Scraped(p, n, program, enrollment, scrape),
                                   AmbiguousCount(n, enrollment, Sightings(p, scrape.value)))
    {
      var read := ReadTabs(p, scrape);
      if read.None? { return None; }
      var groups, ambiguous := GroupMatches(n, enrollment, read.value);
      ghost var entries := Entries(n, enrollment, read.value);
      ghost var s0 := Stored(rows, 0, 0, 0);
      var keys := groups.order;
      var s, ids, found := Stored(rows, 0, 0, 0), {}, 0;
      for j := 0 to |keys|
        invariant rows == s.rows
        invariant s == UpsertAll(s0, WantedOver(n, program, entries, keys[..j]))
        invariant ids == Ids(WantedOver(n, program, entries, keys[..j]))
        invariant found == |WantedOver(n, program, entries, keys[..j])|
      {
        GroupAdds(n, program, entries, keys, j, s0);
        var members := groups.members[keys[j]];
        var groupIds;
        s, groupIds := StoreGroup(n, program, members, s);
        ids, found := ids + groupIds, found + |members|;
      }
      assert keys[..|keys|] == keys;
      var cancelled := CancelMissingFromSource(ids);
      return Some(Summary(found, s.created, s.updated, s.same, cancelled, ambiguous));
    }
  }

  /** A whole sync, from the sheets: afterwards the scheduled rows are exactly the scheduled classes of the scrape,
      and a second sync of the same sheets creates, updates and cancels nothing and keeps every row. */
  lemma SheetsDecideTimetable(p: Grid.Patterns, n: Norms, program: string, enrollment: seq<EnrolledCourse>,
                              scrape: Option<seq<Tab>>, rows: seq<EventRow>, ambiguous: nat)
    requires SoundScrape(scrape) && ProperEnrollment(n, enrollment) && DistinctIds(rows)
    ensures var wanted := Scraped(p, n, program, enrollment, scrape);
            var after := Reconciled(rows, wanted);
      && DistinctIds(after)
      && (forall x :: x in after && x.status == Scheduled <==> x in wanted && x.status == Scheduled)
      && Reconciled(after, wanted) == after
      && Report(after, wanted, ambiguous) == Summary(|wanted|, 0, 0, |wanted|, 0, ambiguous)
  {
    WantedIdsDistinct(n, program, enrollment, Sightings(p, scrape.value));
    SyncConverges(rows, Scraped(p, n, program, enrollment, scrape));
    RepeatIsUnchanged(rows, Scraped(p, n, program, enrollment, scrape));
  }
}
