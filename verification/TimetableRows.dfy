/** What the stored timetable shows, cell by cell of the sheets (ragra/sync/timetable_sync.py). */
module TimetableRows {
  import opened Text
  import opened Sorting
  import opened Enrollment
  import opened TimetableSync
  import Grid

  // ------------------------------------------------------------------ counting

  function CountIf<T>(xs: seq<T>, p: T -> bool): nat {
    if xs == [] then 0 else CountIf(xs[..|xs| - 1], p) + if p(xs[|xs| - 1]) then 1 else 0
  }

  lemma {:induction false} CountIfConcat<T>(a: seq<T>, b: seq<T>, p: T -> bool)
    ensures CountIf(a + b, p) == CountIf(a, p) + CountIf(b, p)
  {
    if b == [] {
      assert a + b == a;
    } else {
      var front := b[..|b| - 1];
      assert (a + b)[..|a + b| - 1] == a + front;
      CountIfConcat(a, front, p);
    }
  }

  /** The order does not matter. */
  lemma {:induction false} CountIfPermutes<T>(a: seq<T>, b: seq<T>, p: T -> bool)
    requires multiset(a) == multiset(b)
    ensures CountIf(a, p) == CountIf(b, p)
  {
    if a == [] {
      assert |b| == |multiset(b)| == |multiset(a)| == 0;
    } else {
      var front, last := a[..|a| - 1], a[|a| - 1];
      assert a == front + [last];
      assert last in multiset(b);
      var j :| 0 <= j < |b| && b[j] == last;
      var rest := b[..j] + b[j + 1..];
      assert b == b[..j] + [last] + b[j + 1..];
      RemoveOne(front, last, b, j);
      CountIfPermutes(front, rest, p);
      CountIfConcat(b[..j], [last], p);
      CountIfConcat(b[..j] + [last], b[j + 1..], p);
      CountIfConcat(b[..j], b[j + 1..], p);
      assert [last][..0] == [];
    }
  }

  lemma RemoveOne<T>(front: seq<T>, last: T, b: seq<T>, j: nat)
    requires j < |b| && b[j] == last && multiset(front + [last]) == multiset(b)
    ensures multiset(front) == multiset(b[..j] + b[j + 1..])
  {
    assert b == b[..j] + [last] + b[j + 1..];
    assert multiset(b) == multiset(b[..j]) + multiset{last} + multiset(b[j + 1..]);
    assert multiset(front + [last]) == multiset(front) + multiset{last};
    var rest := multiset(b[..j]) + multiset(b[j + 1..]);
    assert multiset(b[..j] + b[j + 1..]) == rest;
    assert multiset(front) + multiset{last} == rest + multiset{last};
    forall x ensures multiset(front)[x] == rest[x] {
      assert (multiset(front) + multiset{last})[x] == (rest + multiset{last})[x];
    }
    assert multiset(front) == rest;
  }

  function Chosen<T>(xs: seq<T>, p: T -> bool): set<T> {
    set x | x in xs && p(x)
  }

  /** Without duplicates the count is the size of a set. */
  lemma {:induction false} CountIsSize<T>(xs: seq<T>, p: T -> bool)
    requires NoDuplicates(xs)
    ensures CountIf(xs, p) == |Chosen(xs, p)|
  {
    if xs == [] {
      assert Chosen(xs, p) == {};
    } else {
      var front, last := xs[..|xs| - 1], xs[|xs| - 1];
      assert xs == front + [last];
      CountIsSize(front, p);
      assert last !in front;
      assert Chosen(xs, p) == Chosen(front, p) + if p(last) then {last} else {};
    }
  }

  lemma SameCount<T>(a: seq<T>, b: seq<T>, p: T -> bool)
    requires NoDuplicates(a) && NoDuplicates(b) && forall x :: p(x) ==> (x in a <==> x in b)
    ensures CountIf(a, p) == CountIf(b, p)
  {
    CountIsSize(a, p);
    CountIsSize(b, p);
    assert Chosen(a, p) == Chosen(b, p);
  }

  // ------------------------------------------------------------- what a row shows

  /** What a class is: the course as enrolled, and when, where and on which sheet it meets. */
  datatype Facts = Facts(name: string, section: string, kind: Kind, batch: Option<string>, day: int, time: Grid.Slot,
                         room: Option<string>, sheet: string, cancelled: bool)

  /** What a stored row shows. */
  function Shown(row: EventRow): Facts {
    Facts(row.courseName, row.section, row.kind, row.batch, row.day, row.time, row.room, row.sheet,
          row.status == EventStatus.Cancelled)
  }

  /** An enrollment row fits a cell: the same section, and the cell has the course's name or one of its other names, as
      the normalisations read them. */
  predicate Fits(n: Norms, cell: Grid.ExtractedClass, e: EnrolledCourse) {
    && n.section(cell.section) == n.section(e.section)
    && exists name :: name in [e.name] + e.aliases && n.course(name) == n.course(cell.course)
  }

  lemma FitsIsCandidate(n: Norms, cell: Grid.ExtractedClass, e: EnrolledCourse)
    ensures Fits(n, cell, e) <==> Candidate(n, cell, e)
  {
    assert e.name in [e.name] + e.aliases;
    forall i | 0 <= i < |e.aliases| ensures e.aliases[i] in [e.name] + e.aliases {
      assert ([e.name] + e.aliases)[i + 1] == e.aliases[i];
    }
  }

  /** The one enrollment row that fits. */
  predicate FitsAlone(n: Norms, cell: Grid.ExtractedClass, enrollment: seq<EnrolledCourse>, i: nat) {
    i < |enrollment| && forall j :: 0 <= j < |enrollment| ==> (Fits(n, cell, enrollment[j]) <==> j == i)
  }

  lemma FitsAloneIs(n: Norms, cell: Grid.ExtractedClass, enrollment: seq<EnrolledCourse>)
    ensures forall i :: 0 <= i < |enrollment| ==>
              (FitsAlone(n, cell, enrollment, i) <==> OnlyCandidate(n, cell, enrollment, i))
  {
    forall j | 0 <= j < |enrollment| ensures Fits(n, cell, enrollment[j]) <==> Candidate(n, cell, enrollment[j]) {
      FitsIsCandidate(n, cell, enrollment[j]);
    }
  }

  /** What a scraped class says, when one row of the enrollment fits it and no other does. */
  predicate Says(n: Norms, enrollment: seq<EnrolledCourse>, s: Sighting, f: Facts) {
    && f.day == s.cell.day && f.time == s.cell.time && f.room == s.cell.room && f.sheet == s.sheet
    && f.cancelled == s.cell.cancelled
    && exists i :: 0 <= i < |enrollment| && FitsAlone(n, s.cell, enrollment, i) && IsCourse(f, enrollment[i])
  }

  predicate IsCourse(f: Facts, e: EnrolledCourse) {
    f.name == e.name && f.section == e.section && f.kind == e.kind && f.batch == e.batch
  }

  function EntryFacts(x: Entry): Facts {
    var e, c := x.enrolled, x.seen.cell;
    Facts(e.name, e.section, e.kind, e.batch, c.day, c.time, c.room, x.seen.sheet, c.cancelled)
  }

  /** The facts of a matched class are what the cell says. */
  lemma EntrySays(n: Norms, enrollment: seq<EnrolledCourse>, s: Sighting, f: Facts)
    ensures var m := MatchCell(n, s.cell, enrollment);
      m.One? && EntryFacts(Entry(s, m.enrolled)) == f <==> Says(n, enrollment, s, f)
  {
    FitsAloneIs(n, s.cell, enrollment);
    MatchIsUnambiguous(n, s.cell, enrollment);
  }

  lemma {:induction false} EntriesSay(n: Norms, enrollment: seq<EnrolledCourse>, seen: seq<Sighting>, f: Facts)
    ensures CountIf(Entries(n, enrollment, seen), (x: Entry) => EntryFacts(x) == f)
            == CountIf(seen, (s: Sighting) => Says(n, enrollment, s, f))
  {
    if seen != [] {
      var front, last := seen[..|seen| - 1], seen[|seen| - 1];
      EntriesSay(n, enrollment, front, f);
      EntrySays(n, enrollment, last, f);
      var found := EntriesOneMore(n, enrollment, seen);
      CountOneEntry(Entries(n, enrollment, front), Entries(n, enrollment, seen), found, last, f);
    }
  }

  lemma CountOneEntry(before: seq<Entry>, after: seq<Entry>, found: Match, s: Sighting, f: Facts)
    requires after == if found.One? then before + [Entry(s, found.enrolled)] else before
    ensures var p := (x: Entry) => EntryFacts(x) == f;
      CountIf(after, p) == CountIf(before, p) + if found.One? && EntryFacts(Entry(s, found.enrolled)) == f then 1 else 0
  {
    if found.One? { assert after[..|after| - 1] == before; }
  }

  // ------------------------------------------------------------- from entries to rows

  /** The classes of one group are of the same enrolled course. */
  predicate SameCourses(entries: seq<Entry>) {
    forall x, y :: x in entries && y in entries && KeyOf(x) == KeyOf(y) ==> x.enrolled == y.enrolled
  }

  lemma EnrolledOnce(n: Norms, enrollment: seq<EnrolledCourse>, seen: seq<Sighting>)
    requires ProperEnrollment(n, enrollment)
    ensures SameCourses(Entries(n, enrollment, seen))
  {
    var entries := Entries(n, enrollment, seen);
    forall x, y | x in entries && y in entries && KeyOf(x) == KeyOf(y) ensures x.enrolled == y.enrolled {
      EntriesEnrolled(n, enrollment, seen, x);
      EntriesEnrolled(n, enrollment, seen, y);
      var a :| 0 <= a < |enrollment| && enrollment[a] == x.enrolled;
      var b :| 0 <= b < |enrollment| && enrollment[b] == y.enrolled;
      assert a == b;
    }
  }

  /** The rows of a group show its classes, one for one. */
  lemma {:induction false} RowsShowEntries(n: Norms, program: string, sorted: seq<Entry>, k: nat, f: Facts)
    requires k <= |sorted| && forall x :: x in sorted ==> x.enrolled == sorted[0].enrolled
    ensures CountIf(GroupRows(n, program, sorted)[..k], (r: EventRow) => Shown(r) == f)
            == CountIf(sorted[..k], (x: Entry) => EntryFacts(x) == f)
  {
    if k > 0 {
      var rows := GroupRows(n, program, sorted);
      assert rows[..k][..k - 1] == rows[..k - 1] && sorted[..k][..k - 1] == sorted[..k - 1];
      RowsShowEntries(n, program, sorted, k - 1, f);
      assert sorted[k - 1] in sorted;
      assert Shown(rows[k - 1]) == EntryFacts(sorted[k - 1]);
    }
  }

  /** A group holds the classes of its course and no other. */
  lemma {:induction false} GroupCount(entries: seq<Entry>, key: GroupKey, f: Facts)
    ensures CountIf(Group(entries, key), (x: Entry) => EntryFacts(x) == f)
            == if GroupKey(f.name, f.section, f.kind) == key then CountIf(entries, (x: Entry) => EntryFacts(x) == f)
               else 0
  {
    if entries != [] {
      var front, last := entries[..|entries| - 1], entries[|entries| - 1];
      GroupCount(front, key, f);
      if KeyOf(last) == key { assert Group(entries, key)[..|Group(entries, key)| - 1] == Group(front, key); }
    }
  }

  lemma WantedOfCount(n: Norms, program: string, entries: seq<Entry>, key: GroupKey, f: Facts)
    requires SameCourses(entries)
    ensures CountIf(WantedOf(n, program, entries, key), (r: EventRow) => Shown(r) == f)
            == if GroupKey(f.name, f.section, f.kind) == key then CountIf(entries, (x: Entry) => EntryFacts(x) == f)
               else 0
  {
    var group, sorted := Group(entries, key), Sort(Group(entries, key), Before);
    OneCourse(entries, key);
    SortPermutes(group, Before);
    GroupRowsCount(n, program, sorted, f);
    CountIfPermutes(sorted, group, (x: Entry) => EntryFacts(x) == f);
    GroupCount(entries, key, f);
  }

  lemma OneCourse(entries: seq<Entry>, key: GroupKey)
    requires SameCourses(entries)
    ensures var sorted := Sort(Group(entries, key), Before);
      forall x :: x in sorted ==> x.enrolled == sorted[0].enrolled
  {
    var sorted := Sort(Group(entries, key), Before);
    SortPermutes(Group(entries, key), Before);
    forall x | x in sorted ensures x.enrolled == sorted[0].enrolled {
      assert x in multiset(sorted) && sorted[0] in multiset(sorted);
      GroupMembers(entries, key, x);
      GroupMembers(entries, key, sorted[0]);
    }
  }

  lemma GroupRowsCount(n: Norms, program: string, sorted: seq<Entry>, f: Facts)
    requires forall x :: x in sorted ==> x.enrolled == sorted[0].enrolled
    ensures CountIf(GroupRows(n, program, sorted), (r: EventRow) => Shown(r) == f)
            == CountIf(sorted, (x: Entry) => EntryFacts(x) == f)
  {
    RowsShowEntries(n, program, sorted, |sorted|, f);
    assert GroupRows(n, program, sorted)[..|sorted|] == GroupRows(n, program, sorted);
    assert sorted[..|sorted|] == sorted;
  }

  lemma {:induction false} WantedOverCount(n: Norms, program: string, entries: seq<Entry>, keys: seq<GroupKey>,
                                           f: Facts)
    requires SameCourses(entries) && NoDuplicates(keys)
    ensures CountIf(WantedOver(n, program, entries, keys), (r: EventRow) => Shown(r) == f)
            == if GroupKey(f.name, f.section, f.kind) in keys then CountIf(entries, (x: Entry) => EntryFacts(x) == f)
               else 0
  {
    if keys != [] {
      var front, last := keys[..|keys| - 1], keys[|keys| - 1];
      assert keys == front + [last];
      assert forall i :: 0 <= i < |front| ==> front[i] == keys[i] != keys[|keys| - 1];
      WantedOverCount(n, program, entries, front, f);
      WantedOfCount(n, program, entries, last, f);
      CountIfConcat(WantedOver(n, program, entries, front), WantedOf(n, program, entries, last),
                    (r: EventRow) => Shown(r) == f);
    }
  }

  lemma {:induction false} NoKeyNoCount(entries: seq<Entry>, f: Facts)
    requires !HasKey(entries, GroupKey(f.name, f.section, f.kind))
    ensures CountIf(entries, (x: Entry) => EntryFacts(x) == f) == 0
  {
    if entries != [] {
      var front, key := entries[..|entries| - 1], GroupKey(f.name, f.section, f.kind);
      assert KeyOf(entries[|entries| - 1]) != key;
      forall i | 0 <= i < |front| ensures KeyOf(front[i]) != key { assert front[i] == entries[i]; }
      NoKeyNoCount(front, f);
    }
  }

  /** The rows a scrape calls for show what its classes say, as often. */
  lemma WantedCount(n: Norms, program: string, enrollment: seq<EnrolledCourse>, seen: seq<Sighting>, f: Facts)
    requires ProperEnrollment(n, enrollment)
    ensures CountIf(Wanted(n, program, Entries(n, enrollment, seen)), (r: EventRow) => Shown(r) == f)
            == CountIf(seen, (s: Sighting) => Says(n, enrollment, s, f))
  {
    var entries := Entries(n, enrollment, seen);
    EnrolledOnce(n, enrollment, seen);
    KeysAre(entries);
    WantedOverCount(n, program, entries, Keys(entries), f);
    if GroupKey(f.name, f.section, f.kind) !in Keys(entries) { NoKeyNoCount(entries, f); }
    EntriesSay(n, enrollment, seen, f);
  }

  // ------------------------------------------------------------------ ids and numbers

  /** The first class is not later in the week than the second. */
  predicate NotLater(x: EventRow, y: EventRow) {
    || x.day < y.day
    || (x.day == y.day
        && (x.time.startHour < y.time.startHour
            || (x.time.startHour == y.time.startHour && x.time.startMinute <= y.time.startMinute)))
  }

  /** A row's id is made of the program, the batch or REPEAT, the normalised section and course, and the number of the
      class among those of its course. */
  lemma IdsAreMade(n: Norms, program: string, enrollment: seq<EnrolledCourse>, seen: seq<Sighting>, x: EventRow)
    requires x in Wanted(n, program, Entries(n, enrollment, seen))
    ensures x.program == program
    ensures x.externalId == program + ":" + (if x.batch.Some? && x.batch.value != "" then x.batch.value else "REPEAT")
                            + ":" + n.section(x.section) + ":" + n.course(x.courseName) + ":" + IntText(x.index)
  {
    var entries := Entries(n, enrollment, seen);
    var k, i := WantedRowComesFrom(n, program, entries, Keys(entries), x);
    var first := Sort(Group(entries, k), Before)[0].enrolled;
    IdText(n, program, first, i);
  }

  lemma IdText(n: Norms, program: string, e: EnrolledCourse, i: nat)
    ensures ExternalId(n, program, e, i) ==
            program + ":" + (if e.batch.Some? && e.batch.value != "" then e.batch.value else "REPEAT")
            + ":" + n.section(e.section) + ":" + n.course(e.name) + ":" + IntText(i)
  {
  }

  lemma RowKey(n: Norms, program: string, entries: seq<Entry>, k: GroupKey, i: nat, x: EventRow)
    requires RowFrom(n, program, entries, k, i, x)
    ensures GroupKey(x.courseName, x.section, x.kind) == k && x.index == i
  {
    FirstOfGroup(entries, k);
  }

  /** The classes of one course are numbered through the week. */
  lemma NumberedThroughTheWeek(n: Norms, program: string, enrollment: seq<EnrolledCourse>, seen: seq<Sighting>,
                               x: EventRow, y: EventRow)
    requires var wanted := Wanted(n, program, Entries(n, enrollment, seen)); x in wanted && y in wanted
    requires x.courseName == y.courseName && x.section == y.section && x.kind == y.kind && x.index < y.index
    ensures NotLater(x, y)
  {
    var entries := Entries(n, enrollment, seen);
    var k, i := WantedRowComesFrom(n, program, entries, Keys(entries), x);
    var l, j := WantedRowComesFrom(n, program, entries, Keys(entries), y);
    RowKey(n, program, entries, k, i, x);
    RowKey(n, program, entries, l, j, y);
    BeforeIsOrdering();
    SortSorts(Group(entries, k), Before);
    var sorted := Sort(Group(entries, k), Before);
    assert !Before(sorted[j], sorted[i]);
  }

  // ----------------------------------------------------------------- after a sync

  lemma IdsNoDuplicates(rows: seq<EventRow>)
    requires TimetableSync.DistinctIds(rows)
    ensures NoDuplicates(rows)
  {
  }

  /** After a sound sync, from the sheets: the stored timetable has as many SCHEDULED rows showing a class as the sheets
      have cells that say it - matched by one row of the enrollment alone, and not cancelled - and at least as many
      CANCELLED ones as cells that say it is cancelled. */
  lemma TimetableShowsTheSheets(p: Grid.Patterns, n: Norms, program: string, enrollment: seq<EnrolledCourse>,
                                scrape: Option<seq<Tab>>, rows: seq<EventRow>, f: Facts)
    requires SoundScrape(scrape) && ProperEnrollment(n, enrollment) && TimetableSync.DistinctIds(rows)
    ensures
      var after, seen := Reconciled(rows, Scraped(p, n, program, enrollment, scrape)), Sightings(p, scrape.value);
      var shown, said := CountIf(after, (r: EventRow) => Shown(r) == f),
                         CountIf(seen, (s: Sighting) => Says(n, enrollment, s, f));
      (!f.cancelled ==> shown == said) && (f.cancelled ==> shown >= said)
  {
    var seen := Sightings(p, scrape.value);
    var wanted := Scraped(p, n, program, enrollment, scrape);
    WantedCount(n, program, enrollment, seen, f);
    WantedIdsDistinct(n, program, enrollment, seen);
    ShownAfter(rows, wanted, f);
  }

  lemma ShownAfter(rows: seq<EventRow>, wanted: seq<EventRow>, f: Facts)
    requires TimetableSync.DistinctIds(rows) && TimetableSync.DistinctIds(wanted)
    ensures
      var after, p := Reconciled(rows, wanted), (r: EventRow) => Shown(r) == f;
      && (!f.cancelled ==> CountIf(after, p) == CountIf(wanted, p))
      && (f.cancelled ==> CountIf(after, p) >= CountIf(wanted, p))
  {
    var after, p := Reconciled(rows, wanted), (r: EventRow) => Shown(r) == f;
    SyncConverges(rows, wanted);
    IdsNoDuplicates(after);
    IdsNoDuplicates(wanted);
    if f.cancelled {
      AtLeastCount(after, wanted, p);
    } else {
      forall x | p(x) ensures x in after <==> x in wanted {}
      SameCount(after, wanted, p);
    }
  }

  lemma AtLeastCount(a: seq<EventRow>, b: seq<EventRow>, p: EventRow -> bool)
    requires NoDuplicates(a) && NoDuplicates(b) && forall x :: x in b ==> x in a
    ensures CountIf(a, p) >= CountIf(b, p)
  {
    CountIsSize(a, p);
    CountIsSize(b, p);
    assert Chosen(b, p) <= Chosen(a, p);
    SubsetIsSmaller(Chosen(b, p), Chosen(a, p));
  }

  lemma SubsetIsSmaller(a: set<EventRow>, b: set<EventRow>)
    requires a <= b
    ensures |a| <= |b|
  {
    assert b == a + (b - a);
  }

  // --------------------------------------------------- single cells and single rows

  lemma {:induction false} CountedOnce<T>(xs: seq<T>, p: T -> bool)
    ensures CountIf(xs, p) > 0 <==> exists x :: x in xs && p(x)
  {
    if xs != [] {
      CountedOnce(xs[..|xs| - 1], p);
      assert xs == xs[..|xs| - 1] + [xs[|xs| - 1]];
    }
  }

  /** So every cell that one row of the enrollment alone fits has its row, SCHEDULED exactly if the cell is not
      cancelled; and every SCHEDULED row shows such a cell. */
  lemma CellsHaveRows(p: Grid.Patterns, n: Norms, program: string, enrollment: seq<EnrolledCourse>,
                      scrape: Option<seq<Tab>>, rows: seq<EventRow>)
    requires SoundScrape(scrape) && ProperEnrollment(n, enrollment) && TimetableSync.DistinctIds(rows)
    ensures
      var after, seen := Reconciled(rows, Scraped(p, n, program, enrollment, scrape)), Sightings(p, scrape.value);
      && (forall s, f :: s in seen && Says(n, enrollment, s, f) ==> exists r :: r in after && Shown(r) == f)
      && (forall r :: r in after && r.status == Scheduled ==>
            exists s :: s in seen && Says(n, enrollment, s, Shown(r)))
  {
    var after, seen := Reconciled(rows, Scraped(p, n, program, enrollment, scrape)), Sightings(p, scrape.value);
    forall s, f | s in seen && Says(n, enrollment, s, f) ensures exists r :: r in after && Shown(r) == f {
      TimetableShowsTheSheets(p, n, program, enrollment, scrape, rows, f);
      CountedOnce(seen, (s: Sighting) => Says(n, enrollment, s, f));
      CountedOnce(after, (r: EventRow) => Shown(r) == f);
    }
    forall r | r in after && r.status == Scheduled ensures exists s :: s in seen && Says(n, enrollment, s, Shown(r)) {
      TimetableShowsTheSheets(p, n, program, enrollment, scrape, rows, Shown(r));
      CountedOnce(seen, (s: Sighting) => Says(n, enrollment, s, Shown(r)));
      CountedOnce(after, (x: EventRow) => Shown(x) == Shown(r));
    }
  }
}
