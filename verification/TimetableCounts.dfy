/** What the summary of a timetable sync counts (ragra/sync/timetable_sync.py:107-184): each number, read off the
    sheets, the enrollment and the rows stored before. */
module TimetableCounts {
  import opened Text
  import opened Sorting
  import opened Enrollment
  import opened TimetableSync
  import opened TimetableRows
  import Grid

  // ------------------------------------------------------------- against the stored rows

  predicate SameMeeting(a: EventRow, b: EventRow) {
    a.day == b.day && a.time == b.time && a.room == b.room && a.section == b.section && a.status == b.status
  }

  predicate IsNew(rows: seq<EventRow>, x: EventRow) {
    forall r :: r in rows ==> r.externalId != x.externalId
  }

  predicate IsSame(rows: seq<EventRow>, x: EventRow) {
    exists r :: r in rows && r.externalId == x.externalId && SameMeeting(r, x)
  }

  lemma UpsertCounts(s: Stored, rows: seq<EventRow>, x: EventRow)
    requires DistinctIds(s.rows) && DistinctIds(rows)
    requires forall r: EventRow :: r.externalId == x.externalId ==> (r in s.rows <==> r in rows)
    ensures var after := Upsert(s, x);
      && after.created == s.created + (if IsNew(rows, x) then 1 else 0)
      && after.same == s.same + (if IsSame(rows, x) then 1 else 0)
      && after.created + after.updated + after.same == s.created + s.updated + s.same + 1
  {
    var k := Position(s.rows, x.externalId);
    if k < |s.rows| {
      assert s.rows[k] in rows;
      forall r | r in rows && r.externalId == x.externalId ensures r == s.rows[k] {
        var i :| 0 <= i < |s.rows| && s.rows[i] == r;
        assert i == k;
      }
    } else {
      forall r | r in rows ensures r.externalId != x.externalId { assert r.externalId == x.externalId ==> r in s.rows; }
    }
  }

  lemma {:induction false} UpsertAllCounts(rows: seq<EventRow>, wanted: seq<EventRow>)
    requires DistinctIds(rows) && DistinctIds(wanted)
    ensures var s := UpsertAll(Stored(rows, 0, 0, 0), wanted);
      && s.created == CountIf(wanted, (x: EventRow) => IsNew(rows, x))
      && s.same == CountIf(wanted, (x: EventRow) => IsSame(rows, x))
      && s.created + s.updated + s.same == |wanted|
  {
    if wanted != [] {
      var front, last := wanted[..|wanted| - 1], wanted[|wanted| - 1];
      assert wanted == front + [last];
      AfterFront(rows, front, last);
      UpsertAllCounts(rows, front);
      UpsertCounts(UpsertAll(Stored(rows, 0, 0, 0), front), rows, last);
    }
  }

  lemma AfterFront(rows: seq<EventRow>, front: seq<EventRow>, last: EventRow)
    requires DistinctIds(rows) && DistinctIds(front + [last])
    ensures var s := UpsertAll(Stored(rows, 0, 0, 0), front);
      && DistinctIds(front) && DistinctIds(s.rows)
      && forall r: EventRow :: r.externalId == last.externalId ==> (r in s.rows <==> r in rows)
  {
    forall i | 0 <= i < |front| ensures front[i].externalId != last.externalId {
      assert (front + [last])[i] == front[i] && (front + [last])[|front|] == last;
    }
    forall i, j | 0 <= i < j < |front| ensures front[i].externalId != front[j].externalId {
      assert (front + [last])[i] == front[i] && (front + [last])[j] == front[j];
    }
    UpsertAllRows(Stored(rows, 0, 0, 0), front);
    assert last.externalId !in Ids(front);
  }

  lemma {:induction false} MissingIsCount(rows: seq<EventRow>, seen: set<string>)
    ensures MissingCount(rows, seen) == CountIf(rows, (r: EventRow) => Missing(r, seen))
  {
    if rows != [] { MissingIsCount(rows[..|rows| - 1], seen); }
  }

  /** Scheduled, and without a class in the scrape. */
  predicate Gone(wanted: seq<EventRow>, r: EventRow) {
    r.status == Scheduled && IsNew(wanted, r)
  }

  lemma GoneAreCounted(rows: seq<EventRow>, wanted: seq<EventRow>)
    requires DistinctIds(rows) && DistinctIds(wanted)
    ensures MissingCount(UpsertAll(Stored(rows, 0, 0, 0), wanted).rows, Ids(wanted))
            == CountIf(rows, (r: EventRow) => Gone(wanted, r))
  {
    var mid := UpsertAll(Stored(rows, 0, 0, 0), wanted).rows;
    UpsertAllRows(Stored(rows, 0, 0, 0), wanted);
    MissingIsCount(mid, Ids(wanted));
    SameMembersCount(mid, wanted);
    IdsNoDuplicates(mid);
    IdsNoDuplicates(rows);
    SameCount(mid, rows, (r: EventRow) => Gone(wanted, r));
  }

  lemma {:induction false} SameMembersCount(mid: seq<EventRow>, wanted: seq<EventRow>)
    ensures CountIf(mid, (r: EventRow) => Missing(r, Ids(wanted))) == CountIf(mid, (r: EventRow) => Gone(wanted, r))
  {
    if mid != [] {
      SameMembersCount(mid[..|mid| - 1], wanted);
      GoneIs(mid[|mid| - 1], wanted);
    }
  }

  lemma GoneIs(r: EventRow, wanted: seq<EventRow>)
    ensures Missing(r, Ids(wanted)) <==> Gone(wanted, r)
  {
    if r.externalId in Ids(wanted) {
      var x :| x in wanted && x.externalId == r.externalId;
      assert !IsNew(wanted, r);
    }
  }

  // ------------------------------------------------------------- against the sheets

  /** Several enrollment rows fit the cell. */
  predicate FitsSeveral(n: Norms, cell: Grid.ExtractedClass, enrollment: seq<EnrolledCourse>) {
    exists i, j :: 0 <= i < j < |enrollment| && Fits(n, cell, enrollment[i]) && Fits(n, cell, enrollment[j])
  }

  predicate FitsOne(n: Norms, cell: Grid.ExtractedClass, enrollment: seq<EnrolledCourse>) {
    exists i :: 0 <= i < |enrollment| && FitsAlone(n, cell, enrollment, i)
  }

  lemma MatchCounts(n: Norms, cell: Grid.ExtractedClass, enrollment: seq<EnrolledCourse>)
    ensures MatchCell(n, cell, enrollment).One? <==> FitsOne(n, cell, enrollment)
    ensures MatchCell(n, cell, enrollment).Several? <==> FitsSeveral(n, cell, enrollment)
  {
    MatchIsUnambiguous(n, cell, enrollment);
    FitsAloneIs(n, cell, enrollment);
    forall j | 0 <= j < |enrollment| ensures Fits(n, cell, enrollment[j]) <==> Candidate(n, cell, enrollment[j]) {
      FitsIsCandidate(n, cell, enrollment[j]);
    }
    if FitsOne(n, cell, enrollment) {
      var i :| 0 <= i < |enrollment| && FitsAlone(n, cell, enrollment, i);
      assert !FitsSeveral(n, cell, enrollment);
    } else if i :| 0 <= i < |enrollment| && Fits(n, cell, enrollment[i]) {
      assert !FitsAlone(n, cell, enrollment, i);
      var j :| 0 <= j < |enrollment| && j != i && Fits(n, cell, enrollment[j]);
      assert i < j || j < i;
    }
  }

  lemma {:induction false} SightingCounts(n: Norms, enrollment: seq<EnrolledCourse>, seen: seq<Sighting>)
    ensures |Entries(n, enrollment, seen)| == CountIf(seen, (s: Sighting) => FitsOne(n, s.cell, enrollment))
    ensures AmbiguousCount(n, enrollment, seen) == CountIf(seen, (s: Sighting) => FitsSeveral(n, s.cell, enrollment))
  {
    if seen != [] {
      SightingCounts(n, enrollment, seen[..|seen| - 1]);
      MatchCounts(n, seen[|seen| - 1].cell, enrollment);
    }
  }

  lemma {:induction false} GroupLength(entries: seq<Entry>, key: GroupKey)
    ensures |Group(entries, key)| == CountIf(entries, (x: Entry) => KeyOf(x) == key)
  {
    if entries != [] { GroupLength(entries[..|entries| - 1], key); }
  }

  lemma {:induction false} CountWithKey(entries: seq<Entry>, keys: seq<GroupKey>, key: GroupKey)
    requires key !in keys
    ensures CountIf(entries, (x: Entry) => KeyOf(x) in keys + [key])
            == CountIf(entries, (x: Entry) => KeyOf(x) in keys) + CountIf(entries, (x: Entry) => KeyOf(x) == key)
  {
    if entries != [] { CountWithKey(entries[..|entries| - 1], keys, key); }
  }

  lemma {:induction false} CountOfNone(entries: seq<Entry>)
    ensures CountIf(entries, (x: Entry) => KeyOf(x) in []) == 0
  {
    if entries != [] { CountOfNone(entries[..|entries| - 1]); }
  }

  lemma {:induction false} CountOfAll(entries: seq<Entry>, keys: seq<GroupKey>)
    requires forall x :: x in entries ==> KeyOf(x) in keys
    ensures CountIf(entries, (x: Entry) => KeyOf(x) in keys) == |entries|
  {
    if entries != [] {
      assert entries[|entries| - 1] in entries;
      assert forall x :: x in entries[..|entries| - 1] ==> x in entries;
      CountOfAll(entries[..|entries| - 1], keys);
    }
  }

  lemma {:induction false} WantedOverLength(n: Norms, program: string, entries: seq<Entry>, keys: seq<GroupKey>)
    requires NoDuplicates(keys)
    ensures |WantedOver(n, program, entries, keys)| == CountIf(entries, (x: Entry) => KeyOf(x) in keys)
  {
    if keys == [] {
      CountOfNone(entries);
    } else {
      var front, last := keys[..|keys| - 1], keys[|keys| - 1];
      assert keys == front + [last];
      assert forall i :: 0 <= i < |front| ==> front[i] == keys[i] != keys[|keys| - 1];
      WantedOverLength(n, program, entries, front);
      CountWithKey(entries, front, last);
      GroupLength(entries, last);
      SortPermutes(Group(entries, last), Before);
      SameLength(Sort(Group(entries, last), Before), Group(entries, last));
    }
  }

  lemma SameLength<T>(a: seq<T>, b: seq<T>)
    requires multiset(a) == multiset(b)
    ensures |a| == |b|
  {
    assert |multiset(a)| == |a| && |multiset(b)| == |b|;
  }

  lemma FoundIs(n: Norms, program: string, enrollment: seq<EnrolledCourse>, seen: seq<Sighting>)
    ensures |Wanted(n, program, Entries(n, enrollment, seen))|
            == CountIf(seen, (s: Sighting) => FitsOne(n, s.cell, enrollment))
  {
    var entries := Entries(n, enrollment, seen);
    KeysAre(entries);
    WantedOverLength(n, program, entries, Keys(entries));
    CountOfAll(entries, Keys(entries));
    SightingCounts(n, enrollment, seen);
  }

  /** The summary of a sound sync: found are the cells one enrollment row alone fits, ambiguous those several fit; of
      the found, created are those with an id not stored, same those stored with that day, time, room, section and
      status, updated the others; cancelled are the scheduled rows with an id the scrape does not have. */
  lemma SyncReportCounts(p: Grid.Patterns, n: Norms, program: string, enrollment: seq<EnrolledCourse>,
                         scrape: Option<seq<Tab>>, rows: seq<EventRow>)
    requires SoundScrape(scrape) && ProperEnrollment(n, enrollment) && DistinctIds(rows)
    ensures
      var seen, wanted := Sightings(p, scrape.value), Scraped(p, n, program, enrollment, scrape);
      var s := Report(rows, wanted, AmbiguousCount(n, enrollment, seen));
      && s.found == CountIf(seen, (s: Sighting) => FitsOne(n, s.cell, enrollment))
      && s.ambiguous == CountIf(seen, (s: Sighting) => FitsSeveral(n, s.cell, enrollment))
      && s.created == CountIf(wanted, (x: EventRow) => IsNew(rows, x))
      && s.same == CountIf(wanted, (x: EventRow) => IsSame(rows, x))
      && s.created + s.updated + s.same == s.found
      && s.cancelled == CountIf(rows, (r: EventRow) => Gone(wanted, r))
  {
    var seen, wanted := Sightings(p, scrape.value), Scraped(p, n, program, enrollment, scrape);
    WantedIdsDistinct(n, program, enrollment, seen);
    FoundIs(n, program, enrollment, seen);
    SightingCounts(n, enrollment, seen);
    UpsertAllCounts(rows, wanted);
    GoneAreCounted(rows, wanted);
  }
}
