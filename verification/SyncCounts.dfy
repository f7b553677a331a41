/** What the summary of a sync counts (ragra/sync/classroom_sync.py): each number, read off the store before and
    after. */
module SyncCounts {
  import opened Text
  import opened Instants
  import Sorting
  import opened Records
  import opened Repo
  import opened Classroom
  import opened Resync

  // ------------------------------------------------------- courses and sources

  function LiveCount(courses: seq<CourseListing>): nat {
    if courses == [] then 0
    else LiveCount(courses[..|courses| - 1]) + if Live(courses[|courses| - 1].state) then 1 else 0
  }

  function LiveOnes(courses: seq<CourseListing>): set<nat> {
    set k: nat | k < |courses| && (courses[k].state == "ACTIVE" || courses[k].state == "PROVISIONED")
  }

  /** The courses counted are those that are active or provisioned. */
  lemma {:induction false} LiveAreCounted(courses: seq<CourseListing>)
    ensures LiveCount(courses) == |LiveOnes(courses)|
  {
    if courses == [] {
      assert LiveOnes(courses) == {};
    } else {
      var n, front := |courses| - 1, courses[..|courses| - 1];
      LiveAreCounted(front);
      assert LiveOnes(courses) == LiveOnes(front) + if Live(courses[n].state) then {n} else {};
    }
  }

  function FailedFirst(c: CourseListing, k: nat): seq<(string, Source)> {
    (if k >= 1 && !c.coursework.readable then [(c.name, Coursework)] else [])
    + (if k >= 2 && !c.announcements.readable then [(c.name, Announcement)] else [])
    + (if k >= 3 && !c.materials.readable then [(c.name, Material)] else [])
  }

  /** The sources of a course that could not be read to their end, in sync order. */
  function FailedSources(c: CourseListing): seq<(string, Source)> {
    if Live(c.state) then FailedFirst(c, 3) else []
  }

  function AllFailed(courses: seq<CourseListing>): seq<(string, Source)> {
    if courses == [] then [] else AllFailed(courses[..|courses| - 1]) + FailedSources(courses[|courses| - 1])
  }

  /** A live course of that name has a source that could not be read. */
  predicate Unread(c: CourseListing, name: string, source: Source)
    requires source != Manual
  {
    Live(c.state) && c.name == name && !Of(c, source).readable
  }

  predicate SomeUnread(courses: seq<CourseListing>, name: string, source: Source)
    requires source != Manual
  {
    exists k :: 0 <= k < |courses| && Unread(courses[k], name, source)
  }

  lemma FailedSourcesAre(c: CourseListing, name: string, source: Source)
    requires source != Manual
    ensures (name, source) in FailedSources(c) <==> Unread(c, name, source)
  {
  }

  lemma OneMoreUnread(courses: seq<CourseListing>, name: string, source: Source)
    requires courses != [] && source != Manual
    ensures SomeUnread(courses, name, source) <==>
            || SomeUnread(courses[..|courses| - 1], name, source) || Unread(courses[|courses| - 1], name, source)
  {
    var front := courses[..|courses| - 1];
    if k :| 0 <= k < |front| && Unread(front[k], name, source) { assert Unread(courses[k], name, source); }
    if k :| 0 <= k < |courses| && Unread(courses[k], name, source) {
      if k < |front| { assert Unread(front[k], name, source); }
    }
  }

  /** What is reported as failed: exactly the sources of live courses that were not read to their end. */
  lemma {:induction false} FailedAre(courses: seq<CourseListing>, name: string, source: Source)
    requires source != Manual
    ensures (name, source) in AllFailed(courses) <==> SomeUnread(courses, name, source)
  {
    if courses != [] {
      var front, last := courses[..|courses| - 1], courses[|courses| - 1];
      FailedAre(front, name, source);
      FailedSourcesAre(last, name, source);
      OneMoreUnread(courses, name, source);
    }
  }

  // ------------------------------------------------------------- cancelled tasks

  /** The tasks a sweep cancels. */
  function SweptBy(db: Db, op: Op): seq<nat> {
    if op.Sweep? && FindCourse(db.courses, op.course).Some?
    then UnlistedIds(db.tasks, FindCourse(db.courses, op.course).value, op.source, op.seen) else []
  }

  function SweptCount(db: Db, ops: seq<Op>, now: Instant): nat {
    if ops == [] then 0
    else
      SweptCount(db, ops[..|ops| - 1], now) + |SweptBy(RunOps(db, ops[..|ops| - 1], now), ops[|ops| - 1])|
  }

  lemma {:induction false} SweptConcat(db: Db, a: seq<Op>, b: seq<Op>, now: Instant)
    ensures SweptCount(db, a + b, now) == SweptCount(db, a, now) + SweptCount(RunOps(db, a, now), b, now)
  {
    if b == [] {
      assert a + b == a;
    } else {
      var front := b[..|b| - 1];
      assert (a + b)[..|a + b| - 1] == a + front;
      SweptConcat(db, a, front, now);
      RunConcat(db, a, front, now);
    }
  }

  lemma {:induction false} NoSweepsNoCount(db: Db, ops: seq<Op>, now: Instant)
    requires forall i :: 0 <= i < |ops| ==> !ops[i].Sweep?
    ensures SweptCount(db, ops, now) == 0
  {
    if ops != [] { NoSweepsNoCount(db, ops[..|ops| - 1], now); }
  }

  /** The tasks that have a status after and did not have it before. */
  function Newly(db: Db, after: Db, to: Status): set<nat> {
    set t | 0 <= t < |after.tasks| && after.tasks[t].status == to && !(t < |db.tasks| && db.tasks[t].status == to)
  }

  function IdSet(ids: seq<nat>): (r: set<nat>)
    ensures forall i :: i in r <==> i in ids
  {
    set i | i in ids
  }

  lemma {:induction false} IncreasingCount(ids: seq<nat>)
    requires forall i, j :: 0 <= i < j < |ids| ==> ids[i] < ids[j]
    ensures |IdSet(ids)| == |ids|
  {
    if ids == [] {
      assert IdSet(ids) == {};
    } else {
      var front, last := ids[..|ids| - 1], ids[|ids| - 1];
      IncreasingCount(front);
      assert ids == front + [last];
      forall i | 0 <= i < |front| ensures front[i] != last { assert ids[i] < ids[|ids| - 1]; }
      assert IdSet(ids) == IdSet(front) + {last};
    }
  }

  lemma SweptStatus(cur: Db, course: nat, source: Source, seen: set<string>, now: Instant, t: nat)
    requires t < |cur.tasks|
    ensures var after := SweepMissing(cur, course, source, seen, now);
      && |after.tasks| == |cur.tasks|
      && after.tasks[t].status
         == if t in UnlistedIds(cur.tasks, course, source, seen) then Cancelled else cur.tasks[t].status
  {
    assert t in UnlistedIds(cur.tasks, course, source, seen) <==> Unlisted(cur.tasks[t], course, source, seen);
  }

  lemma SweepCancels(db: Db, cur: Db, course: nat, source: Source, seen: set<string>, now: Instant)
    requires |db.tasks| <= |cur.tasks|
    requires forall t :: 0 <= t < |db.tasks| && db.tasks[t].status == Cancelled ==> cur.tasks[t].status == Cancelled
    ensures |Newly(db, SweepMissing(cur, course, source, seen, now), Cancelled)|
            == |Newly(db, cur, Cancelled)| + |UnlistedIds(cur.tasks, course, source, seen)|
  {
    var ids, after := UnlistedIds(cur.tasks, course, source, seen), SweepMissing(cur, course, source, seen, now);
    IncreasingCount(Sorting.Select(cur.tasks, (task: Task) => Unlisted(task, course, source, seen)));
    forall t: nat | t < |cur.tasks|
      ensures |after.tasks| == |cur.tasks|
      ensures after.tasks[t].status == if t in ids then Cancelled else cur.tasks[t].status
    {
      SweptStatus(cur, course, source, seen, now, t);
    }
    NewlyGrows(db, cur, after, ids);
  }

  lemma NewlyGrows(db: Db, cur: Db, after: Db, ids: seq<nat>)
    requires |db.tasks| <= |cur.tasks| == |after.tasks| && |IdSet(ids)| == |ids|
    requires forall t :: 0 <= t < |db.tasks| && db.tasks[t].status == Cancelled ==> cur.tasks[t].status == Cancelled
    requires forall i :: i in ids ==> i < |cur.tasks| && cur.tasks[i].status != Cancelled
    requires forall t :: 0 <= t < |cur.tasks| ==>
               after.tasks[t].status == if t in ids then Cancelled else cur.tasks[t].status
    ensures |Newly(db, after, Cancelled)| == |Newly(db, cur, Cancelled)| + |ids|
  {
    assert Newly(db, after, Cancelled) == Newly(db, cur, Cancelled) + IdSet(ids);
    assert Newly(db, cur, Cancelled) !! IdSet(ids);
  }

  lemma ItemCancelsNothing(db: Db, cur: Db, course: nat, source: Source, item: Item, now: Instant)
    requires |db.tasks| <= |cur.tasks|
    ensures var after := ApplyItem(cur, course, source, item, now);
      && Newly(db, after, Cancelled) == Newly(db, cur, Cancelled) && |cur.tasks| <= |after.tasks|
      && forall t :: 0 <= t < |cur.tasks| ==> after.tasks[t].status == cur.tasks[t].status
  {
    ApplyItemWrites(cur, course, source, item, now);
  }

  /** An operation cancels exactly the tasks it sweeps. */
  lemma StepCancels(db: Db, cur: Db, op: Op, now: Instant)
    requires |db.tasks| <= |cur.tasks|
    requires forall t :: 0 <= t < |db.tasks| && db.tasks[t].status == Cancelled ==> cur.tasks[t].status == Cancelled
    ensures |Newly(db, Step(cur, op, now), Cancelled)| == |Newly(db, cur, Cancelled)| + |SweptBy(cur, op)|
    ensures |db.tasks| <= |Step(cur, op, now).tasks|
    ensures forall t :: 0 <= t < |db.tasks| && db.tasks[t].status == Cancelled ==>
              Step(cur, op, now).tasks[t].status == Cancelled
  {
    match op
    case SeeCourse(c) =>
      assert Newly(db, Step(cur, op, now), Cancelled) == Newly(db, cur, Cancelled);
    case SeeItem(course, source, item) =>
      var c := FindCourse(cur.courses, course);
      if c.Some? { ItemCancelsNothing(db, cur, c.value, source, item, now); }
    case Sweep(course, source, seen) =>
      var c := FindCourse(cur.courses, course);
      if c.Some? { SweepCancels(db, cur, c.value, source, seen, now); }
  }

  lemma {:induction false} RunCancels(db: Db, ops: seq<Op>, now: Instant)
    ensures |Newly(db, RunOps(db, ops, now), Cancelled)| == SweptCount(db, ops, now)
    ensures |db.tasks| <= |RunOps(db, ops, now).tasks|
    ensures forall t :: 0 <= t < |db.tasks| && db.tasks[t].status == Cancelled ==>
              RunOps(db, ops, now).tasks[t].status == Cancelled
  {
    if ops == [] {
      assert Newly(db, db, Cancelled) == {};
    } else {
      var front := ops[..|ops| - 1];
      RunCancels(db, front, now);
      StepCancels(db, RunOps(db, front, now), ops[|ops| - 1], now);
    }
  }

  lemma FinishStatus(ran: Db, now: Instant, t: nat)
    requires t < |ran.tasks|
    ensures |Finish(ran, now).tasks| == |ran.tasks|
    ensures Finish(ran, now).tasks[t].status == if Overdue(ran.tasks[t], now) then Missed else ran.tasks[t].status
  {
    FinishRowIs(ran, t, now);
  }

  lemma SameNewly(db: Db, a: Db, b: Db, to: Status)
    requires |a.tasks| == |b.tasks|
    requires forall t :: 0 <= t < |a.tasks| ==> (a.tasks[t].status == to <==> b.tasks[t].status == to)
    ensures Newly(db, a, to) == Newly(db, b, to)
  {
  }

  /** The cancelled count of a sync is the number of tasks that end it CANCELLED and did not start it so. */
  lemma CancelledAreCounted(db: Db, courses: seq<CourseListing>, now: Instant)
    ensures SweptCount(db, AllOps(courses), now) == |Newly(db, Sync(db, courses, now), Cancelled)|
  {
    var ran, done := RunOps(db, AllOps(courses), now), Sync(db, courses, now);
    RunCancels(db, AllOps(courses), now);
    FinishRows(ran, now);
    forall t: nat | t < |ran.tasks| ensures ran.tasks[t].status == Cancelled <==> done.tasks[t].status == Cancelled {
      FinishStatus(ran, now, t);
    }
    SameNewly(db, ran, done, Cancelled);
  }

  // ---------------------------------------------------------------- missed tasks

  lemma StepMissesNobody(cur: Db, op: Op, now: Instant, t: nat)
    requires t < |Step(cur, op, now).tasks| && Step(cur, op, now).tasks[t].status == Missed
    ensures t < |cur.tasks| && cur.tasks[t].status == Missed
  {
    match op
    case SeeCourse(c) =>
    case SeeItem(course, source, item) =>
      var c := FindCourse(cur.courses, course);
      if c.Some? { ApplyItemWrites(cur, c.value, source, item, now); }
    case Sweep(course, source, seen) =>
      var c := FindCourse(cur.courses, course);
      if c.Some? { SweptStatus(cur, c.value, source, seen, now, t); }
  }

  lemma StepMissesNone(db: Db, cur: Db, op: Op, now: Instant)
    requires |db.tasks| <= |cur.tasks| && Newly(db, cur, Missed) == {}
    ensures |db.tasks| <= |Step(cur, op, now).tasks| && Newly(db, Step(cur, op, now), Missed) == {}
  {
    var after := Step(cur, op, now);
    StepKeepsMissed(cur, op, now);
    forall t: nat | t < |after.tasks| && after.tasks[t].status == Missed
      ensures t < |db.tasks| && db.tasks[t].status == Missed
    {
      StepMissesNobody(cur, op, now, t);
      assert t !in Newly(db, cur, Missed);
    }
  }

  lemma {:induction false} RunMissesNone(db: Db, ops: seq<Op>, now: Instant)
    ensures |db.tasks| <= |RunOps(db, ops, now).tasks| && Newly(db, RunOps(db, ops, now), Missed) == {}
  {
    if ops != [] {
      RunMissesNone(db, ops[..|ops| - 1], now);
      StepMissesNone(db, RunOps(db, ops[..|ops| - 1], now), ops[|ops| - 1], now);
    }
  }

  lemma NewlyAre(db: Db, after: Db, ids: seq<nat>)
    requires forall t :: t in ids <==>
               0 <= t < |after.tasks| && after.tasks[t].status == Missed
               && !(t < |db.tasks| && db.tasks[t].status == Missed)
    ensures Newly(db, after, Missed) == IdSet(ids)
  {
  }

  /** The missed count of a sync is the number of tasks that end it MISSED and did not start it so. */
  lemma MissedAreCounted(db: Db, courses: seq<CourseListing>, now: Instant)
    ensures |OverdueIds(RunOps(db, AllOps(courses), now).tasks, now)| == |Newly(db, Sync(db, courses, now), Missed)|
  {
    var ran, done := RunOps(db, AllOps(courses), now), Sync(db, courses, now);
    var ids := OverdueIds(ran.tasks, now);
    RunMissesNone(db, AllOps(courses), now);
    RunKeepsMissed(db, AllOps(courses), now);
    FinishRows(ran, now);
    forall t: nat | t < |ran.tasks|
      ensures t in ids <==> done.tasks[t].status == Missed && !(t < |db.tasks| && db.tasks[t].status == Missed)
    {
      FinishStatus(ran, now, t);
      assert t !in Newly(db, ran, Missed);
    }
    IncreasingCount(Sorting.Select(ran.tasks, (task: Task) => Overdue(task, now)));
    NewlyAre(db, done, ids);
  }

  /** A missed task is never opened again by an operation. */
  lemma {:induction false} RunKeepsMissed(db: Db, ops: seq<Op>, now: Instant)
    ensures |db.tasks| <= |RunOps(db, ops, now).tasks|
    ensures forall t :: 0 <= t < |db.tasks| && db.tasks[t].status == Missed ==>
              RunOps(db, ops, now).tasks[t].status in {Missed, Cancelled}
  {
    if ops != [] {
      var front, last := ops[..|ops| - 1], ops[|ops| - 1];
      RunKeepsMissed(db, front, now);
      StepKeepsMissed(RunOps(db, front, now), last, now);
    }
  }

  lemma StepKeepsMissed(cur: Db, op: Op, now: Instant)
    ensures |cur.tasks| <= |Step(cur, op, now).tasks|
    ensures forall t :: 0 <= t < |cur.tasks| && cur.tasks[t].status in {Missed, Cancelled} ==>
              Step(cur, op, now).tasks[t].status in {Missed, Cancelled}
  {
    if op.SeeItem? && FindCourse(cur.courses, op.course).Some? {
      ApplyItemWrites(cur, FindCourse(cur.courses, op.course).value, op.source, op.item, now);
    }
  }

  // ------------------------------------------------------------------- reminders

  /** The rows a withdrawal for these tasks would change. */
  function PendingOf(rs: seq<Reminder>, ids: seq<nat>): set<nat> {
    set j | 0 <= j < |rs| && rs[j].state == Pending && rs[j].key.task in ids
  }
}
