/** What a finished sync leaves behind, and why doing it again changes nothing. */
module Resync {
  import opened Text
  import opened Instants
  import opened ReminderPlan
  import opened Records
  import opened Repo
  import opened Classroom

  // --------------------------------------------- an operation that is settled

  /** Nothing is left for an operation to do. */
  predicate Settled(db: Db, op: Op, now: Instant) {
    match op
    case SeeCourse(c) => CourseSettled(db, c, now)
    case SeeItem(course, source, item) =>
      FindCourse(db.courses, course).Some? ==> ItemSettled(db, FindCourse(db.courses, course).value, source, item, now)
    case Sweep(course, source, seen) =>
      FindCourse(db.courses, course).Some? ==> Swept(db, FindCourse(db.courses, course).value, source, seen)
  }

  predicate CourseSettled(db: Db, c: CourseListing, now: Instant) {
    var found := FindCourse(db.courses, c.id);
    if Live(c.state) then
      found.Some? && db.courses[found.value] == CourseRow(c, db.courses[found.value].createdAt, now)
    else
      found.Some? ==> db.courses[found.value].state == c.state && db.courses[found.value].updatedAt == now
  }

  predicate RowSettled(task: Task, item: Item, now: Instant) {
    && (UpToDate(task, item) || Refreshed(task, item, now) == task)
    && (item.verdict.Some? ==> task.relevance == item.verdict.value)
  }

  predicate ItemSettled(db: Db, course: nat, source: Source, item: Item, now: Instant) {
    var found := FindTask(db.tasks, course, source, item.id);
    found.Some? && RowSettled(db.tasks[found.value], item, now)
  }

  predicate Swept(db: Db, course: nat, source: Source, seen: set<string>) {
    forall t :: 0 <= t < |db.tasks| ==> !Unlisted(db.tasks[t], course, source, seen)
  }

  lemma SettledStaysPut(db: Db, op: Op, now: Instant)
    requires Settled(db, op, now)
    ensures Step(db, op, now) == db
  {
    match op
    case SeeCourse(c) =>
      assert UpsertCourse(db.courses, c, now) == db.courses;
    case SeeItem(course, source, item) =>
      var c := FindCourse(db.courses, course);
      if c.Some? {
        var t := FindTask(db.tasks, c.value, source, item.id).value;
        var task := db.tasks[t];
        if !UpToDate(task, item) {
          assert Changes(task, task) == [];
          assert SetTask(db, t, task, [], now) == db;
        }
      }
    case Sweep(course, source, seen) =>
      var c := FindCourse(db.courses, course);
      if c.Some? {
        CloseNone(db, Cancelled, now);
      }
  }

  lemma CloseNone(db: Db, to: Status, now: Instant)
    ensures CloseAll(db, [], to, now) == db
  {
    assert CloseAll(db, [], to, now).tasks == db.tasks;
    assert CloseAll(db, [], to, now).reminders == db.reminders;
  }

  // ------------------------------------------------- rows under an operation

  /** The row of a task after operations that do not refresh it: the same, or closed at this instant. */
  predicate OnlyClosed(a: Task, b: Task, now: Instant) {
    b == a || b == Close(a, Cancelled, now) || b == Close(a, Missed, now)
  }

  lemma ClosingKeepsSettled(a: Task, b: Task, item: Item, now: Instant)
    requires OnlyClosed(a, b, now) && RowSettled(a, item, now)
    ensures RowSettled(b, item, now)
  {
  }

  /** A row that is found stays the row found, whatever is appended, as long as the rows keep what identifies them. */
  lemma FoundStays(tasks: seq<Task>, tasks': seq<Task>, course: nat, source: Source, id: string)
    requires |tasks| <= |tasks'| && forall i :: 0 <= i < |tasks| ==> SameIdentity(tasks[i], tasks'[i])
    requires FindTask(tasks, course, source, id).Some?
    ensures FindTask(tasks', course, source, id) == FindTask(tasks, course, source, id)
  {
    var t := FindTask(tasks, course, source, id).value;
    forall k | 0 <= k < t ensures !IsItem(tasks'[k], course, source, id) {
      assert !IsItem(tasks[k], course, source, id);
    }
    TaskAt(tasks', course, source, id, t);
  }

  /** Which row an item operation touches: the one it finds, or a new one at the end. */
  function Target(db: Db, course: nat, source: Source, item: Item): nat {
    var found := FindTask(db.tasks, course, source, item.id);
    if found.Some? then found.value else |db.tasks|
  }

  /** Row t alone is written, it is the item's row, and the item is settled there. */
  predicate Wrote(db: Db, db': Db, t: nat, course: nat, source: Source, item: Item, now: Instant) {
    && db'.courses == db.courses && db'.rounds == db.rounds
    && t < |db'.tasks| && |db'.tasks| == (if t == |db.tasks| then |db.tasks| + 1 else |db.tasks|)
    && (forall i :: 0 <= i < |db.tasks| && i != t ==> db'.tasks[i] == db.tasks[i])
    && IsItem(db'.tasks[t], course, source, item.id)
    && RowSettled(db'.tasks[t], item, now)
    && (t < |db.tasks| ==> SameIdentity(db.tasks[t], db'.tasks[t]) && db'.tasks[t].status == db.tasks[t].status
                           && db'.tasks[t].createdAt == db.tasks[t].createdAt)
    && (t == |db.tasks| ==> !Closed(db'.tasks[t].status) && db'.tasks[t].createdAt == now)
  }

  lemma DiscoverWrites(db: Db, course: nat, source: Source, item: Item, now: Instant)
    ensures Wrote(db, Discover(db, course, source, item, now), |db.tasks|, course, source, item, now)
  {
    var t := |db.tasks|;
    var added := AddTask(db, NewTask(course, source, item, now), now);
    var judged := SetRelevance(added, t, item.verdict, now);
    assert Discover(db, course, source, item, now).tasks == judged.tasks;
    assert Refreshed(added.tasks[t], item, now) == added.tasks[t];
  }

  lemma UpdateWrites(db: Db, t: nat, course: nat, source: Source, item: Item, now: Instant)
    requires t < |db.tasks| && IsItem(db.tasks[t], course, source, item.id)
    ensures Wrote(db, Update(db, t, item, now), t, course, source, item, now)
  {
    var was := db.tasks[t];
    var task := Refreshed(was, item, now);
    assert Refreshed(task, item, now) == task;
    if !UpToDate(was, item) && task.deadline != was.deadline {
      var moved := SetTask(db, t, task, Changes(was, task), now)
                   .(reminders := Withdraw(db.reminders, [t], {NewAssignment}));
      assert Update(db, t, item, now).tasks == SetRelevance(moved, t, item.verdict, now).tasks;
    }
  }

  /** An item operation writes its own row only, and settles it. */
  lemma ApplyItemWrites(db: Db, course: nat, source: Source, item: Item, now: Instant)
    ensures Wrote(db, ApplyItem(db, course, source, item, now), Target(db, course, source, item),
                  course, source, item, now)
  {
    var found := FindTask(db.tasks, course, source, item.id);
    if found.None? {
      DiscoverWrites(db, course, source, item, now);
    } else {
      UpdateWrites(db, found.value, course, source, item, now);
    }
  }

  lemma ApplyItemSettles(db: Db, course: nat, source: Source, item: Item, now: Instant)
    ensures ItemSettled(ApplyItem(db, course, source, item, now), course, source, item, now)
  {
    ApplyItemWrites(db, course, source, item, now);
    var db' := ApplyItem(db, course, source, item, now);
    var t := Target(db, course, source, item);
    forall k | 0 <= k < t ensures !IsItem(db'.tasks[k], course, source, item.id) {
      assert !IsItem(db.tasks[k], course, source, item.id);
    }
    TaskAt(db'.tasks, course, source, item.id, t);
  }

  lemma SweepSettles(db: Db, course: nat, source: Source, seen: set<string>, now: Instant)
    ensures Swept(SweepMissing(db, course, source, seen, now), course, source, seen)
  {
  }

  lemma CourseSettles(db: Db, c: CourseListing, now: Instant)
    ensures CourseSettled(db.(courses := UpsertCourse(db.courses, c, now)), c, now)
  {
    var after := UpsertCourse(db.courses, c, now);
    var found := FindCourse(db.courses, c.id);
    if found.Some? {
      CourseAt(after, c.id, found.value);
    } else if Live(c.state) {
      CourseAt(after, c.id, |db.courses|);
    }
  }

  lemma StepSettles(db: Db, op: Op, now: Instant)
    ensures Settled(Step(db, op, now), op, now)
  {
    match op
    case SeeCourse(c) => CourseSettles(db, c, now);
    case SeeItem(course, source, item) =>
      var c := FindCourse(db.courses, course);
      if c.Some? {
        ApplyItemWrites(db, c.value, source, item, now);
        ApplyItemSettles(db, c.value, source, item, now);
      }
    case Sweep(course, source, seen) =>
      var c := FindCourse(db.courses, course);
      if c.Some? { SweepSettles(db, c.value, source, seen, now); }
  }

  // ------------------------------------------------- operations that commute

  function CourseId(op: Op): string {
    if op.SeeCourse? then op.listing.id else op.course
  }

  /** Operations that cannot undo each other: a later one on another course, another item, or another source. */
  predicate Apart(op: Op, later: Op) {
    match (op, later)
    case (SeeCourse(c), SeeCourse(d)) => c.id != d.id
    case (SeeCourse(_), _) => true
    case (SeeItem(course, _, _), SeeCourse(d)) => course != d.id
    case (SeeItem(course, source, item), SeeItem(course', source', item')) =>
      course != course' || source != source' || item.id != item'.id
    case (SeeItem(_, _, _), Sweep(_, _, _)) => true
    case (Sweep(course, _, _), SeeCourse(d)) => course != d.id
    case (Sweep(course, source, _), SeeItem(course', source', _)) => course != course' || source != source'
    case (Sweep(_, _, _), Sweep(_, _, _)) => true
  }

  lemma CourseFoundStays(courses: seq<Course>, c: CourseListing, now: Instant, other: string)
    requires other != c.id
    ensures
      var after := UpsertCourse(courses, c, now);
      FindCourse(after, other) == FindCourse(courses, other)
      && (FindCourse(courses, other).Some? ==>
            after[FindCourse(courses, other).value] == courses[FindCourse(courses, other).value])
  {
    var after := UpsertCourse(courses, c, now);
    var f := FindCourse(courses, other);
    assert forall i :: 0 <= i < |courses| ==> after[i].externalId == courses[i].externalId;
    if f.Some? { CourseAt(after, other, f.value); }
  }

  lemma ItemSettledStays(db: Db, c: nat, source: Source, item: Item, now: Instant, db': Db)
    requires ItemSettled(db, c, source, item, now)
    requires |db.tasks| <= |db'.tasks|
    requires forall i :: 0 <= i < |db.tasks| ==> SameIdentity(db.tasks[i], db'.tasks[i])
    requires var t := FindTask(db.tasks, c, source, item.id).value; OnlyClosed(db.tasks[t], db'.tasks[t], now)
    ensures ItemSettled(db', c, source, item, now)
  {
    FoundStays(db.tasks, db'.tasks, c, source, item.id);
    var t := FindTask(db.tasks, c, source, item.id).value;
    ClosingKeepsSettled(db.tasks[t], db'.tasks[t], item, now);
  }

  lemma ApartFromCourse(db: Db, op: Op, d: CourseListing, now: Instant)
    requires Settled(db, op, now) && Apart(op, SeeCourse(d))
    ensures Settled(Step(db, SeeCourse(d), now), op, now)
  {
    CourseFoundStays(db.courses, d, now, CourseId(op));
  }

  lemma ApartFromItem(db: Db, op: Op, course: string, source: Source, item: Item, now: Instant)
    requires Settled(db, op, now) && Apart(op, SeeItem(course, source, item))
    ensures Settled(Step(db, SeeItem(course, source, item), now), op, now)
  {
    var c := FindCourse(db.courses, course);
    if c.Some? {
      ApplyItemWrites(db, c.value, source, item, now);
      var db' := ApplyItem(db, c.value, source, item, now);
      if op.SeeItem? && FindCourse(db.courses, op.course).Some? {
        ItemSettledStays(db, FindCourse(db.courses, op.course).value, op.source, op.item, now, db');
      } else if op.Sweep? && FindCourse(db.courses, op.course).Some? {
        var d := FindCourse(db.courses, op.course).value;
        forall t | 0 <= t < |db'.tasks| ensures !Unlisted(db'.tasks[t], d, op.source, op.seen) {
          if t != Target(db, c.value, source, item) { assert db'.tasks[t] == db.tasks[t]; }
        }
      }
    }
  }

  /** Rows that only close, under courses that stay, keep an operation settled. */
  lemma ClosingKeepsOpSettled(db: Db, op: Op, db': Db, now: Instant)
    requires Settled(db, op, now)
    requires db'.courses == db.courses && |db'.tasks| == |db.tasks|
    requires forall i :: 0 <= i < |db.tasks| ==> OnlyClosed(db.tasks[i], db'.tasks[i], now)
    requires forall i :: 0 <= i < |db.tasks| ==>
             db.tasks[i].status in {Completed, Cancelled} ==> db'.tasks[i] == db.tasks[i]
    ensures Settled(db', op, now)
  {
    if op.SeeItem? && FindCourse(db.courses, op.course).Some? {
      ItemSettledStays(db, FindCourse(db.courses, op.course).value, op.source, op.item, now, db');
    } else if op.Sweep? && FindCourse(db.courses, op.course).Some? {
      var d := FindCourse(db.courses, op.course).value;
      forall t | 0 <= t < |db'.tasks| ensures !Unlisted(db'.tasks[t], d, op.source, op.seen) {
        assert !Unlisted(db.tasks[t], d, op.source, op.seen);
      }
    }
  }

  lemma ApartFromSweep(db: Db, op: Op, course: string, source: Source, seen: set<string>, now: Instant)
    requires Settled(db, op, now)
    ensures Settled(Step(db, Sweep(course, source, seen), now), op, now)
  {
    var c := FindCourse(db.courses, course);
    if c.Some? { ClosingKeepsOpSettled(db, op, SweepMissing(db, c.value, source, seen, now), now); }
  }

  /** An operation that is settled stays settled through a later one that is apart from it. */
  lemma ApartKeepsSettled(db: Db, op: Op, later: Op, now: Instant)
    requires Settled(db, op, now) && Apart(op, later)
    ensures Settled(Step(db, later, now), op, now)
  {
    match later
    case SeeCourse(d) => ApartFromCourse(db, op, d, now);
    case SeeItem(course, source, item) => ApartFromItem(db, op, course, source, item, now);
    case Sweep(course, source, seen) => ApartFromSweep(db, op, course, source, seen, now);
  }

  predicate AllApart(ops: seq<Op>) {
    forall i, j :: 0 <= i < j < |ops| ==> Apart(ops[i], ops[j])
  }

  lemma {:induction false} RunSettlesAll(db: Db, ops: seq<Op>, now: Instant)
    requires AllApart(ops)
    ensures forall i :: 0 <= i < |ops| ==> Settled(RunOps(db, ops, now), ops[i], now)
  {
    if ops != [] {
      var before, last := ops[..|ops| - 1], ops[|ops| - 1];
      RunSettlesAll(db, before, now);
      forall i | 0 <= i < |ops| ensures Settled(RunOps(db, ops, now), ops[i], now) {
        if i < |before| {
          assert before[i] == ops[i];
          ApartKeepsSettled(RunOps(db, before, now), ops[i], last, now);
        } else {
          StepSettles(RunOps(db, before, now), last, now);
        }
      }
    }
  }

  lemma {:induction false} SettledRunStaysPut(db: Db, ops: seq<Op>, now: Instant)
    requires forall i :: 0 <= i < |ops| ==> Settled(db, ops[i], now)
    ensures RunOps(db, ops, now) == db
  {
    if ops != [] {
      SettledRunStaysPut(db, ops[..|ops| - 1], now);
      SettledStaysPut(db, ops[|ops| - 1], now);
    }
  }

  // ----------------------------------------------------- the closing passes

  /** The closing passes find nothing. */
  predicate Finished(db: Db, now: Instant) {
    && (forall j ::
          0 <= j < |db.reminders| && db.reminders[j].state == Pending && db.reminders[j].key.task < |db.tasks| ==>
          var task := db.tasks[db.reminders[j].key.task]; !Backlog(task) && !Closed(task.status))
    && (forall t :: 0 <= t < |db.tasks| ==> !Overdue(db.tasks[t], now))
  }

  /** The closing passes rewrite no row but those of overdue tasks, which they mark missed. */
  lemma FinishRows(db: Db, now: Instant)
    ensures var db' := Finish(db, now);
            db'.courses == db.courses && |db'.tasks| == |db.tasks| && db'.rounds == db.rounds
    ensures forall i :: 0 <= i < |db.tasks| ==>
              Finish(db, now).tasks[i] ==
                (if Overdue(db.tasks[i], now) then Close(db.tasks[i], Missed, now) else db.tasks[i])
  {
  }

  lemma FinishRowIs(db: Db, t: nat, now: Instant)
    requires t < |db.tasks| || t < |Finish(db, now).tasks|
    ensures |Finish(db, now).tasks| == |db.tasks| && Finish(db, now).courses == db.courses
    ensures Finish(db, now).tasks[t] == if Overdue(db.tasks[t], now) then Close(db.tasks[t], Missed, now)
                                        else db.tasks[t]
  {
    FinishRows(db, now);
  }

  /** What is still pending was pending, and none of the withdrawn tasks is concerned. */
  lemma StillPending(rs: seq<Reminder>, which: seq<nat>, j: nat)
    requires j < |rs| && Withdraw(rs, which, {})[j].state == Pending
    ensures rs[j].state == Pending && Withdraw(rs, which, {})[j] == rs[j] && rs[j].key.task !in which
  {
  }

  lemma PendingAfterFinish(db: Db, j: nat, now: Instant)
    requires j < |db.reminders| && Finish(db, now).reminders[j].state == Pending
    requires db.reminders[j].key.task < |db.tasks|
    ensures Finish(db, now).reminders[j] == db.reminders[j]
    ensures !Backlog(db.tasks[db.reminders[j].key.task])
    ensures !Closed(Finish(db, now).tasks[db.reminders[j].key.task].status)
  {
    var a := DropBacklog(db);
    var b := MarkMissed(a, now);
    StillPending(b.reminders, ClosedIds(b.tasks), j);
    StillPending(a.reminders, OverdueIds(a.tasks, now), j);
    StillPending(db.reminders, BacklogIds(db.tasks), j);
    assert Finish(db, now).tasks == b.tasks;
  }

  lemma FinishedFrom(db: Db, c: Db, now: Instant)
    requires |c.tasks| == |db.tasks| && |c.reminders| == |db.reminders|
    requires forall i :: 0 <= i < |db.tasks| ==>
               c.tasks[i] == (if Overdue(db.tasks[i], now) then Close(db.tasks[i], Missed, now) else db.tasks[i])
    requires forall j :: 0 <= j < |db.reminders| ==> c.reminders[j].key == db.reminders[j].key
    requires forall j ::
               0 <= j < |c.reminders| && c.reminders[j].state == Pending && c.reminders[j].key.task < |c.tasks| ==>
               !Backlog(db.tasks[c.reminders[j].key.task]) && !Closed(c.tasks[c.reminders[j].key.task].status)
    ensures Finished(c, now)
  {
  }

  lemma FinishFinishes(db: Db, now: Instant)
    ensures Finished(Finish(db, now), now)
  {
    var c := Finish(db, now);
    FinishRows(db, now);
    FinishKeys(db, now);
    forall j | 0 <= j < |c.reminders| && c.reminders[j].state == Pending && c.reminders[j].key.task < |c.tasks|
      ensures !Backlog(db.tasks[c.reminders[j].key.task]) && !Closed(c.tasks[c.reminders[j].key.task].status)
    {
      PendingAfterFinish(db, j, now);
    }
    FinishedFrom(db, c, now);
  }

  lemma WithdrawKeys(rs: seq<Reminder>, which: seq<nat>, j: nat)
    requires j < |rs|
    ensures Withdraw(rs, which, {})[j].key == rs[j].key
  {
  }

  lemma FinishKeys(db: Db, now: Instant)
    ensures |Finish(db, now).reminders| == |db.reminders|
    ensures forall j :: 0 <= j < |db.reminders| ==> Finish(db, now).reminders[j].key == db.reminders[j].key
  {
    var a := DropBacklog(db);
    var b := MarkMissed(a, now);
    forall j | 0 <= j < |db.reminders| ensures Finish(db, now).reminders[j].key == db.reminders[j].key {
      WithdrawKeys(db.reminders, BacklogIds(db.tasks), j);
      WithdrawKeys(a.reminders, OverdueIds(a.tasks, now), j);
      WithdrawKeys(b.reminders, ClosedIds(b.tasks), j);
    }
  }

  lemma WithdrawNone(rs: seq<Reminder>, which: seq<nat>)
    requires forall j :: 0 <= j < |rs| && rs[j].state == Pending ==> rs[j].key.task !in which
    ensures Withdraw(rs, which, {}) == rs
  {
  }

  lemma FinishedStaysPut(db: Db, now: Instant)
    requires Finished(db, now)
    ensures Finish(db, now) == db
  {
    WithdrawNone(db.reminders, BacklogIds(db.tasks));
    CloseNone(db, Missed, now);
    WithdrawNone(db.reminders, ClosedIds(db.tasks));
  }

  lemma FinishKeepsSettled(db: Db, op: Op, now: Instant)
    requires Settled(db, op, now)
    ensures Settled(Finish(db, now), op, now)
  {
    FinishRows(db, now);
    ClosingKeepsOpSettled(db, op, Finish(db, now), now);
  }

  // ---------------------------------------------------------- the listings

  predicate DistinctItems(items: seq<Item>) {
    forall i, j :: 0 <= i < j < |items| ==> items[i].id != items[j].id
  }

  /** No course twice, and no item twice in one source of a course. */
  predicate Distinct(courses: seq<CourseListing>) {
    && (forall i, j :: 0 <= i < j < |courses| ==> courses[i].id != courses[j].id)
    && forall i :: 0 <= i < |courses| ==>
         DistinctItems(courses[i].coursework.items) && DistinctItems(courses[i].announcements.items)
         && DistinctItems(courses[i].materials.items)
  }

  lemma ApartConcat(a: seq<Op>, b: seq<Op>)
    requires AllApart(a) && AllApart(b)
    requires forall i, j :: 0 <= i < |a| && 0 <= j < |b| ==> Apart(a[i], b[j])
    ensures AllApart(a + b)
  {
    var s := a + b;
    forall i, j | 0 <= i < j < |s| ensures Apart(s[i], s[j]) {
      if j < |a| {
        assert s[i] == a[i] && s[j] == a[j];
      } else if i < |a| {
        assert s[i] == a[i] && s[j] == b[j - |a|];
      } else {
        assert s[i] == b[i - |a|] && s[j] == b[j - |a|];
      }
    }
  }

  /** The order of operations within one course. */
  function Stage(op: Op): nat {
    match op
    case SeeCourse(_) => 0
    case SeeItem(_, source, _) => if source == Coursework then 1 else if source == Announcement then 2 else 3
    case Sweep(_, _, _) => 4
  }

  predicate InStages(ops: seq<Op>, low: nat, high: nat, course: string) {
    forall i :: 0 <= i < |ops| ==> low <= Stage(ops[i]) <= high && CourseId(ops[i]) == course
  }

  lemma StagesConcat(a: seq<Op>, b: seq<Op>, low: nat, middle: nat, high: nat, course: string)
    requires low <= middle < high && AllApart(a) && AllApart(b)
    requires InStages(a, low, middle, course) && InStages(b, middle + 1, high, course)
    ensures AllApart(a + b) && InStages(a + b, low, high, course)
  {
    ApartConcat(a, b);
  }

  lemma ItemOpsApart(course: string, source: Source, items: seq<Item>, stage: nat)
    requires DistinctItems(items) && source != Manual
    requires stage == (if source == Coursework then 1 else if source == Announcement then 2 else 3)
    ensures AllApart(ItemOps(course, source, items)) && InStages(ItemOps(course, source, items), stage, stage, course)
  {
  }

  lemma SweepsApart(c: CourseListing)
    ensures AllApart(Sweeps(c)) && InStages(Sweeps(c), 4, 4, c.id)
  {
  }

  /** The operations on one course are in stages and apart. */
  predicate Staged(ops: seq<Op>, high: nat, course: string) {
    AllApart(ops) && InStages(ops, 0, high, course)
  }

  lemma StagedConcat(a: seq<Op>, b: seq<Op>, middle: nat, course: string)
    requires Staged(a, middle, course) && AllApart(b) && InStages(b, middle + 1, middle + 1, course)
    ensures Staged(a + b, middle + 1, course)
  {
    StagesConcat(a, b, 0, middle, middle + 1, course);
  }

  lemma FiveStages(see: seq<Op>, work: seq<Op>, posts: seq<Op>, notes: seq<Op>, sweeps: seq<Op>, course: string)
    requires Staged(see, 0, course)
    requires AllApart(work) && InStages(work, 1, 1, course) && AllApart(posts) && InStages(posts, 2, 2, course)
    requires AllApart(notes) && InStages(notes, 3, 3, course) && AllApart(sweeps) && InStages(sweeps, 4, 4, course)
    ensures Staged(see + work + posts + notes + sweeps, 4, course)
  {
    StagedConcat(see, work, 0, course);
    StagedConcat(see + work, posts, 1, course);
    StagedConcat(see + work + posts, notes, 2, course);
    StagedConcat(see + work + posts + notes, sweeps, 3, course);
  }

  lemma CourseOpsApart(c: CourseListing)
    requires DistinctItems(c.coursework.items) && DistinctItems(c.announcements.items)
             && DistinctItems(c.materials.items)
    ensures Staged(CourseOps(c), 4, c.id)
  {
    if Live(c.state) {
      ItemOpsApart(c.id, Coursework, c.coursework.items, 1);
      ItemOpsApart(c.id, Announcement, c.announcements.items, 2);
      ItemOpsApart(c.id, Material, c.materials.items, 3);
      SweepsApart(c);
      FiveStages([SeeCourse(c)], ItemOps(c.id, Coursework, c.coursework.items),
                 ItemOps(c.id, Announcement, c.announcements.items), ItemOps(c.id, Material, c.materials.items),
                 Sweeps(c), c.id);
    }
  }

  predicate HasCourse(courses: seq<CourseListing>, id: string) {
    exists k :: 0 <= k < |courses| && courses[k].id == id
  }

  predicate OfCourses(ops: seq<Op>, courses: seq<CourseListing>) {
    forall i :: 0 <= i < |ops| ==> HasCourse(courses, CourseId(ops[i]))
  }

  lemma OtherCourseApart(a: seq<Op>, b: seq<Op>, before: seq<CourseListing>, last: CourseListing)
    requires AllApart(a) && OfCourses(a, before) && Staged(b, 4, last.id)
    requires forall k :: 0 <= k < |before| ==> before[k].id != last.id
    ensures AllApart(a + b) && OfCourses(a + b, before + [last])
  {
    forall i, j | 0 <= i < |a| && 0 <= j < |b| ensures Apart(a[i], b[j]) {
      assert HasCourse(before, CourseId(a[i])) && CourseId(b[j]) == last.id;
    }
    ApartConcat(a, b);
    forall i | 0 <= i < |a + b| ensures HasCourse(before + [last], CourseId((a + b)[i])) {
      if i < |a| {
        var k :| 0 <= k < |before| && before[k].id == CourseId(a[i]);
        assert (before + [last])[k].id == CourseId((a + b)[i]);
      } else {
        assert (before + [last])[|before|].id == CourseId(b[i - |a|]);
      }
    }
  }

  lemma {:induction false} AllOpsApart(courses: seq<CourseListing>)
    requires Distinct(courses)
    ensures AllApart(AllOps(courses)) && OfCourses(AllOps(courses), courses)
  {
    if courses != [] {
      var before, last := courses[..|courses| - 1], courses[|courses| - 1];
      AllOpsApart(before);
      CourseOpsApart(last);
      OtherCourseApart(AllOps(before), CourseOps(last), before, last);
      assert before + [last] == courses;
    }
  }

  // ------------------------------------------------------------ main results

  /** Syncing the same listings again at the same instant changes nothing at all: no course, task, status,
      history entry, reminder or delivery record. */
  lemma SyncIsIdempotent(db: Db, courses: seq<CourseListing>, now: Instant)
    requires Distinct(courses)
    ensures Sync(Sync(db, courses, now), courses, now) == Sync(db, courses, now)
  {
    var ops := AllOps(courses);
    AllOpsApart(courses);
    RunSettlesAll(db, ops, now);
    var ran := RunOps(db, ops, now);
    var done := Finish(ran, now);
    forall i | 0 <= i < |ops| ensures Settled(done, ops[i], now) { FinishKeepsSettled(ran, ops[i], now); }
    SettledRunStaysPut(done, ops, now);
    FinishFinishes(ran, now);
    FinishedStaysPut(done, now);
  }

  /** A finished sync restores quiet whatever it found, and leaves no open task past its deadline. */
  lemma SyncQuietens(db: Db, courses: seq<CourseListing>, now: Instant)
    ensures Quiet(Sync(db, courses, now))
    ensures forall t :: 0 <= t < |Sync(db, courses, now).tasks| ==> !Overdue(Sync(db, courses, now).tasks[t], now)
  {
    FinishFinishes(RunOps(db, AllOps(courses), now), now);
  }
}
