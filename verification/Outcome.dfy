/** What a finished sync decides: the status of every stored task, one row per listed item, and which
    reminders a discovered or moved deadline gets. */
module Outcome {
  import opened Text
  import opened Instants
  import opened ReminderPlan
  import opened Records
  import opened Repo
  import opened Classroom
  import opened Resync

  // ------------------------------------------------------------------ status

  /** Some readable source of the task's own live course is listed without the task. */
  predicate MissingFrom(courses: seq<CourseListing>, course: string, task: Task) {
    task.source != Manual
    && exists k :: 0 <= k < |courses| && MissingFromCourse(courses[k], course, task)
  }

  predicate MissingFromCourse(c: CourseListing, course: string, task: Task)
    requires task.source != Manual
  {
    c.id == course && Live(c.state) && Of(c, task.source).readable
    && !(task.externalId.Some? && task.externalId.value in Ids(Of(c, task.source).items))
  }

  predicate Hits(op: Op, course: string, task: Task) {
    op.Sweep? && op.course == course && op.source == task.source
    && !(task.externalId.Some? && task.externalId.value in op.seen)
  }

  /** What identifies a task's row and its course, and when it was created, does not change. */
  predicate Kept(db: Db, db': Db, t: nat)
    requires t < |db.tasks| && db.tasks[t].course < |db.courses|
  {
    && |db.tasks| <= |db'.tasks| && |db.courses| <= |db'.courses|
    && SameIdentity(db.tasks[t], db'.tasks[t]) && db'.tasks[t].createdAt == db.tasks[t].createdAt
    && db'.courses[db.tasks[t].course].externalId == db.courses[db.tasks[t].course].externalId
  }

  lemma FoundIsOwn(courses: seq<Course>, i: nat, name: string)
    requires UniqueCourses(courses) && i < |courses|
    ensures FindCourse(courses, name) == Some(i) <==> courses[i].externalId == name
  {
    if courses[i].externalId == name { CourseAt(courses, name, i); }
  }

  lemma SweepRow(db: Db, c: nat, source: Source, seen: set<string>, t: nat, now: Instant)
    requires t < |db.tasks|
    ensures var after := SweepMissing(db, c, source, seen, now);
            && after.courses == db.courses && |after.tasks| == |db.tasks|
            && after.tasks[t] ==
                  if Unlisted(db.tasks[t], c, source, seen) then Close(db.tasks[t], Cancelled, now) else db.tasks[t]
  {
    assert t in UnlistedIds(db.tasks, c, source, seen) <==> Unlisted(db.tasks[t], c, source, seen);
  }

  lemma SweepStatus(db: Db, course: string, source: Source, seen: set<string>, t: nat, now: Instant)
    requires t < |db.tasks| && UniqueCourses(db.courses) && db.tasks[t].course < |db.courses|
    ensures
      var op, was := Sweep(course, source, seen), db.tasks[t];
      var after := Step(db, op, now);
      && Kept(db, after, t)
      && after.tasks[t].status ==
           if was.status !in {Completed, Cancelled} && Hits(op, db.courses[was.course].externalId, was)
           then Cancelled else was.status
  {
    var c := FindCourse(db.courses, course);
    if c.Some? {
      SweepStatusIn(db, c.value, course, source, seen, t, now);
    } else {
      FoundIsOwn(db.courses, db.tasks[t].course, course);
    }
  }

  lemma SweepStatusIn(db: Db, c: nat, course: string, source: Source, seen: set<string>, t: nat, now: Instant)
    requires t < |db.tasks| && UniqueCourses(db.courses) && db.tasks[t].course < |db.courses|
    requires FindCourse(db.courses, course) == Some(c)
    ensures
      var after, was := SweepMissing(db, c, source, seen, now), db.tasks[t];
      && Kept(db, after, t)
      && after.tasks[t].status ==
           if was.status !in {Completed, Cancelled}
              && Hits(Sweep(course, source, seen), db.courses[was.course].externalId, was)
           then Cancelled else was.status
  {
    HitIsUnlisted(db, c, course, source, seen, t);
    SweepRow(db, c, source, seen, t, now);
  }

  lemma HitIsUnlisted(db: Db, c: nat, course: string, source: Source, seen: set<string>, t: nat)
    requires t < |db.tasks| && UniqueCourses(db.courses) && db.tasks[t].course < |db.courses|
    requires FindCourse(db.courses, course) == Some(c)
    ensures Unlisted(db.tasks[t], c, source, seen) <==>
            && db.tasks[t].status !in {Completed, Cancelled}
            && Hits(Sweep(course, source, seen), db.courses[db.tasks[t].course].externalId, db.tasks[t])
  {
    FoundIsOwn(db.courses, db.tasks[t].course, course);
  }

  lemma ItemStatus(db: Db, course: string, source: Source, item: Item, t: nat, now: Instant)
    requires Sound(db) && t < |db.tasks|
    ensures
      var after := Step(db, SeeItem(course, source, item), now);
      Kept(db, after, t) && after.tasks[t].status == db.tasks[t].status
  {
    var c := FindCourse(db.courses, course);
    if c.Some? {
      ApplyItemWrites(db, c.value, source, item, now);
      assert Wrote(db, ApplyItem(db, c.value, source, item, now), Target(db, c.value, source, item),
                   c.value, source, item, now);
    }
  }

  lemma StepStatus(db: Db, op: Op, t: nat, now: Instant)
    requires Sound(db) && t < |db.tasks|
    ensures
      var after, was := Step(db, op, now), db.tasks[t];
      && Kept(db, after, t)
      && after.tasks[t].status ==
           if was.status !in {Completed, Cancelled} && Hits(op, db.courses[was.course].externalId, was)
           then Cancelled else was.status
  {
    match op
    case SeeCourse(c) =>
    case SeeItem(course, source, item) => ItemStatus(db, course, source, item, t, now);
    case Sweep(course, source, seen) => SweepStatus(db, course, source, seen, t, now);
  }

  predicate SomeHits(ops: seq<Op>, course: string, task: Task) {
    exists i :: 0 <= i < |ops| && Hits(ops[i], course, task)
  }

  lemma SomeHitsConcat(a: seq<Op>, b: seq<Op>, course: string, task: Task)
    ensures SomeHits(a + b, course, task) <==> SomeHits(a, course, task) || SomeHits(b, course, task)
  {
    var s := a + b;
    if SomeHits(s, course, task) {
      var i :| 0 <= i < |s| && Hits(s[i], course, task);
      if i < |a| { assert Hits(a[i], course, task); } else { assert Hits(b[i - |a|], course, task); }
    }
    if SomeHits(a, course, task) {
      var i :| 0 <= i < |a| && Hits(a[i], course, task);
      assert Hits(s[i], course, task);
    }
    if SomeHits(b, course, task) {
      var i :| 0 <= i < |b| && Hits(b[i], course, task);
      assert Hits(s[|a| + i], course, task);
    }
  }

  lemma {:induction false} RunStatus(db: Db, ops: seq<Op>, t: nat, now: Instant)
    requires Sound(db) && t < |db.tasks| && forall i :: 0 <= i < |ops| ==> Proper(ops[i])
    ensures Kept(db, RunOps(db, ops, now), t)
    ensures
      var was := db.tasks[t].status;
      RunOps(db, ops, now).tasks[t].status ==
      if was !in {Completed, Cancelled} && SomeHits(ops, db.courses[db.tasks[t].course].externalId, db.tasks[t])
      then Cancelled else was
  {
    if ops != [] {
      var before, last := ops[..|ops| - 1], ops[|ops| - 1];
      RunStatus(db, before, t, now);
      RunKeepsSound(db, before, now);
      StepStatus(RunOps(db, before, now), last, t, now);
      var id := db.courses[db.tasks[t].course].externalId;
      SomeHitsConcat(before, [last], id, db.tasks[t]);
      assert ops == before + [last];
      assert SomeHits([last], id, db.tasks[t]) <==> Hits([last][0], id, db.tasks[t]);
    }
  }

  lemma CourseSweeps(c: CourseListing, course: string, task: Task)
    requires task.source != Manual
    ensures SomeHits(CourseOps(c), course, task) <==> MissingFromCourse(c, course, task)
  {
    if Live(c.state) {
      var head := [SeeCourse(c)] + ItemOps(c.id, Coursework, c.coursework.items)
                  + ItemOps(c.id, Announcement, c.announcements.items) + ItemOps(c.id, Material, c.materials.items);
      var one, two, three := SweepOp(c, Coursework), SweepOp(c, Announcement), SweepOp(c, Material);
      assert CourseOps(c) == head + (one + two + three);
      SomeHitsConcat(head, one + two + three, course, task);
      SomeHitsConcat(one + two, three, course, task);
      SomeHitsConcat(one, two, course, task);
      assert forall i :: 0 <= i < |head| ==> !head[i].Sweep?;
      SweepHits(c, Coursework, course, task);
      SweepHits(c, Announcement, course, task);
      SweepHits(c, Material, course, task);
    }
  }

  lemma SweepHits(c: CourseListing, source: Source, course: string, task: Task)
    requires source != Manual
    ensures SomeHits(SweepOp(c, source), course, task) <==>
            Of(c, source).readable && Hits(Sweep(c.id, source, Ids(Of(c, source).items)), course, task)
  {
    var ops := SweepOp(c, source);
    if Of(c, source).readable { assert ops[0] == Sweep(c.id, source, Ids(Of(c, source).items)); }
  }

  lemma {:induction false} SweepsAre(courses: seq<CourseListing>, course: string, task: Task)
    requires task.source != Manual
    ensures SomeHits(AllOps(courses), course, task) <==> MissingFrom(courses, course, task)
  {
    if courses != [] {
      var before, last := courses[..|courses| - 1], courses[|courses| - 1];
      SweepsAre(before, course, task);
      CourseSweeps(last, course, task);
      SomeHitsConcat(AllOps(before), CourseOps(last), course, task);
      assert courses[|courses| - 1] == last;
      if MissingFrom(before, course, task) {
        var k :| 0 <= k < |before| && MissingFromCourse(before[k], course, task);
        assert MissingFromCourse(courses[k], course, task);
      }
      if MissingFrom(courses, course, task) {
        var k :| 0 <= k < |courses| && MissingFromCourse(courses[k], course, task);
        if k < |before| { assert MissingFromCourse(before[k], course, task); }
      }
    }
  }

  /** The status a finished sync leaves a task in, from its row before and its deadline after. */
  function Decided(task: Task, missing: bool, deadline: Option<Instant>, now: Instant): Status {
    if task.status in {Completed, Cancelled} then task.status
    else if missing then Cancelled
    else if deadline.Some? && deadline.value < now then Missed
    else task.status
  }

  lemma MissedStatus(task: Task, after: Task, now: Instant)
    requires after == if Overdue(task, now) then Close(task, Missed, now) else task
    ensures SameIdentity(task, after) && after.deadline == task.deadline && after.createdAt == task.createdAt
    ensures after.status == if Overdue(task, now) then Missed else task.status
  {
  }

  lemma NoSweepOfManual(ops: seq<Op>, course: string, task: Task)
    requires forall i :: 0 <= i < |ops| ==> Proper(ops[i])
    requires task.source == Manual
    ensures !SomeHits(ops, course, task)
  {
  }

  /** The status of every stored task after a finished sync. Completed and cancelled tasks are never touched;
      a task is cancelled for absence exactly when a readable source of its live course no longer lists it,
      so a source that failed cancels nothing; an open task whose deadline has passed is missed; a missed
      task stays missed even if its deadline moved ahead. */
  lemma SyncDecidesStatus(db: Db, courses: seq<CourseListing>, t: nat, now: Instant)
    requires Sound(db) && t < |db.tasks|
    ensures t < |Sync(db, courses, now).tasks|
    ensures
      var task, after := db.tasks[t], Sync(db, courses, now).tasks[t];
      after.status == Decided(task, MissingFrom(courses, db.courses[task.course].externalId, task), after.deadline, now)
  {
    var ops, course := AllOps(courses), db.courses[db.tasks[t].course].externalId;
    AllOpsProper(courses);
    RunStatus(db, ops, t, now);
    var ran := RunOps(db, ops, now);
    FinishRows(ran, now);
    MissedStatus(ran.tasks[t], Sync(db, courses, now).tasks[t], now);
    if db.tasks[t].source != Manual {
      SweepsAre(courses, course, db.tasks[t]);
    } else {
      NoSweepOfManual(ops, course, db.tasks[t]);
    }
  }

  // ---------------------------------------------------------------- listings

  lemma {:induction false} ItemIsSeen(courses: seq<CourseListing>, k: nat, source: Source, i: nat)
    requires k < |courses| && Live(courses[k].state) && source != Manual && i < |Of(courses[k], source).items|
    ensures SeeItem(courses[k].id, source, Of(courses[k], source).items[i]) in AllOps(courses)
    ensures SeeCourse(courses[k]) in AllOps(courses)
  {
    var before, last := courses[..|courses| - 1], courses[|courses| - 1];
    assert AllOps(courses) == AllOps(before) + CourseOps(last);
    if k < |before| {
      ItemIsSeen(before, k, source, i);
    } else {
      var ops := ItemOps(last.id, source, Of(last, source).items);
      assert ops[i] == SeeItem(last.id, source, Of(last, source).items[i]);
      assert ops[i] in ops;
      assert forall op :: op in ops ==> op in CourseOps(last);
      assert CourseOps(last)[0] == SeeCourse(last);
    }
  }

  /** The row of an item of a course, settled, and the only one. */
  predicate OnlyRow(db: Db, course: string, c: nat, source: Source, item: Item, t: nat, now: Instant) {
    && c < |db.courses| && db.courses[c].externalId == course
    && t < |db.tasks| && IsItem(db.tasks[t], c, source, item.id) && RowSettled(db.tasks[t], item, now)
    && forall u :: 0 <= u < |db.tasks| && IsItem(db.tasks[u], c, source, item.id) ==> u == t
  }

  /** After one sync every listed item of a live course, readable source or not, has exactly one row, and
      that row agrees with the source unless its update time says it is the version already stored. */
  lemma OneRowPerListedItem(db: Db, courses: seq<CourseListing>, k: nat, source: Source, i: nat, now: Instant)
    requires Sound(db) && Distinct(courses)
    requires k < |courses| && Live(courses[k].state) && source != Manual && i < |Of(courses[k], source).items|
    ensures
      var done, item := Sync(db, courses, now), Of(courses[k], source).items[i];
      exists c: nat, t: nat :: OnlyRow(done, courses[k].id, c, source, item, t, now)
  {
    var ops, item := AllOps(courses), Of(courses[k], source).items[i];
    var ran, done := RunOps(db, ops, now), Sync(db, courses, now);
    AllOpsApart(courses);
    RunSettlesAll(db, ops, now);
    ItemIsSeen(courses, k, source, i);
    FinishKeepsSettled(ran, SeeItem(courses[k].id, source, item), now);
    FinishKeepsSettled(ran, SeeCourse(courses[k]), now);
    SyncKeepsSound(db, courses, now);
    var c := FindCourse(done.courses, courses[k].id).value;
    var t := FindTask(done.tasks, c, source, item.id).value;
    forall u | 0 <= u < |done.tasks| && IsItem(done.tasks[u], c, source, item.id) ensures u == t {
      assert SameItem(done.tasks[u], done.tasks[t]) && SameItem(done.tasks[t], done.tasks[u]);
    }
    assert OnlyRow(done, courses[k].id, c, source, item, t, now);
  }

  // --------------------------------------------------------------- reminders

  /** A pending row with this key and time. */
  predicate PendingAt(rs: seq<Reminder>, key: Key, at: int) {
    exists j :: 0 <= j < |rs| && rs[j].state == Pending && rs[j].key == key && rs[j].scheduledFor == at
  }

  lemma TakenAfterTold(rs: seq<Reminder>, t: nat, alert: Key, now: Instant, key: Key)
    ensures Taken(Insert(Withdraw(rs, [t], {NewAssignment}), alert, now, now), key) <==> Taken(rs, key) || key == alert
  {
    var w := Withdraw(rs, [t], {NewAssignment});
    var told := Insert(w, alert, now, now);
    assert |w| == |rs| && forall j :: 0 <= j < |rs| ==> w[j].key == rs[j].key;
    if Taken(rs, key) {
      var j :| 0 <= j < |rs| && rs[j].key == key;
      assert told[j].key == key;
    }
    if key == alert {
      if Taken(w, alert) {
        var j :| 0 <= j < |w| && w[j].key == alert;
        assert told[j].key == key;
      } else {
        assert told[|w|].key == key;
      }
    }
    if Taken(told, key) && key != alert {
      var j :| 0 <= j < |told| && told[j].key == key;
      assert rs[j].key == key;
    }
  }

  lemma PendingAfterTold(rs: seq<Reminder>, t: nat, alert: Key, now: Instant, key: Key, at: int)
    requires key.task == t && alert.kind == DeadlineChanged && alert.task == t
    ensures
      PendingAt(Insert(Withdraw(rs, [t], {NewAssignment}), alert, now, now), key, at) <==>
        || (key.kind == NewAssignment && PendingAt(rs, key, at))
        || (!Taken(rs, key) && key == alert && at == now)
  {
    var w := Withdraw(rs, [t], {NewAssignment});
    var told := Insert(w, alert, now, now);
    assert |w| == |rs| && forall j :: 0 <= j < |rs| ==> w[j].key == rs[j].key;
    assert Taken(w, alert) <==> Taken(rs, alert) by {
      if Taken(rs, alert) {
        var j :| 0 <= j < |rs| && rs[j].key == alert;
        assert w[j].key == alert;
      }
      if Taken(w, alert) {
        var j :| 0 <= j < |w| && w[j].key == alert;
        assert rs[j].key == alert;
      }
    }
    if PendingAt(rs, key, at) && key.kind == NewAssignment {
      var j :| 0 <= j < |rs| && rs[j].state == Pending && rs[j].key == key && rs[j].scheduledFor == at;
      assert told[j] == w[j] == rs[j];
    }
    if !Taken(rs, key) && key == alert && at == now { assert told[|w|] == Fresh(alert, now, now); }
    if PendingAt(told, key, at) {
      var j :| 0 <= j < |told| && told[j].state == Pending && told[j].key == key && told[j].scheduledFor == at;
      if j < |w| { assert told[j] == w[j] == rs[j]; }
    }
  }

  /** A plan adds a pending row for each entry whose key was free, and changes no other. */
  lemma PlanRows(rs: seq<Reminder>, t: nat, deadline: Instant, now: Instant, key: Key, at: int)
    ensures
      PendingAt(InsertPlan(rs, t, deadline, Plan(deadline, now), now), key, at) <==>
        || PendingAt(rs, key, at)
        || (!Taken(rs, key) && key == KeyOf(t, key.kind, deadline) && Planned(key.kind, at) in Plan(deadline, now))
  {
    var plan := Plan(deadline, now);
    var after := InsertPlan(rs, t, deadline, plan, now);
    InsertPlanAdds(rs, t, deadline, plan, now);
    if PendingAt(rs, key, at) {
      var j :| 0 <= j < |rs| && rs[j].state == Pending && rs[j].key == key && rs[j].scheduledFor == at;
      assert after[j] == rs[j];
    }
    if PendingAt(after, key, at) {
      var j :| 0 <= j < |after| && after[j].state == Pending && after[j].key == key && after[j].scheduledFor == at;
      if j < |rs| { assert after[j] == rs[j]; }
    }
    if !Taken(rs, key) && key == KeyOf(t, key.kind, deadline) && Planned(key.kind, at) in plan {
      var j :| |rs| <= j < |after| && after[j].key == KeyOf(t, key.kind, deadline);
      PlanHoldsWanted(deadline, now, Planned(key.kind, at));
      PlanHoldsWanted(deadline, now, Planned(key.kind, after[j].scheduledFor));
    }
  }

  /** Which reminders of a task are pending right after its deadline moved: the discovery ping if it was, the
      change alert if this is the first move to this deadline, and of the plan for the new deadline exactly
      the entries whose key was still free. Nothing else survives. */
  lemma MovePends(db: Db, t: nat, item: Item, now: Instant, key: Key, at: int)
    requires t < |db.tasks| && key.task == t
    ensures
      var deadline := Refreshed(db.tasks[t], item, now).deadline;
      PendingAt(Move(db, t, item, now).reminders, key, at) <==>
        || (key.kind == NewAssignment && PendingAt(db.reminders, key, at))
        || (!Taken(db.reminders, key) && key == Key(t, DeadlineChanged, ToDeadline(deadline)) && at == now)
        || (!Taken(db.reminders, key) && deadline.Some? && key == KeyOf(t, key.kind, deadline.value)
            && Planned(key.kind, at) in Plan(deadline.value, now))
  {
    var deadline := Refreshed(db.tasks[t], item, now).deadline;
    var alert := Key(t, DeadlineChanged, ToDeadline(deadline));
    var told := Insert(Withdraw(db.reminders, [t], {NewAssignment}), alert, now, now);
    MoveReminders(db, t, item, now);
    PendingAfterTold(db.reminders, t, alert, now, key, at);
    if deadline.Some? {
      PlanRows(told, t, deadline.value, now, key, at);
      TakenAfterTold(db.reminders, t, alert, now, key);
      if Planned(key.kind, at) in Plan(deadline.value, now) {
        PlannedKinds(deadline.value, now, Planned(key.kind, at));
      }
    }
  }

  lemma MoveReminders(db: Db, t: nat, item: Item, now: Instant)
    requires t < |db.tasks|
    ensures
      var deadline := Refreshed(db.tasks[t], item, now).deadline;
      var told := Insert(Withdraw(db.reminders, [t], {NewAssignment}),
                         Key(t, DeadlineChanged, ToDeadline(deadline)), now, now);
      Move(db, t, item, now).reminders ==
        if deadline.None? then told else InsertPlan(told, t, deadline.value, Plan(deadline.value, now), now)
  {
  }

  /** Whatever is keyed to a deadline belongs to one the task held. */
  lemma TakenWasHeld(db: Db, key: Key)
    requires Sound(db) && key.task < |db.tasks| && key.anchor.ToDeadline?
    ensures Taken(db.reminders, key) ==> HeldBy(db, key.task, key.anchor.deadline)
  {
    if j :| 0 <= j < |db.reminders| && db.reminders[j].key == key { assert Anchored(db, db.reminders[j]); }
  }

  /** A countdown or change alert is pending for a deadline. */
  predicate CountsDown(db: Db, key: Key, at: int) {
    key.anchor.ToDeadline? && key.kind != DeadlineChanged && PendingAt(db.reminders, key, at)
  }

  /** A task that moves to a deadline it never held before ends up with exactly the countdown planned for
      that deadline at that moment, and one pending change alert. */
  lemma FirstMoveGetsItsPlan(db: Db, t: nat, item: Item, now: Instant, kind: ReminderType, anchor: Anchor, at: int)
    requires Sound(db) && t < |db.tasks| && kind !in {NewAssignment, DeadlineChanged}
    requires !HeldBy(db, t, Refreshed(db.tasks[t], item, now).deadline)
    ensures
      var deadline, after := Refreshed(db.tasks[t], item, now).deadline, Move(db, t, item, now);
      && (PendingAt(after.reminders, Key(t, kind, anchor), at) <==>
            anchor == ToDeadline(deadline) && deadline.Some? && Planned(kind, at) in Plan(deadline.value, now))
      && PendingAt(after.reminders, Key(t, DeadlineChanged, ToDeadline(deadline)), now)
  {
    var deadline := Refreshed(db.tasks[t], item, now).deadline;
    var alert := Key(t, DeadlineChanged, ToDeadline(deadline));
    MovePends(db, t, item, now, Key(t, kind, anchor), at);
    MovePends(db, t, item, now, alert, now);
    TakenWasHeld(db, alert);
    if anchor == ToDeadline(deadline) { TakenWasHeld(db, Key(t, kind, anchor)); }
  }

  /** Moving back to a deadline whose countdown exists already, in whatever state, schedules nothing for it:
      no countdown of any kind is pending, although the plan for the deadline is not empty. */
  lemma MoveBackIsSilent(db: Db, t: nat, item: Item, deadline: Instant, now: Instant)
    requires Sound(db) && t < |db.tasks| && Refreshed(db.tasks[t], item, now).deadline == Some(deadline)
    requires deadline > now
    requires forall p :: p in Plan(deadline, now) ==> Taken(db.reminders, KeyOf(t, p.kind, deadline))
    ensures Plan(deadline, now) != []
    ensures forall key: Key, at: int :: key.task == t ==> !CountsDown(Move(db, t, item, now), key, at)
  {
    PlanShape(deadline, now);
    forall key: Key, at: int | key.task == t ensures !CountsDown(Move(db, t, item, now), key, at) {
      MovePends(db, t, item, now, key, at);
      if Planned(key.kind, at) in Plan(deadline, now) { assert Taken(db.reminders, KeyOf(t, key.kind, deadline)); }
      if key.kind == NewAssignment && PendingAt(db.reminders, key, at) {
        var j :| 0 <= j < |db.reminders| && db.reminders[j].key == key;
        assert Anchored(db, db.reminders[j]);
      }
    }
  }

  /** An assignment created or moved to a deadline still ahead has its discovery ping: a row that exists, in
      any state, and by the unique key there is never a second. */
  lemma DiscoveryPingExists(db: Db, course: nat, source: Source, item: Item, now: Instant)
    requires Sound(db) && course < |db.courses| && source != Manual
    requires Deadline(source, item).Some? && Deadline(source, item).value > now
    requires var found := FindTask(db.tasks, course, source, item.id);
             found.None? || (!UpToDate(db.tasks[found.value], item)
                             && db.tasks[found.value].deadline != Deadline(source, item))
    ensures
      var after, key := ApplyItem(db, course, source, item, now),
                        Key(Target(db, course, source, item), NewAssignment, WholeTask);
      && Taken(after.reminders, key)
      && forall i, j :: 0 <= i < j < |after.reminders| ==>
           !(after.reminders[i].key.task == key.task && after.reminders[i].key.kind == NewAssignment
             && after.reminders[j].key.task == key.task && after.reminders[j].key.kind == NewAssignment)
  {
    var deadline := Deadline(source, item).value;
    var t := Target(db, course, source, item);
    var after := ApplyItem(db, course, source, item, now);
    var found := FindTask(db.tasks, course, source, item.id);
    var plan := Plan(deadline, now);
    PlanShape(deadline, now);
    assert plan[0] in plan;
    if found.None? {
      DiscoverKeepsSound(db, course, source, item, now);
      var added := SetRelevance(AddTask(db, NewTask(course, source, item, now), now), t, item.verdict, now);
      var alerted := if FeedAlert(source, item, now) then InsertReminder(added, FeedKey(t, source), now, now)
                     else added;
      PlanTakes(alerted.reminders, t, deadline, plan, now, plan[0]);
    } else {
      MoveKeepsAllSound(db, t, item, now);
      MoveReminders(db, t, item, now);
      var told := Insert(Withdraw(db.reminders, [t], {NewAssignment}),
                         Key(t, DeadlineChanged, ToDeadline(Some(deadline))), now, now);
      PlanTakes(told, t, deadline, plan, now, plan[0]);
    }
    forall i | 0 <= i < |after.reminders| && after.reminders[i].key.kind == NewAssignment
      ensures after.reminders[i].key.anchor == WholeTask
    {
      assert Anchored(after, after.reminders[i]);
    }
  }

  lemma PlanTakes(rs: seq<Reminder>, t: nat, deadline: Instant, plan: seq<Planned>, now: Instant, p: Planned)
    requires p in plan
    ensures Taken(InsertPlan(rs, t, deadline, plan, now), KeyOf(t, p.kind, deadline))
  {
    InsertPlanAdds(rs, t, deadline, plan, now);
    var after := InsertPlan(rs, t, deadline, plan, now);
    var key := KeyOf(t, p.kind, deadline);
    if Taken(rs, key) {
      var j :| 0 <= j < |rs| && rs[j].key == key;
      assert after[j].key == key;
    } else {
      var j :| |rs| <= j < |after| && after[j].key == key;
    }
  }

  /** In every sound state a task has at most one pending change alert, and it announces the current deadline. */
  lemma OnePendingChangeAlert(db: Db, i: nat, j: nat)
    requires Sound(db) && i < |db.reminders| && j < |db.reminders|
    requires db.reminders[i].state == Pending && db.reminders[i].key.kind == DeadlineChanged
    requires db.reminders[j].state == Pending && db.reminders[j].key.kind == DeadlineChanged
    requires db.reminders[i].key.task == db.reminders[j].key.task
    ensures i == j
    ensures db.reminders[i].key.anchor == ToDeadline(db.tasks[db.reminders[i].key.task].deadline)
  {
    assert Anchored(db, db.reminders[i]) && Anchored(db, db.reminders[j]);
  }
}
