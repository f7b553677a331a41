/** What a finished sync promises about the tasks it found or moved: their status and their whole countdown
    (ragra/sync/classroom_sync.py). */
module SyncCountdown {
  import opened Text
  import opened Instants
  import opened ReminderPlan
  import opened Records
  import opened Repo
  import opened Classroom
  import opened Resync
  import opened Outcome
  import opened Countdown

  function CourseIdOf(db: Db, t: nat): string
    requires t < |db.tasks| && db.tasks[t].course < |db.courses|
  {
    db.courses[db.tasks[t].course].externalId
  }

  /** The operation is the listing of this very task. */
  predicate OwnedBy(op: Op, course: string, task: Task) {
    op.SeeItem? && op.course == course && op.source == task.source && task.externalId == Some(op.item.id)
  }

  predicate Listed(ops: seq<Op>, course: string, task: Task) {
    exists j :: 0 <= j < |ops| && OwnedBy(ops[j], course, task)
  }

  /** The key is in the plan of the deadline, and due at that time. */
  predicate Promised(deadline: Option<Instant>, key: Key, at: int, now: Instant) {
    deadline.Some? && key == KeyOf(key.task, key.kind, deadline.value)
    && Wanted(key.kind, deadline.value, now) == Some(at)
  }

  /** The task was not there before, or had another deadline. */
  predicate Changed(db: Db, cur: Db, t: nat)
    requires t < |cur.tasks|
  {
    t >= |db.tasks| || cur.tasks[t].deadline != db.tasks[t].deadline
  }

  /** What the reminders of before and the plan of now ask for: after a change of deadline the entries of its plan whose
      key was free, otherwise what was pending. */
  predicate Expected(db: Db, cur: Db, key: Key, at: int, now: Instant)
    requires key.task < |cur.tasks|
  {
    if Changed(db, cur, key.task)
    then Promised(cur.tasks[key.task].deadline, key, at, now) && !Taken(db.reminders, key)
    else PendingAt(db.reminders, key, at)
  }

  // --------------------------------------------- operations on another task

  lemma PlanSparesOthers(rs: seq<Reminder>, u: nat, deadline: Option<Instant>, now: Instant, key: Key, at: int)
    requires key.task != u
    ensures
      var after := if deadline.None? then rs else InsertPlan(rs, u, deadline.value, Plan(deadline.value, now), now);
      (Taken(after, key) <==> Taken(rs, key)) && (PendingAt(after, key, at) <==> PendingAt(rs, key, at))
  {
    if deadline.Some? {
      PlanTaken(rs, u, deadline.value, now, key);
      PlanPending(rs, u, deadline.value, now, key, at);
    }
  }

  lemma DiscoverySparesOthers(db: Db, course: nat, source: Source, item: Item, now: Instant, key: Key, at: int)
    requires key.task != |db.tasks|
    ensures var after := Discover(db, course, source, item, now).reminders;
      (Taken(after, key) <==> Taken(db.reminders, key))
      && (PendingAt(after, key, at) <==> PendingAt(db.reminders, key, at))
  {
    var t, deadline := |db.tasks|, Deadline(source, item);
    DiscoverReminders(db, course, source, item, now);
    if FeedAlert(source, item, now) {
      InsertTaken(db.reminders, FeedKey(t, source), now, now, key);
      InsertPending(db.reminders, FeedKey(t, source), now, now, key, at);
    }
    var alerted := if FeedAlert(source, item, now) then Insert(db.reminders, FeedKey(t, source), now, now)
                   else db.reminders;
    PlanSparesOthers(alerted, t, deadline, now, key, at);
  }

  lemma MoveSparesOthers(db: Db, u: nat, item: Item, now: Instant, key: Key, at: int)
    requires u < |db.tasks| && key.task != u
    ensures var after := Move(db, u, item, now).reminders;
      (Taken(after, key) <==> Taken(db.reminders, key))
      && (PendingAt(after, key, at) <==> PendingAt(db.reminders, key, at))
  {
    var deadline := Refreshed(db.tasks[u], item, now).deadline;
    var alert := Key(u, DeadlineChanged, ToDeadline(deadline));
    var w := Withdraw(db.reminders, [u], {NewAssignment});
    MoveReminders(db, u, item, now);
    WithdrawTaken(db.reminders, [u], {NewAssignment}, key);
    WithdrawPending(db.reminders, [u], {NewAssignment}, key, at);
    InsertTaken(w, alert, now, now, key);
    InsertPending(w, alert, now, now, key, at);
    PlanSparesOthers(Insert(w, alert, now, now), u, deadline, now, key, at);
  }

  /** An update that does not move the deadline leaves the reminders alone. */
  lemma UpdateReminders(db: Db, t: nat, item: Item, now: Instant)
    requires t < |db.tasks|
    ensures var after := Update(db, t, item, now);
      if UpToDate(db.tasks[t], item) || Refreshed(db.tasks[t], item, now).deadline == db.tasks[t].deadline
      then after.reminders == db.reminders && t < |after.tasks| && after.tasks[t].deadline == db.tasks[t].deadline
      else after == Move(db, t, item, now) && t < |after.tasks|
           && after.tasks[t].deadline == Refreshed(db.tasks[t], item, now).deadline != db.tasks[t].deadline
  {
  }

  /** An item operation concerns its own task alone. */
  lemma ItemSparesOthers(db: Db, course: nat, source: Source, item: Item, now: Instant, key: Key, at: int)
    requires key.task != Target(db, course, source, item)
    ensures var after := ApplyItem(db, course, source, item, now).reminders;
      (Taken(after, key) <==> Taken(db.reminders, key))
      && (PendingAt(after, key, at) <==> PendingAt(db.reminders, key, at))
  {
    var found := FindTask(db.tasks, course, source, item.id);
    if found.None? {
      DiscoverySparesOthers(db, course, source, item, now, key, at);
    } else {
      UpdateReminders(db, found.value, item, now);
      MoveSparesOthers(db, found.value, item, now, key, at);
    }
  }

  // ----------------------------------------------- operations on the task itself

  lemma ItemOnItsTask(db: Db, course: nat, source: Source, item: Item, now: Instant, key: Key, at: int)
    requires FindTask(db.tasks, course, source, item.id) == Some(key.task) && CountdownKind(key.kind)
    ensures var after := ApplyItem(db, course, source, item, now);
      && key.task < |after.tasks|
      && (after.tasks[key.task].deadline == db.tasks[key.task].deadline ==> after.reminders == db.reminders)
      && (after.tasks[key.task].deadline != db.tasks[key.task].deadline ==>
            (PendingAt(after.reminders, key, at) <==>
               !Taken(db.reminders, key) && Promised(after.tasks[key.task].deadline, key, at, now)))
  {
    UpdateReminders(db, key.task, item, now);
    MoveFillsFreeKeys(db, key.task, item, now, key, at);
  }

  lemma SweepOnTask(db: Db, course: nat, source: Source, seen: set<string>, now: Instant, key: Key, at: int)
    requires key.task < |db.tasks|
    ensures var after, t := SweepMissing(db, course, source, seen, now), key.task;
      && |after.tasks| == |db.tasks| && after.tasks[t].deadline == db.tasks[t].deadline
      && (Taken(after.reminders, key) <==> Taken(db.reminders, key))
      && (Unlisted(db.tasks[t], course, source, seen) ==>
            after.tasks[t].status == Cancelled && !PendingAt(after.reminders, key, at))
      && (!Unlisted(db.tasks[t], course, source, seen) ==>
            && after.tasks[t] == db.tasks[t]
            && (PendingAt(after.reminders, key, at) <==> PendingAt(db.reminders, key, at)))
  {
    var ids := UnlistedIds(db.tasks, course, source, seen);
    SweepRow(db, course, source, seen, key.task, now);
    WithdrawTaken(db.reminders, ids, {}, key);
    WithdrawPending(db.reminders, ids, {}, key, at);
  }

  // ------------------------------------------------------------------- one run

  /** Not listed yet: the deadline is the old one and no countdown key was added. */
  predicate Untouched(db: Db, cur: Db, key: Key)
    requires key.task < |cur.tasks|
  {
    !Changed(db, cur, key.task) && (Taken(cur.reminders, key) <==> Taken(db.reminders, key))
  }

  /** Pending as expected, or the task was cancelled since. */
  predicate InPlace(db: Db, cur: Db, key: Key, at: int, now: Instant)
    requires key.task < |cur.tasks|
  {
    || (PendingAt(cur.reminders, key, at) <==> Expected(db, cur, key, at, now))
    || (cur.tasks[key.task].status == Cancelled && !PendingAt(cur.reminders, key, at))
  }

  lemma ListedStays(ops: seq<Op>, op: Op, course: string, task: Task, task': Task)
    requires SameIdentity(task, task') && Listed(ops, course, task)
    ensures Listed(ops + [op], course, task')
  {
    var j :| 0 <= j < |ops| && OwnedBy(ops[j], course, task);
    assert OwnedBy((ops + [op])[j], course, task');
  }

  lemma ListedNow(ops: seq<Op>, op: Op, course: string, task: Task)
    requires OwnedBy(op, course, task)
    ensures Listed(ops + [op], course, task)
  {
    assert OwnedBy((ops + [op])[|ops|], course, task);
  }

  /** The state of one countdown key of one task, in the middle of a sync. */
  predicate KeyState(db: Db, cur: Db, ops: seq<Op>, key: Key, at: int, now: Instant) {
    && key.task < |cur.tasks| && cur.tasks[key.task].course < |cur.courses|
    && InPlace(db, cur, key, at, now)
    && (Untouched(db, cur, key) || Listed(ops, CourseIdOf(cur, key.task), cur.tasks[key.task]))
  }

  lemma ItemOwns(cur: Db, c: nat, course: string, source: Source, item: Item, now: Instant)
    requires Sound(cur) && FindCourse(cur.courses, course) == Some(c)
    ensures var after, t := ApplyItem(cur, c, source, item, now), Target(cur, c, source, item);
      && t < |after.tasks| && after.tasks[t].course == c && c < |after.courses|
      && OwnedBy(SeeItem(course, source, item), CourseIdOf(after, t), after.tasks[t])
      && (forall u :: 0 <= u < |cur.tasks| && u != t ==> u < |after.tasks| && after.tasks[u] == cur.tasks[u])
      && after.courses == cur.courses
  {
    ApplyItemWrites(cur, c, source, item, now);
  }

  /** The first listing of a task in this sync. */
  lemma OwnItemKeepsState(db: Db, cur: Db, ops: seq<Op>, c: nat, course: string, source: Source, item: Item, key: Key,
                          at: int, now: Instant)
    requires Sound(db) && Sound(cur) && FindCourse(cur.courses, course) == Some(c) && CountdownKind(key.kind)
    requires key.task == Target(cur, c, source, item)
    requires key.task < |cur.tasks| ==> Untouched(db, cur, key) && InPlace(db, cur, key, at, now)
    requires key.task >= |cur.tasks| ==> |db.tasks| <= |cur.tasks|
    ensures KeyState(db, ApplyItem(cur, c, source, item, now), ops + [SeeItem(course, source, item)], key, at, now)
  {
    var after, t := ApplyItem(cur, c, source, item, now), key.task;
    ItemOwns(cur, c, course, source, item, now);
    ListedNow(ops, SeeItem(course, source, item), CourseIdOf(after, t), after.tasks[t]);
    if t >= |cur.tasks| {
      DiscoveryGetsItsPlan(cur, c, source, item, now, key, at);
      DiscoveredDeadline(cur, c, source, item, now);
      NewTaskHasNoKeys(db, key);
    } else {
      ItemOnItsTask(cur, c, source, item, now, key, at);
      ApplyItemWrites(cur, c, source, item, now);
    }
  }

  lemma DiscoveredDeadline(db: Db, course: nat, source: Source, item: Item, now: Instant)
    requires FindTask(db.tasks, course, source, item.id).None?
    ensures var after := ApplyItem(db, course, source, item, now);
      && |after.tasks| == |db.tasks| + 1 && after.tasks[|db.tasks|].deadline == Deadline(source, item)
      && after.tasks[|db.tasks|].status == (if source == Coursework then ActionRequired else Discovered)
      && after.tasks[|db.tasks|].createdAt == now
  {
    var t := |db.tasks|;
    var judged := SetRelevance(AddTask(db, NewTask(course, source, item, now), now), t, item.verdict, now);
    assert Discover(db, course, source, item, now).tasks == judged.tasks;
  }

  /** The task is the same and so are the key and its row, unless the task was cancelled with its rows. */
  predicate Carried(cur: Db, after: Db, key: Key, at: int) {
    && key.task < |cur.tasks| && cur.tasks[key.task].course < |cur.courses| && Kept(cur, after, key.task)
    && after.tasks[key.task].deadline == cur.tasks[key.task].deadline
    && (Taken(after.reminders, key) <==> Taken(cur.reminders, key))
    && ((after.tasks[key.task].status == cur.tasks[key.task].status
         && (PendingAt(after.reminders, key, at) <==> PendingAt(cur.reminders, key, at)))
        || (after.tasks[key.task].status == Cancelled && !PendingAt(after.reminders, key, at)))
  }

  lemma StateCarries(db: Db, cur: Db, after: Db, ops: seq<Op>, op: Op, key: Key, at: int, now: Instant)
    requires KeyState(db, cur, ops, key, at, now) && Carried(cur, after, key, at)
    ensures KeyState(db, after, ops + [op], key, at, now)
  {
    var t := key.task;
    if Listed(ops, CourseIdOf(cur, t), cur.tasks[t]) {
      ListedStays(ops, op, CourseIdOf(cur, t), cur.tasks[t], after.tasks[t]);
    }
  }

  lemma OtherOpCarries(cur: Db, op: Op, key: Key, at: int, now: Instant)
    requires Sound(cur) && key.task < |cur.tasks|
    requires op.SeeItem? && FindCourse(cur.courses, op.course).Some? ==>
               key.task != Target(cur, FindCourse(cur.courses, op.course).value, op.source, op.item)
    ensures Carried(cur, Step(cur, op, now), key, at)
  {
    StepStatus(cur, op, key.task, now);
    match op
    case SeeCourse(c) =>
    case SeeItem(course, source, item) =>
      var c := FindCourse(cur.courses, course);
      if c.Some? {
        ItemOwns(cur, c.value, course, source, item, now);
        ItemSparesOthers(cur, c.value, source, item, now, key, at);
      }
    case Sweep(course, source, seen) =>
      var c := FindCourse(cur.courses, course);
      if c.Some? { SweepOnTask(cur, c.value, source, seen, now, key, at); }
  }

  /** Any other operation. */
  lemma OtherOpKeepsState(db: Db, cur: Db, ops: seq<Op>, op: Op, key: Key, at: int, now: Instant)
    requires Sound(cur) && KeyState(db, cur, ops, key, at, now)
    requires op.SeeItem? && FindCourse(cur.courses, op.course).Some? ==>
               key.task != Target(cur, FindCourse(cur.courses, op.course).value, op.source, op.item)
    ensures KeyState(db, Step(cur, op, now), ops + [op], key, at, now)
  {
    OtherOpCarries(cur, op, key, at, now);
    StateCarries(db, cur, Step(cur, op, now), ops, op, key, at, now);
  }

  /** The listing of a task comes once in a sync. */
  lemma ListedOnce(ops: seq<Op>, op: Op, course: string, task: Task)
    requires AllApart(ops + [op]) && OwnedBy(op, course, task)
    ensures !Listed(ops, course, task)
  {
    forall j | 0 <= j < |ops| ensures !OwnedBy(ops[j], course, task) {
      assert Apart((ops + [op])[j], (ops + [op])[|ops|]);
    }
  }

  lemma TargetIsOwned(cur: Db, c: nat, course: string, source: Source, item: Item)
    requires FindCourse(cur.courses, course) == Some(c) && Target(cur, c, source, item) < |cur.tasks|
    ensures var t := Target(cur, c, source, item);
      cur.tasks[t].course == c && OwnedBy(SeeItem(course, source, item), CourseIdOf(cur, t), cur.tasks[t])
  {
  }

  lemma StepKeepsState(db: Db, cur: Db, ops: seq<Op>, op: Op, key: Key, at: int, now: Instant)
    requires Sound(db) && Sound(cur) && |db.tasks| <= |cur.tasks| && AllApart(ops + [op]) && CountdownKind(key.kind)
    requires key.task < |cur.tasks| ==> KeyState(db, cur, ops, key, at, now)
    requires key.task < |Step(cur, op, now).tasks|
    ensures KeyState(db, Step(cur, op, now), ops + [op], key, at, now)
  {
    if op.SeeItem? && FindCourse(cur.courses, op.course).Some?
       && key.task == Target(cur, FindCourse(cur.courses, op.course).value, op.source, op.item) {
      var c := FindCourse(cur.courses, op.course).value;
      if key.task < |cur.tasks| {
        TargetIsOwned(cur, c, op.course, op.source, op.item);
        ListedOnce(ops, op, CourseIdOf(cur, key.task), cur.tasks[key.task]);
      }
      OwnItemKeepsState(db, cur, ops, c, op.course, op.source, op.item, key, at, now);
    } else {
      StepAddsTarget(cur, op, now, key.task);
      OtherOpKeepsState(db, cur, ops, op, key, at, now);
    }
  }

  lemma StepAddsTarget(cur: Db, op: Op, now: Instant, t: nat)
    requires t < |Step(cur, op, now).tasks|
    requires !(op.SeeItem? && FindCourse(cur.courses, op.course).Some?
               && t == Target(cur, FindCourse(cur.courses, op.course).value, op.source, op.item))
    ensures t < |cur.tasks|
  {
    if op.SeeItem? && FindCourse(cur.courses, op.course).Some? {
      ApplyItemWrites(cur, FindCourse(cur.courses, op.course).value, op.source, op.item, now);
    }
  }

  lemma StepGrows(cur: Db, op: Op, now: Instant)
    ensures |cur.tasks| <= |Step(cur, op, now).tasks|
  {
    if op.SeeItem? && FindCourse(cur.courses, op.course).Some? {
      ApplyItemWrites(cur, FindCourse(cur.courses, op.course).value, op.source, op.item, now);
    }
  }

  lemma {:induction false} RunGrows(db: Db, ops: seq<Op>, now: Instant)
    ensures |db.tasks| <= |RunOps(db, ops, now).tasks|
  {
    if ops != [] {
      RunGrows(db, ops[..|ops| - 1], now);
      StepGrows(RunOps(db, ops[..|ops| - 1], now), ops[|ops| - 1], now);
    }
  }

  lemma {:induction false} RunKeepsState(db: Db, ops: seq<Op>, key: Key, at: int, now: Instant)
    requires Sound(db) && AllApart(ops) && CountdownKind(key.kind) && forall i :: 0 <= i < |ops| ==> Proper(ops[i])
    requires key.task < |RunOps(db, ops, now).tasks|
    ensures KeyState(db, RunOps(db, ops, now), ops, key, at, now)
  {
    if ops != [] {
      var front, last := ops[..|ops| - 1], ops[|ops| - 1];
      var cur := RunOps(db, front, now);
      assert ops == front + [last];
      RunKeepsSound(db, front, now);
      RunGrows(db, front, now);
      if key.task < |cur.tasks| { RunKeepsState(db, front, key, at, now); }
      StepKeepsState(db, cur, front, last, key, at, now);
    }
  }

  // ------------------------------------------------------------- the end of a sync

  lemma ThreeWithdrawals(rs: seq<Reminder>, a: seq<nat>, b: seq<nat>, c: seq<nat>, key: Key, at: int)
    ensures PendingAt(Withdraw(Withdraw(Withdraw(rs, a, {}), b, {}), c, {}), key, at) <==>
            PendingAt(rs, key, at) && key.task !in a && key.task !in b && key.task !in c
  {
    WithdrawPending(rs, a, {}, key, at);
    WithdrawPending(Withdraw(rs, a, {}), b, {}, key, at);
    WithdrawPending(Withdraw(Withdraw(rs, a, {}), b, {}), c, {}, key, at);
  }

  lemma FinishReminders(ran: Db, now: Instant)
    ensures Finish(ran, now).reminders ==
            Withdraw(Withdraw(Withdraw(ran.reminders, BacklogIds(ran.tasks), {}), OverdueIds(ran.tasks, now), {}),
                     ClosedIds(Finish(ran, now).tasks), {})
  {
    assert Finish(ran, now).tasks == MarkMissed(DropBacklog(ran), now).tasks;
  }

  lemma TaskAtTheEnd(task: Task, after: Task, now: Instant)
    requires after == if Overdue(task, now) then Close(task, Missed, now) else task
    ensures after.deadline == task.deadline && (!Closed(after.status) ==> after == task)
    ensures Closed(after.status) || Backlog(after) <==> Closed(after.status) || Backlog(task) || Overdue(task, now)
  {
  }

  lemma FinishTask(ran: Db, now: Instant, t: nat)
    requires t < |ran.tasks|
    ensures var done := Finish(ran, now);
      && t < |done.tasks| && done.tasks[t].deadline == ran.tasks[t].deadline
      && (Closed(done.tasks[t].status) || Backlog(done.tasks[t]) <==>
            Closed(done.tasks[t].status) || Backlog(ran.tasks[t]) || Overdue(ran.tasks[t], now))
      && (!Closed(done.tasks[t].status) ==> done.tasks[t] == ran.tasks[t])
  {
    FinishRows(ran, now);
    TaskAtTheEnd(ran.tasks[t], Finish(ran, now).tasks[t], now);
  }

  /** What is pending for a task at the end of a sync is what was, if the task is open and was not past its deadline
      when found; otherwise nothing. */
  lemma FinishPending(ran: Db, now: Instant, key: Key, at: int)
    requires key.task < |ran.tasks|
    ensures var done := Finish(ran, now);
      && key.task < |done.tasks| && done.tasks[key.task].deadline == ran.tasks[key.task].deadline
      && (PendingAt(done.reminders, key, at) <==>
            PendingAt(ran.reminders, key, at)
            && !Closed(done.tasks[key.task].status) && !Backlog(done.tasks[key.task]))
      && (!Closed(done.tasks[key.task].status) ==> done.tasks[key.task] == ran.tasks[key.task])
  {
    var done := Finish(ran, now);
    FinishTask(ran, now, key.task);
    FinishReminders(ran, now);
    ThreeWithdrawals(ran.reminders, BacklogIds(ran.tasks), OverdueIds(ran.tasks, now), ClosedIds(done.tasks), key, at);
  }

  /** Neither completed, cancelled nor missed, and with no deadline or one that was still ahead when the task was
      found. */
  predicate StillReminds(task: Task) {
    task.status != Completed && task.status != Cancelled && task.status != Missed
    && (task.deadline.Some? ==> task.createdAt < task.deadline.value)
  }

  lemma StillRemindsIs(task: Task)
    ensures StillReminds(task) <==> !Closed(task.status) && !Backlog(task)
  {
  }

  lemma StateAtTheEnd(db: Db, ran: Db, done: Db, ops: seq<Op>, key: Key, at: int, now: Instant)
    requires KeyState(db, ran, ops, key, at, now)
    requires key.task < |done.tasks| && done.tasks[key.task].deadline == ran.tasks[key.task].deadline
    requires PendingAt(done.reminders, key, at) <==>
             PendingAt(ran.reminders, key, at) && !Closed(done.tasks[key.task].status) && !Backlog(done.tasks[key.task])
    requires !Closed(done.tasks[key.task].status) ==> done.tasks[key.task] == ran.tasks[key.task]
    ensures PendingAt(done.reminders, key, at) <==>
            StillReminds(done.tasks[key.task]) && Expected(db, done, key, at, now)
  {
    StillRemindsIs(done.tasks[key.task]);
  }

  /** The countdown of every task at the end of a sync. One that is closed, or was past its deadline when found, has
      none. Any other has, if the sync found it or changed its deadline, exactly the entries of the plan for that
      deadline at that moment whose key was free before; and if not, exactly what it had. */
  lemma CountdownAfterSync(db: Db, courses: seq<CourseListing>, now: Instant, key: Key, at: int)
    requires Sound(db) && Distinct(courses) && CountdownKind(key.kind)
    requires key.task < |Sync(db, courses, now).tasks|
    ensures var done := Sync(db, courses, now);
      var task := done.tasks[key.task];
      PendingAt(done.reminders, key, at) <==>
        && StillReminds(task)
        && if Changed(db, done, key.task) then Promised(task.deadline, key, at, now) && !Taken(db.reminders, key)
           else PendingAt(db.reminders, key, at)
  {
    var ops := AllOps(courses);
    var ran := RunOps(db, ops, now);
    AllOpsApart(courses);
    AllOpsProper(courses);
    FinishRows(ran, now);
    RunKeepsState(db, ops, key, at, now);
    FinishPending(ran, now, key, at);
    StateAtTheEnd(db, ran, Finish(ran, now), ops, key, at, now);
  }

  /** So a task the sync found, or moved to a deadline the task never held, has the whole countdown planned for it. */
  lemma FreshCountdownAfterSync(db: Db, courses: seq<CourseListing>, now: Instant, key: Key, at: int)
    requires Sound(db) && Distinct(courses) && CountdownKind(key.kind)
    requires var done := Sync(db, courses, now);
      && key.task < |done.tasks|
      && (key.task < |db.tasks| ==> !HeldBy(db, key.task, done.tasks[key.task].deadline))
    ensures var done := Sync(db, courses, now);
      var task := done.tasks[key.task];
      PendingAt(done.reminders, key, at) <==>
        StillReminds(task) && Promised(task.deadline, key, at, now)
  {
    CountdownAfterSync(db, courses, now, key, at);
    FreshKeysAreFree(db, Sync(db, courses, now).tasks[key.task].deadline, key);
  }

  lemma FreshKeysAreFree(db: Db, deadline: Option<Instant>, key: Key)
    requires Sound(db) && (key.task < |db.tasks| ==> !HeldBy(db, key.task, deadline))
    ensures key.anchor == ToDeadline(deadline) ==> !Taken(db.reminders, key)
  {
    if key.task >= |db.tasks| { NewTaskHasNoKeys(db, key); }
    else if key.anchor == ToDeadline(deadline) { TakenWasHeld(db, key); }
  }

  // --------------------------------------------------------- the status of new tasks

  function FirstStatus(source: Source): Status {
    if source == Coursework then ActionRequired else Discovered
  }

  /** A task found in this sync: listed, and as it was found unless a sweep took it. */
  predicate NewState(cur: Db, ops: seq<Op>, t: nat, now: Instant) {
    && t < |cur.tasks| && cur.tasks[t].course < |cur.courses| && cur.tasks[t].createdAt == now
    && Listed(ops, CourseIdOf(cur, t), cur.tasks[t])
    && (cur.tasks[t].status == FirstStatus(cur.tasks[t].source)
        || (cur.tasks[t].status == Cancelled && SomeHits(ops, CourseIdOf(cur, t), cur.tasks[t])))
  }

  lemma HitsStay(ops: seq<Op>, op: Op, course: string, task: Task, task': Task)
    requires SameIdentity(task, task')
    ensures SomeHits(ops + [op], course, task') <==> SomeHits(ops, course, task) || Hits(op, course, task)
  {
    SomeHitsConcat(ops, [op], course, task');
    assert SomeHits([op], course, task') <==> Hits([op][0], course, task');
    if i :| 0 <= i < |ops| && Hits(ops[i], course, task) { assert Hits(ops[i], course, task'); }
    if i :| 0 <= i < |ops| && Hits(ops[i], course, task') { assert Hits(ops[i], course, task); }
  }

  lemma StepKeepsNewState(cur: Db, ops: seq<Op>, op: Op, t: nat, now: Instant)
    requires Sound(cur) && NewState(cur, ops, t, now)
    ensures NewState(Step(cur, op, now), ops + [op], t, now)
  {
    var after := Step(cur, op, now);
    StepStatus(cur, op, t, now);
    ListedStays(ops, op, CourseIdOf(cur, t), cur.tasks[t], after.tasks[t]);
    HitsStay(ops, op, CourseIdOf(cur, t), cur.tasks[t], after.tasks[t]);
  }

  lemma StepFindsTask(cur: Db, ops: seq<Op>, op: Op, t: nat, now: Instant)
    requires Sound(cur) && |cur.tasks| <= t < |Step(cur, op, now).tasks|
    ensures NewState(Step(cur, op, now), ops + [op], t, now)
  {
    if op.SeeItem? && FindCourse(cur.courses, op.course).Some? {
      var c := FindCourse(cur.courses, op.course).value;
      ApplyItemWrites(cur, c, op.source, op.item, now);
      ItemOwns(cur, c, op.course, op.source, op.item, now);
      DiscoveredDeadline(cur, c, op.source, op.item, now);
      var after := Step(cur, op, now);
      ListedNow(ops, op, CourseIdOf(after, t), after.tasks[t]);
    }
  }

  lemma NewStateNext(cur: Db, ops: seq<Op>, op: Op, t: nat, now: Instant)
    requires Sound(cur) && (t < |cur.tasks| ==> NewState(cur, ops, t, now))
    requires t < |Step(cur, op, now).tasks|
    ensures NewState(Step(cur, op, now), ops + [op], t, now)
  {
    if t < |cur.tasks| { StepKeepsNewState(cur, ops, op, t, now); } else { StepFindsTask(cur, ops, op, t, now); }
  }

  lemma NewStateLast(cur: Db, after: Db, ops: seq<Op>, t: nat, now: Instant)
    requires ops != [] && after == Step(cur, ops[|ops| - 1], now) && t < |after.tasks|
    requires Sound(cur) && (t < |cur.tasks| ==> NewState(cur, ops[..|ops| - 1], t, now))
    ensures NewState(after, ops, t, now)
  {
    var front, last := ops[..|ops| - 1], ops[|ops| - 1];
    assert ops == front + [last];
    NewStateNext(cur, front, last, t, now);
  }

  lemma {:induction false} RunKeepsNewState(db: Db, ops: seq<Op>, t: nat, now: Instant)
    requires Sound(db) && forall i :: 0 <= i < |ops| ==> Proper(ops[i])
    requires |db.tasks| <= t < |RunOps(db, ops, now).tasks|
    ensures NewState(RunOps(db, ops, now), ops, t, now)
  {
    if ops != [] {
      var front := ops[..|ops| - 1];
      RunKeepsSound(db, front, now);
      if t < |RunOps(db, front, now).tasks| { RunKeepsNewState(db, front, t, now); }
      NewStateLast(RunOps(db, front, now), RunOps(db, ops, now), ops, t, now);
    }
  }

  /** A live course of that id lists the task's item in the task's source. */
  predicate ListsTask(c: CourseListing, course: string, task: Task) {
    && c.id == course && Live(c.state) && task.source != Manual
    && exists i :: 0 <= i < |Of(c, task.source).items| && task.externalId == Some(Of(c, task.source).items[i].id)
  }

  lemma CourseOpListed(c: CourseListing, op: Op, course: string, task: Task)
    requires op in CourseOps(c) && OwnedBy(op, course, task)
    ensures ListsTask(c, course, task)
  {
    var work, posts := ItemOps(c.id, Coursework, c.coursework.items),
                       ItemOps(c.id, Announcement, c.announcements.items);
    var notes := ItemOps(c.id, Material, c.materials.items);
    if op in work {
      var i :| 0 <= i < |work| && work[i] == op;
      assert Of(c, task.source).items[i] == op.item;
    } else if op in posts {
      var i :| 0 <= i < |posts| && posts[i] == op;
      assert Of(c, task.source).items[i] == op.item;
    } else if op in notes {
      var i :| 0 <= i < |notes| && notes[i] == op;
      assert Of(c, task.source).items[i] == op.item;
    }
  }

  lemma ListedConcat(a: seq<Op>, b: seq<Op>, course: string, task: Task)
    requires Listed(a + b, course, task)
    ensures Listed(a, course, task) || exists op :: op in b && OwnedBy(op, course, task)
  {
    var j :| 0 <= j < |a + b| && OwnedBy((a + b)[j], course, task);
    if j < |a| { assert OwnedBy(a[j], course, task); } else { assert b[j - |a|] in b; }
  }

  lemma {:induction false} ListedInCourses(courses: seq<CourseListing>, course: string, task: Task) returns (k: nat)
    requires Listed(AllOps(courses), course, task)
    ensures k < |courses| && ListsTask(courses[k], course, task)
  {
    var front, last := courses[..|courses| - 1], courses[|courses| - 1];
    ListedConcat(AllOps(front), CourseOps(last), course, task);
    if Listed(AllOps(front), course, task) {
      k := ListedInCourses(front, course, task);
    } else {
      var op :| op in CourseOps(last) && OwnedBy(op, course, task);
      CourseOpListed(last, op, course, task);
      k := |courses| - 1;
    }
  }

  /** What is listed is not missing. */
  lemma ListedIsNotMissing(courses: seq<CourseListing>, course: string, task: Task)
    requires Distinct(courses) && Listed(AllOps(courses), course, task)
    ensures !MissingFrom(courses, course, task)
  {
    var k := ListedInCourses(courses, course, task);
    forall j | 0 <= j < |courses| ensures !MissingFromCourse(courses[j], course, task) {
      if courses[j].id == course {
        assert j == k;
        var i :| 0 <= i < |Of(courses[k], task.source).items|
                 && task.externalId == Some(Of(courses[k], task.source).items[i].id);
        assert Of(courses[k], task.source).items[i].id in Ids(Of(courses[k], task.source).items);
      }
    }
  }

  /** The closing passes change a row's status only. */
  lemma FinishRow(ran: Db, t: nat, now: Instant)
    requires t < |Finish(ran, now).tasks|
    ensures Finish(ran, now).courses == ran.courses && |Finish(ran, now).tasks| == |ran.tasks|
    ensures var task, after := ran.tasks[t], Finish(ran, now).tasks[t];
      && SameIdentity(task, after) && after.deadline == task.deadline && after.createdAt == task.createdAt
      && after.status == (if Overdue(task, now) then Missed else task.status)
  {
    FinishRowIs(ran, t, now);
    MissedStatus(ran.tasks[t], Finish(ran, now).tasks[t], now);
  }

  /** No sweep takes what the same sync lists. */
  lemma NewStateAtTheEnd(ran: Db, courses: seq<CourseListing>, t: nat, now: Instant)
    requires Distinct(courses) && NewState(ran, AllOps(courses), t, now)
    ensures ran.tasks[t].status == FirstStatus(ran.tasks[t].source)
  {
    var task, course := ran.tasks[t], CourseIdOf(ran, t);
    ListedIsNotMissing(courses, course, task);
    var k := ListedInCourses(courses, course, task);
    SweepsAre(courses, course, task);
  }

  /** A task the sync itself creates ends it missed if its deadline had passed, and otherwise as it was found: open,
      or for an announcement or a material merely discovered. It is never cancelled. */
  lemma SyncDecidesNewStatus(db: Db, courses: seq<CourseListing>, t: nat, now: Instant)
    requires Sound(db) && Distinct(courses) && |db.tasks| <= t < |Sync(db, courses, now).tasks|
    ensures var task := Sync(db, courses, now).tasks[t];
      && task.status == (if task.deadline.Some? && task.deadline.value < now then Missed else FirstStatus(task.source))
      && task.createdAt == now
  {
    var ops := AllOps(courses);
    var ran := RunOps(db, ops, now);
    AllOpsProper(courses);
    FinishRow(ran, t, now);
    RunKeepsNewState(db, ops, t, now);
    NewStateAtTheEnd(ran, courses, t, now);
  }

  // ----------------------------------------------------------- what is not listed

  lemma {:induction false} SweepIsDone(courses: seq<CourseListing>, k: nat, source: Source)
    requires k < |courses| && Live(courses[k].state) && source != Manual && Of(courses[k], source).readable
    ensures Sweep(courses[k].id, source, Ids(Of(courses[k], source).items)) in AllOps(courses)
  {
    var before, last := courses[..|courses| - 1], courses[|courses| - 1];
    assert AllOps(courses) == AllOps(before) + CourseOps(last);
    if k < |before| {
      SweepIsDone(before, k, source);
    } else {
      var op := Sweep(last.id, source, Ids(Of(last, source).items));
      assert SweepOp(last, source) == [op] && op in SweepOp(last, source);
      assert op in Sweeps(last);
      assert forall x :: x in Sweeps(last) ==> x in CourseOps(last);
    }
  }

  /** After a sync every task of a readable source of a live course that the source does not list is COMPLETED or
      CANCELLED, whether it was stored before or not. */
  lemma UnlistedIsClosed(db: Db, courses: seq<CourseListing>, k: nat, source: Source, t: nat, now: Instant)
    requires Sound(db) && Distinct(courses)
    requires k < |courses| && Live(courses[k].state) && source != Manual && Of(courses[k], source).readable
    requires var done := Sync(db, courses, now);
      && t < |done.tasks| && done.tasks[t].source == source && done.tasks[t].course < |done.courses|
      && CourseIdOf(done, t) == courses[k].id
      && !(done.tasks[t].externalId.Some? && done.tasks[t].externalId.value in Ids(Of(courses[k], source).items))
    ensures Sync(db, courses, now).tasks[t].status in {Completed, Cancelled}
  {
    var ops, op := AllOps(courses), Sweep(courses[k].id, source, Ids(Of(courses[k], source).items));
    var ran, done := RunOps(db, ops, now), Sync(db, courses, now);
    AllOpsApart(courses);
    RunSettlesAll(db, ops, now);
    SweepIsDone(courses, k, source);
    FinishKeepsSettled(ran, op, now);
    SyncKeepsSound(db, courses, now);
    FoundIsOwn(done.courses, done.tasks[t].course, courses[k].id);
    assert !Unlisted(done.tasks[t], done.tasks[t].course, source, op.seen);
  }

  // ----------------------------------------------------- what every sync carries over

  /** No key is given up, and no round is recorded. */
  lemma StepCarriesOver(cur: Db, op: Op, key: Key, now: Instant)
    requires Sound(cur)
    ensures Step(cur, op, now).rounds == cur.rounds
    ensures Taken(cur.reminders, key) ==> Taken(Step(cur, op, now).reminders, key)
  {
    match op
    case SeeCourse(c) =>
    case SeeItem(course, source, item) =>
      var c := FindCourse(cur.courses, course);
      if c.Some? {
        ApplyItemWrites(cur, c.value, source, item, now);
        if key.task >= |cur.tasks| { NewTaskHasNoKeys(cur, key); }
        var found := FindTask(cur.tasks, c.value, source, item.id);
        if found.None? {
          if key.task != |cur.tasks| { DiscoverySparesOthers(cur, c.value, source, item, now, key, 0); }
        } else {
          UpdateReminders(cur, found.value, item, now);
          MoveTakes(cur, found.value, item, now, key);
        }
      }
    case Sweep(course, source, seen) =>
      var c := FindCourse(cur.courses, course);
      if c.Some? { WithdrawTaken(cur.reminders, UnlistedIds(cur.tasks, c.value, source, seen), {}, key); }
  }

  lemma {:induction false} RunCarriesOver(db: Db, ops: seq<Op>, key: Key, now: Instant)
    requires Sound(db) && forall i :: 0 <= i < |ops| ==> Proper(ops[i])
    ensures RunOps(db, ops, now).rounds == db.rounds
    ensures Taken(db.reminders, key) ==> Taken(RunOps(db, ops, now).reminders, key)
  {
    if ops != [] {
      RunKeepsSound(db, ops[..|ops| - 1], now);
      RunCarriesOver(db, ops[..|ops| - 1], key, now);
      StepCarriesOver(RunOps(db, ops[..|ops| - 1], now), ops[|ops| - 1], key, now);
    }
  }

  lemma SyncCarriesOver(db: Db, courses: seq<CourseListing>, key: Key, now: Instant)
    requires Sound(db)
    ensures Sync(db, courses, now).rounds == db.rounds
    ensures Taken(db.reminders, key) ==> Taken(Sync(db, courses, now).reminders, key)
  {
    var ops := AllOps(courses);
    var ran := RunOps(db, ops, now);
    AllOpsProper(courses);
    RunCarriesOver(db, ops, key, now);
    FinishRows(ran, now);
    FinishTaken(ran, now, key);
  }

  lemma FinishTaken(ran: Db, now: Instant, key: Key)
    ensures Taken(Finish(ran, now).reminders, key) <==> Taken(ran.reminders, key)
  {
    FinishReminders(ran, now);
    var a := Withdraw(ran.reminders, BacklogIds(ran.tasks), {});
    WithdrawTaken(ran.reminders, BacklogIds(ran.tasks), {}, key);
    WithdrawTaken(a, OverdueIds(ran.tasks, now), {}, key);
    WithdrawTaken(Withdraw(a, OverdueIds(ran.tasks, now), {}), ClosedIds(Finish(ran, now).tasks), {}, key);
  }

  /** A sync keeps what identifies a stored task and its course. */
  lemma SyncKeepsIdentity(db: Db, courses: seq<CourseListing>, t: nat, now: Instant)
    requires Sound(db) && t < |db.tasks|
    ensures Kept(db, Sync(db, courses, now), t)
  {
    var ran := RunOps(db, AllOps(courses), now);
    AllOpsProper(courses);
    RunStatus(db, AllOps(courses), t, now);
    FinishRows(ran, now);
    FinishRow(ran, t, now);
  }

  /** A live course is stored in the state it was listed in. */
  lemma CourseIsLive(db: Db, courses: seq<CourseListing>, k: nat, c: nat, now: Instant)
    requires Sound(db) && Distinct(courses) && k < |courses| && Live(courses[k].state)
    requires var done := Sync(db, courses, now);
      c < |done.courses| && done.courses[c].externalId == courses[k].id
    ensures Live(Sync(db, courses, now).courses[c].state)
  {
    var ops, done := AllOps(courses), Sync(db, courses, now);
    AllOpsApart(courses);
    RunSettlesAll(db, ops, now);
    CourseIsSeen(courses, k);
    FinishKeepsSettled(RunOps(db, ops, now), SeeCourse(courses[k]), now);
    SyncKeepsSound(db, courses, now);
    FoundIsOwn(done.courses, c, courses[k].id);
  }

  lemma {:induction false} CourseIsSeen(courses: seq<CourseListing>, k: nat)
    requires k < |courses|
    ensures SeeCourse(courses[k]) in AllOps(courses)
  {
    var before, last := courses[..|courses| - 1], courses[|courses| - 1];
    assert AllOps(courses) == AllOps(before) + CourseOps(last);
    if k < |before| { CourseIsSeen(before, k); } else { assert CourseOps(last)[0] == SeeCourse(last); }
  }
}
