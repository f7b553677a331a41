/** What the user does to a task, and what no sync undoes (ragra/web/app.py, ragra/db/repo.py). */
module UserActions {
  import opened Text
  import opened Instants
  import opened ReminderPlan
  import opened Records
  import opened Repo
  import opened Classroom
  import opened Resync
  import opened Outcome
  import opened SyncRows
  import opened Dispatch
  import opened Pipeline
  import opened Pings

  // ------------------------------------------------------- what a sync leaves alone

  /** Everything about the task that is the user's own and not the source's. */
  predicate SameEnding(a: Task, b: Task) {
    && a.status == b.status && a.completedAt == b.completedAt && a.cancelledAt == b.cancelledAt
    && a.missedAt == b.missedAt && a.createdAt == b.createdAt && a.personal == b.personal && SameIdentity(a, b)
  }

  predicate Ended(task: Task) {
    task.status == Completed || task.status == Cancelled
  }

  predicate ByUser(a: Action, t: nat) {
    match a
    case Complete(u, _) => u == t
    case Cancel(u, _) => u == t
    case Archive(u, _) => u == t
    case SetTarget(u, _, _) => u == t
    case EditManual(u, _, _, _, _) => u == t
    case _ => false
  }

  predicate KeepsEnding(before: Db, after: Db, t: nat) {
    t < |before.tasks| && t < |after.tasks| && SameEnding(before.tasks[t], after.tasks[t])
  }

  lemma ItemKeepsEnding(db: Db, course: nat, source: Source, item: Item, t: nat, now: Instant)
    requires t < |db.tasks|
    ensures KeepsEnding(db, ApplyItem(db, course, source, item, now), t)
  {
    var found := FindTask(db.tasks, course, source, item.id);
    if found.None? {
      DiscoverRow(db, course, source, item, now);
      assert ApplyItem(db, course, source, item, now).tasks[..|db.tasks|][t] == db.tasks[t];
    } else {
      UpdateRow(db, found.value, item, now);
    }
  }

  lemma StepKeepsEnding(db: Db, op: Op, t: nat, now: Instant)
    requires t < |db.tasks| && Ended(db.tasks[t])
    ensures KeepsEnding(db, Step(db, op, now), t)
  {
    match op
    case SeeCourse(c) =>
    case SeeItem(course, source, item) =>
      var c := FindCourse(db.courses, course);
      if c.Some? { ItemKeepsEnding(db, c.value, source, item, t, now); }
    case Sweep(course, source, seen) =>
      var c := FindCourse(db.courses, course);
      if c.Some? { SweepRow(db, c.value, source, seen, t, now); }
  }

  lemma {:induction false} RunKeepsEnding(db: Db, ops: seq<Op>, t: nat, now: Instant)
    requires t < |db.tasks| && Ended(db.tasks[t])
    ensures KeepsEnding(db, RunOps(db, ops, now), t)
  {
    if ops != [] {
      var front := ops[..|ops| - 1];
      RunKeepsEnding(db, front, t, now);
      StepKeepsEnding(RunOps(db, front, now), ops[|ops| - 1], t, now);
    }
  }

  lemma SyncKeepsEnding(db: Db, courses: seq<CourseListing>, t: nat, now: Instant)
    requires t < |db.tasks| && Ended(db.tasks[t])
    ensures KeepsEnding(db, Sync(db, courses, now), t)
  {
    var ran := RunOps(db, AllOps(courses), now);
    RunKeepsEnding(db, AllOps(courses), t, now);
    FinishRowIs(ran, t, now);
  }

  lemma ActKeepsEnding(db: Db, a: Action, t: nat)
    requires t < |db.tasks| && Ended(db.tasks[t]) && !ByUser(a, t)
    ensures KeepsEnding(db, Act(db, a), t)
  {
    match a
    case SyncFinished(courses, now) => SyncKeepsEnding(db, courses, t, now);
    case SyncInterrupted(courses, cut, now) => RunKeepsEnding(db, Prefix(AllOps(courses), cut), t, now);
    case _ => OthersKeepRow(db, a, t);
  }

  lemma OthersKeepRow(db: Db, a: Action, t: nat)
    requires t < |db.tasks| && !ByUser(a, t) && !a.SyncFinished? && !a.SyncInterrupted?
    ensures t < |Act(db, a).tasks| && Act(db, a).tasks[t] == db.tasks[t]
  {
  }

  /** A task that is completed or cancelled stays so, with its times, whatever syncs and dispatches come - listed again,
      moved, missing or overdue - until the user acts on it again. */
  lemma {:induction false} EndedStaysEnded(actions: seq<Action>, n: nat, t: nat)
    requires n <= |actions| && t < |After(actions[..n]).tasks| && Ended(After(actions[..n]).tasks[t])
    requires forall k :: n <= k < |actions| ==> !ByUser(actions[k], t)
    ensures KeepsEnding(After(actions[..n]), After(actions), t)
  {
    if n == |actions| {
      assert actions[..n] == actions;
    } else {
      var front := actions[..|actions| - 1];
      assert front[..n] == actions[..n];
      EndedStaysEnded(front, n, t);
      EndingGoesOn(After(actions[..n]), After(front), actions[|actions| - 1], t);
    }
  }

  lemma EndingGoesOn(first: Db, mid: Db, a: Action, t: nat)
    requires KeepsEnding(first, mid, t) && Ended(first.tasks[t]) && !ByUser(a, t)
    ensures KeepsEnding(first, Act(mid, a), t)
  {
    ActKeepsEnding(mid, a, t);
  }

  /** A row in the middle of a sync: with its old status and times, or newly cancelled now. */
  predicate SweptNow(was: Task, task: Task, now: Instant) {
    && task.completedAt == was.completedAt && task.missedAt == was.missedAt && task.createdAt == was.createdAt
    && if task.status == was.status then task.cancelledAt == was.cancelledAt
       else task.status == Cancelled && task.cancelledAt == Some(now)
  }

  lemma EndingKeepsSwept(was: Task, a: Task, b: Task, now: Instant)
    requires SameEnding(a, b) && SweptNow(was, a, now)
    ensures SweptNow(was, b, now)
  {
  }

  lemma SweepKeepsSwept(was: Task, a: Task, b: Task, unlisted: bool, now: Instant)
    requires SweptNow(was, a, now) && (unlisted ==> a.status != Cancelled)
    requires b == if unlisted then Close(a, Cancelled, now) else a
    ensures SweptNow(was, b, now)
  {
  }

  lemma StepTimes(was: Task, db: Db, op: Op, t: nat, now: Instant)
    requires t < |db.tasks| && SweptNow(was, db.tasks[t], now)
    ensures t < |Step(db, op, now).tasks| && SweptNow(was, Step(db, op, now).tasks[t], now)
  {
    match op
    case SeeCourse(c) =>
    case SeeItem(course, source, item) =>
      var c := FindCourse(db.courses, course);
      if c.Some? {
        ItemKeepsEnding(db, c.value, source, item, t, now);
        EndingKeepsSwept(was, db.tasks[t], Step(db, op, now).tasks[t], now);
      }
    case Sweep(course, source, seen) =>
      var c := FindCourse(db.courses, course);
      if c.Some? {
        SweepRow(db, c.value, source, seen, t, now);
        var unlisted := Unlisted(db.tasks[t], c.value, source, seen);
        SweepKeepsSwept(was, db.tasks[t], Step(db, op, now).tasks[t], unlisted, now);
      }
  }

  lemma {:induction false} RunTimes(db: Db, ops: seq<Op>, t: nat, now: Instant)
    requires t < |db.tasks|
    ensures t < |RunOps(db, ops, now).tasks| && SweptNow(db.tasks[t], RunOps(db, ops, now).tasks[t], now)
  {
    if ops != [] {
      RunTimes(db, ops[..|ops| - 1], t, now);
      StepTimes(db.tasks[t], RunOps(db, ops[..|ops| - 1], now), ops[|ops| - 1], t, now);
    }
  }

  /** A sync dates what it closes: a task it cancels or finds missed gets that time, and no other time changes. */
  lemma SyncDatesItsClosings(db: Db, courses: seq<CourseListing>, t: nat, now: Instant)
    requires t < |db.tasks|
    ensures t < |Sync(db, courses, now).tasks|
    ensures var was, task := db.tasks[t], Sync(db, courses, now).tasks[t];
      && task.completedAt == was.completedAt && task.createdAt == was.createdAt
      && task.cancelledAt == (if task.status == Cancelled && was.status != Cancelled then Some(now)
                              else was.cancelledAt)
      && task.missedAt == (if task.status == Missed && was.status != Missed then Some(now) else was.missedAt)
  {
    var ran := RunOps(db, AllOps(courses), now);
    RunTimes(db, AllOps(courses), t, now);
    FinishRowIs(ran, t, now);
    MissedKeepsTimes(db.tasks[t], ran.tasks[t], Finish(ran, now).tasks[t], now);
  }

  lemma MissedKeepsTimes(was: Task, a: Task, task: Task, now: Instant)
    requires SweptNow(was, a, now) && task == if Overdue(a, now) then Close(a, Missed, now) else a
    ensures task.completedAt == was.completedAt && task.createdAt == was.createdAt
    ensures task.cancelledAt == (if task.status == Cancelled && was.status != Cancelled then Some(now)
                                 else was.cancelledAt)
    ensures task.missedAt == (if task.status == Missed && was.status != Missed then Some(now) else was.missedAt)
  {
  }

  // ------------------------------------------------------------ what the user does

  /** Nothing but the task, its history and its reminders is touched. */
  predicate OnlyTask(db: Db, after: Db, t: nat, task: Task, changes: seq<Change>, now: Instant) {
    && after.courses == db.courses && after.rounds == db.rounds
    && t < |db.tasks| && after.tasks == db.tasks[t := task]
    && |after.history| == |db.history| + |changes| && after.history[..|db.history|] == db.history
    && forall i :: 0 <= i < |changes| ==> after.history[|db.history| + i] == HistoryRow(t, now, changes[i])
  }

  /** What the task had pending is CANCELLED, and every other reminder as it was. */
  predicate Silenced(db: Db, after: Db, t: nat) {
    && |after.reminders| == |db.reminders|
    && forall j :: 0 <= j < |db.reminders| ==>
         after.reminders[j] == if db.reminders[j].state == Pending && db.reminders[j].key.task == t
                               then db.reminders[j].(state := Withdrawn) else db.reminders[j]
  }

  lemma CloseOne(db: Db, t: nat, to: Status, now: Instant)
    requires t < |db.tasks|
    ensures OnlyTask(db, CloseAll(db, [t], to, now), t, Close(db.tasks[t], to, now), [StatusSet(None, to)], now)
    ensures Silenced(db, CloseAll(db, [t], to, now), t)
  {
    assert CloseAll(db, [t], to, now).tasks == db.tasks[t := Close(db.tasks[t], to, now)];
  }

  /** Completing any task, and cancelling one of the user's own: status and time are set, one history row is added, and
      what it had pending is withdrawn. A task from Classroom cannot be cancelled. */
  lemma ClosingByUser(db: Db, t: nat, now: Instant)
    requires t < |db.tasks|
    ensures var task, done, gone := db.tasks[t], Act(db, Action.Complete(t, now)), Act(db, Action.Cancel(t, now));
      && OnlyTask(db, done, t, task.(status := Completed, completedAt := Some(now), updatedAt := now),
                  [StatusSet(None, Completed)], now)
      && Silenced(db, done, t)
      && (task.source != Manual ==> gone == db)
      && (task.source == Manual ==>
            && OnlyTask(db, gone, t, task.(status := Cancelled, cancelledAt := Some(now), updatedAt := now),
                        [StatusSet(None, Cancelled)], now)
            && Silenced(db, gone, t))
  {
    CloseOne(db, t, Completed, now);
    CloseOne(db, t, Cancelled, now);
  }

  /** So a task once completed is COMPLETED at that time for good, unless the user acts on it again, and what it had
      pending is never sent. */
  lemma CompletedForGood(actions: seq<Action>, n: nat, t: nat, now: Instant, j: nat)
    requires n < |actions| && actions[n] == Action.Complete(t, now) && t < |After(actions[..n]).tasks|
    requires forall k :: n < k < |actions| ==> !ByUser(actions[k], t)
    ensures t < |After(actions).tasks|
    ensures After(actions).tasks[t].status == Completed && After(actions).tasks[t].completedAt == Some(now)
    ensures var rs := After(actions[..n]).reminders;
      j < |rs| && rs[j].key.task == t && rs[j].state == Pending ==>
        j < |After(actions).reminders| && After(actions).reminders[j] == rs[j].(state := Withdrawn)
  {
    var before, done := After(actions[..n]), After(actions[..n + 1]);
    assert actions[..n + 1][..n] == actions[..n];
    assert done == Act(before, Action.Complete(t, now));
    ClosingByUser(before, t, now);
    EndedStaysEnded(actions, n + 1, t);
    if j < |before.reminders| && before.reminders[j].key.task == t && before.reminders[j].state == Pending {
      SilencedForGood(actions, n + 1, before, t, j);
    }
  }

  lemma SilencedForGood(actions: seq<Action>, n: nat, before: Db, t: nat, j: nat)
    requires n <= |actions| && Silenced(before, After(actions[..n]), t)
    requires j < |before.reminders| && before.reminders[j].key.task == t && before.reminders[j].state == Pending
    ensures j < |After(actions).reminders|
    ensures After(actions).reminders[j] == before.reminders[j].(state := Withdrawn)
  {
    FinalRowsStayInEveryRun(actions, n, j);
  }

  /** Archiving sets the status once; a target is noted and turns a task that asks for action into a planned one;
      neither touches a reminder. */
  lemma ArchiveAndTarget(db: Db, t: nat, target: string, now: Instant)
    requires t < |db.tasks|
    ensures var task, put, aimed := db.tasks[t], Act(db, Action.Archive(t, now)), Act(db, SetTarget(t, target, now));
      && put.reminders == db.reminders && aimed.reminders == db.reminders
      && (task.status == Archived ==> put == db)
      && (task.status != Archived ==>
            OnlyTask(db, put, t, task.(status := Archived, updatedAt := now),
                     [StatusSet(Some(task.status), Archived)], now))
      && OnlyTask(db, aimed, t,
                  task.(personal := Some(target), updatedAt := now,
                        status := if task.status == ActionRequired then Targeted else task.status),
                  [PersonalSet(task.personal, target)], now)
  {
  }

  /** A task of the user's own is edited field by field; a blank title, or a task from Classroom, is refused. */
  lemma EditByUser(db: Db, t: nat, title: string, description: Option<string>, deadline: Option<Instant>, now: Instant)
    requires t < |db.tasks|
    ensures var task, after := db.tasks[t], Act(db, EditManual(t, title, description, deadline, now));
      if task.source != Manual || AllSpace(title) then after == db
      else && after.reminders == db.reminders && t < |after.tasks|
           && (forall i :: 0 <= i < |db.tasks| && i != t ==> i < |after.tasks| && after.tasks[i] == db.tasks[i])
           && after.tasks[t] == task.(title := Strip(title), updatedAt := now,
                                      description := if description.None? then task.description else description,
                                      deadline := if deadline.None? then task.deadline else deadline)
           && (forall h :: HistoryIsDifference(db, after, h, now))
  {
    BlankIsEmpty(title);
    if db.tasks[t].source == Manual && Strip(title) != "" {
      var task := EditedManual(db.tasks[t], title, description, deadline, now);
      var after := SetTask(db, t, task, Changes(db.tasks[t], task), now);
      forall h ensures HistoryIsDifference(db, after, h, now) { RewriteHistory(db, after, t, task, now, h); }
    }
  }

  /** A new task of the user's own: titled, planned if it has a target, in the one course of such tasks, with a history
      row and no reminder; a blank title is refused. */
  lemma NewByUser(db: Db, title: string, description: Option<string>, deadline: Option<Instant>,
                  target: Option<string>, now: Instant)
    ensures var after, t := Act(db, NewManual(title, description, deadline, target, now)), |db.tasks|;
      if AllSpace(title) then after == db
      else && |after.tasks| == t + 1 && after.tasks[..t] == db.tasks
           && after.reminders == db.reminders && after.rounds == db.rounds
           && after.history == db.history + [HistoryRow(t, now, Created(Strip(title)))]
           && after.tasks[t] ==
                Task(after.tasks[t].course, Manual, None, Strip(title), description, None, deadline, target, None,
                     if target.None? || target.value == "" then ActionRequired else Targeted, Unjudged, now, now,
                     None, None, None)
           && after.tasks[t].course < |after.courses|
           && after.courses[after.tasks[t].course].externalId == "__personal__"
           && after.courses == (if FindCourse(db.courses, "__personal__").Some? then db.courses
                                else db.courses + [Course("__personal__", "Personal", None, "ACTIVE", now, now)])
  {
    BlankIsEmpty(title);
  }
}
