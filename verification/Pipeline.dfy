/** Whole runs of the reminder pipeline: syncs, dispatch passes and what the user does in between, in any
    order (ragra/cli.py, ragra/web/app.py). */
module Pipeline {
  import opened Text
  import opened Instants
  import opened ReminderPlan
  import opened Records
  import opened Repo
  import opened Classroom
  import opened Resync
  import opened Outcome
  import opened Dispatch

  datatype Action =
    | SyncFinished(courses: seq<CourseListing>, now: Instant)
    | SyncInterrupted(courses: seq<CourseListing>, cut: nat, now: Instant)
    | DispatchPass(now: Instant, providers: nat, answer: (nat, nat) -> bool)
    | Complete(task: nat, now: Instant)
    | Cancel(task: nat, now: Instant)
    | Archive(task: nat, now: Instant)
    | SetTarget(task: nat, target: string, now: Instant)
    | NewManual(title: string, description: Option<string>, deadline: Option<Instant>,
                personal: Option<string>, now: Instant)
    | EditManual(task: nat, title: string, description: Option<string>, deadline: Option<Instant>, now: Instant)

  // ------------------------------------------------------------ user actions

  /** The complete route: any task, with everything it still had to send. */
  function CompleteTask(db: Db, t: nat, now: Instant): Db {
    if t < |db.tasks| then CloseAll(db, [t], Completed, now) else db
  }

  /** The cancel route: a task from Classroom is refused. */
  function CancelTask(db: Db, t: nat, now: Instant): Db {
    if t < |db.tasks| && db.tasks[t].source == Manual then CloseAll(db, [t], Cancelled, now) else db
  }

  function ArchiveTask(db: Db, t: nat, now: Instant): Db {
    if t < |db.tasks| && db.tasks[t].status != Archived
    then SetTask(db, t, db.tasks[t].(status := Archived, updatedAt := now),
                 [StatusSet(Some(db.tasks[t].status), Archived)], now)
    else db
  }

  function SetPersonalTarget(db: Db, t: nat, target: string, now: Instant): Db {
    if t < |db.tasks| then
      var status := if db.tasks[t].status == ActionRequired then Targeted else db.tasks[t].status;
      SetTask(db, t, db.tasks[t].(personal := Some(target), status := status, updatedAt := now),
              [PersonalSet(db.tasks[t].personal, target)], now)
    else db
  }

  /** The pseudo-course of manual tasks, created on demand. */
  function WithPersonalCourse(db: Db, now: Instant): Db {
    if FindCourse(db.courses, PERSONAL_COURSE).Some? then db
    else db.(courses := db.courses + [Course(PERSONAL_COURSE, "Personal", None, "ACTIVE", now, now)])
  }

  function ManualTask(course: nat, title: string, description: Option<string>, deadline: Option<Instant>,
                      target: Option<string>, now: Instant): Task {
    Task(course, Manual, None, title, description, None, deadline, target, None,
         if target.Some? && target.value != "" then Targeted else ActionRequired, Unjudged, now, now, None, None, None)
  }

  function AddManual(db: Db, title: string, description: Option<string>, deadline: Option<Instant>,
                     target: Option<string>, now: Instant): Db {
    if Strip(title) == "" then db
    else
      var with := WithPersonalCourse(db, now);
      var course := FindCourse(with.courses, PERSONAL_COURSE);
      if course.None? then db
      else AddTask(with, ManualTask(course.value, Strip(title), description, deadline, target, now), now)
  }

  function EditedManual(task: Task, title: string, description: Option<string>, deadline: Option<Instant>,
                        now: Instant): Task
  {
    task.(title := Strip(title), description := if description.Some? then description else task.description,
          deadline := if deadline.Some? then deadline else task.deadline, updatedAt := now)
  }

  function EditManualTask(db: Db, t: nat, title: string, description: Option<string>, deadline: Option<Instant>,
                          now: Instant): Db
  {
    if t < |db.tasks| && db.tasks[t].source == Manual && Strip(title) != "" then
      var task := EditedManual(db.tasks[t], title, description, deadline, now);
      SetTask(db, t, task, Changes(db.tasks[t], task), now)
    else db
  }

  function Prefix<T>(s: seq<T>, n: nat): seq<T> {
    if n < |s| then s[..n] else s
  }

  function Act(db: Db, a: Action): Db {
    match a
    case SyncFinished(courses, now) => Sync(db, courses, now)
    case SyncInterrupted(courses, cut, now) => RunOps(db, Prefix(AllOps(courses), cut), now)
    case DispatchPass(now, providers, answer) => SendDue(db, now, providers, answer)
    case Complete(t, now) => CompleteTask(db, t, now)
    case Cancel(t, now) => CancelTask(db, t, now)
    case Archive(t, now) => ArchiveTask(db, t, now)
    case SetTarget(t, target, now) => SetPersonalTarget(db, t, target, now)
    case NewManual(title, description, deadline, target, now) =>
      AddManual(db, title, description, deadline, target, now)
    case EditManual(t, title, description, deadline, now) => EditManualTask(db, t, title, description, deadline, now)
  }

  function Start(): Db {
    Db([], [], [], [], [])
  }

  function After(actions: seq<Action>): Db {
    if actions == [] then Start() else Act(After(actions[..|actions| - 1]), actions[|actions| - 1])
  }

  // ------------------------------------------------- invariants of every run

  /** No reminder belongs to a manual task, so editing one may move its deadline freely. */
  lemma ManualEditKeepsSound(db: Db, t: nat, task: Task, changes: seq<Change>, now: Instant)
    requires Sound(db) && t < |db.tasks| && db.tasks[t].source == Manual && SameIdentity(db.tasks[t], task)
    ensures Sound(SetTask(db, t, task, changes, now))
  {
    var after := SetTask(db, t, task, changes, now);
    AccountsStay(db, after);
    forall j | 0 <= j < |after.reminders| ensures Anchored(after, after.reminders[j]) {
      var r := db.reminders[j];
      assert Anchored(db, r) && r.key.task != t;
      if r.key.anchor.ToDeadline? && db.tasks[r.key.task].deadline != r.key.anchor.deadline {
        var h :| h in db.history && h.task == r.key.task && h.change.DeadlineMoved?
                 && (h.change.oldDeadline == r.key.anchor.deadline || h.change.newDeadline == r.key.anchor.deadline);
        assert h in after.history;
      }
    }
  }

  lemma AddManualKeepsSound(db: Db, title: string, description: Option<string>, deadline: Option<Instant>,
                            target: Option<string>, now: Instant)
    requires Sound(db)
    ensures Sound(AddManual(db, title, description, deadline, target, now))
  {
    var with := WithPersonalCourse(db, now);
    CoursesKeepSound(db, with.courses);
    assert with == db.(courses := with.courses);
    var course := FindCourse(with.courses, PERSONAL_COURSE);
    if Strip(title) != "" && course.Some? {
      AddTaskKeepsSound(with, ManualTask(course.value, Strip(title), description, deadline, target, now), now);
    }
  }

  /** An action of the person, other than completing and cancelling. */
  predicate IsEdit(a: Action) {
    a.Archive? || a.SetTarget? || a.NewManual? || a.EditManual?
  }

  lemma EditKeepsSound(db: Db, a: Action)
    requires Sound(db) && IsEdit(a)
    ensures Sound(Act(db, a))
  {
    match a
    case Archive(t, now) =>
      ArchiveKeepsSound(db, t, now);
      assert Act(db, a) == ArchiveTask(db, t, now);
    case SetTarget(t, target, now) =>
      TargetKeepsSound(db, t, target, now);
      assert Act(db, a) == SetPersonalTarget(db, t, target, now);
    case NewManual(title, description, deadline, target, now) =>
      AddManualKeepsSound(db, title, description, deadline, target, now);
      assert Act(db, a) == AddManual(db, title, description, deadline, target, now);
    case EditManual(t, title, description, deadline, now) =>
      EditManualKeepsSound(db, t, title, description, deadline, now);
      assert Act(db, a) == EditManualTask(db, t, title, description, deadline, now);
  }

  lemma EditManualKeepsSound(db: Db, t: nat, title: string, description: Option<string>, deadline: Option<Instant>,
                             now: Instant)
    requires Sound(db)
    ensures Sound(EditManualTask(db, t, title, description, deadline, now))
  {
    if t < |db.tasks| && db.tasks[t].source == Manual && Strip(title) != "" {
      var task := EditedManual(db.tasks[t], title, description, deadline, now);
      ManualEditKeepsSound(db, t, task, Changes(db.tasks[t], task), now);
    }
  }

  lemma ArchiveKeepsSound(db: Db, t: nat, now: Instant)
    requires Sound(db)
    ensures Sound(ArchiveTask(db, t, now))
  {
    if t < |db.tasks| && db.tasks[t].status != Archived {
      SetTaskKeepsSound(db, t, db.tasks[t].(status := Archived, updatedAt := now),
                        [StatusSet(Some(db.tasks[t].status), Archived)], now);
    }
  }

  lemma TargetKeepsSound(db: Db, t: nat, target: string, now: Instant)
    requires Sound(db)
    ensures Sound(SetPersonalTarget(db, t, target, now))
  {
    if t < |db.tasks| {
      var status := if db.tasks[t].status == ActionRequired then Targeted else db.tasks[t].status;
      SetTaskKeepsSound(db, t, db.tasks[t].(personal := Some(target), status := status, updatedAt := now),
                        [PersonalSet(db.tasks[t].personal, target)], now);
    }
  }

  lemma ActKeepsSound(db: Db, a: Action)
    requires Sound(db)
    ensures Sound(Act(db, a))
  {
    match a
    case SyncFinished(courses, now) => SyncKeepsSound(db, courses, now);
    case SyncInterrupted(courses, cut, now) => BrokenOffKeepsSound(db, courses, cut, now);
    case DispatchPass(now, providers, answer) => DispatchKeepsSound(db, now, providers, answer);
    case Complete(t, now) =>
      if t < |db.tasks| { CloseAllKeepsSound(db, [t], Completed, now); }
    case Cancel(t, now) =>
      CloseAllKeepsSound(db, [t], Cancelled, now);
    case _ => EditKeepsSound(db, a);
  }

  lemma BrokenOffKeepsSound(db: Db, courses: seq<CourseListing>, cut: nat, now: Instant)
    requires Sound(db)
    ensures Sound(RunOps(db, Prefix(AllOps(courses), cut), now))
  {
    AllOpsProper(courses);
    RunKeepsSound(db, Prefix(AllOps(courses), cut), now);
  }

  /** Every reachable state is sound, also where a sync broke off in the middle. */
  lemma {:induction false} EveryRunIsSound(actions: seq<Action>)
    ensures Sound(After(actions))
  {
    if actions != [] {
      EveryRunIsSound(actions[..|actions| - 1]);
      ActKeepsSound(After(actions[..|actions| - 1]), actions[|actions| - 1]);
    }
  }

  // ------------------------------------------------------------------- quiet

  lemma PassOnlyTakesPending(db: Db, now: Instant, providers: nat, answer: (nat, nat) -> bool, j: nat)
    requires j < |SendDue(db, now, providers, answer).reminders|
    ensures |SendDue(db, now, providers, answer).reminders| == |db.reminders|
    ensures var after := SendDue(db, now, providers, answer);
      && after.tasks == db.tasks && after.reminders[j].key == db.reminders[j].key
      && (after.reminders[j].state == Pending ==> db.reminders[j].state == Pending)
  {
    DispatchRow(db, j, now, providers, answer);
  }

  lemma DispatchKeepsQuiet(db: Db, now: Instant, providers: nat, answer: (nat, nat) -> bool)
    requires Quiet(db)
    ensures Quiet(SendDue(db, now, providers, answer))
  {
    var after := SendDue(db, now, providers, answer);
    forall j | 0 <= j < |after.reminders| && after.reminders[j].state == Pending
        && after.reminders[j].key.task < |after.tasks|
      ensures !Closed(after.tasks[after.reminders[j].key.task].status)
    {
      PassOnlyTakesPending(db, now, providers, answer, j);
    }
  }

  lemma ClosingKeepsQuiet(db: Db, t: nat, to: Status, now: Instant)
    requires Quiet(db)
    ensures Quiet(CloseAll(db, [t], to, now))
  {
  }

  lemma RewritingKeepsQuiet(db: Db, t: nat, task: Task, changes: seq<Change>, now: Instant)
    requires Quiet(db) && t < |db.tasks|
    requires Closed(task.status) ==> Closed(db.tasks[t].status)
    ensures Quiet(SetTask(db, t, task, changes, now))
  {
  }

  /** Every action that is not a broken-off sync leaves no closed task with something to send. */
  lemma ActKeepsQuiet(db: Db, a: Action)
    requires Sound(db) && !a.SyncInterrupted?
    requires Quiet(db) || a.SyncFinished?
    ensures Quiet(Act(db, a))
  {
    match a
    case SyncFinished(courses, now) => SyncQuietens(db, courses, now);
    case DispatchPass(now, providers, answer) => DispatchKeepsQuiet(db, now, providers, answer);
    case Complete(t, now) => ClosingKeepsQuiet(db, t, Completed, now);
    case Cancel(t, now) => ClosingKeepsQuiet(db, t, Cancelled, now);
    case _ => EditKeepsQuiet(db, a);
  }

  lemma EditKeepsQuiet(db: Db, a: Action)
    requires Sound(db) && Quiet(db) && IsEdit(a)
    ensures Quiet(Act(db, a))
  {
    match a
    case Archive(t, now) => ArchiveKeepsQuiet(db, t, now);
    case SetTarget(t, target, now) => TargetKeepsQuiet(db, t, target, now);
    case NewManual(title, description, deadline, target, now) =>
      NewTasksAreQuiet(db, title, description, deadline, target, now);
    case EditManual(t, title, description, deadline, now) =>
      if t < |db.tasks| {
        var task := EditedManual(db.tasks[t], title, description, deadline, now);
        RewritingKeepsQuiet(db, t, task, Changes(db.tasks[t], task), now);
      }
  }

  lemma ArchiveKeepsQuiet(db: Db, t: nat, now: Instant)
    requires Quiet(db)
    ensures Quiet(ArchiveTask(db, t, now))
  {
    if t < |db.tasks| {
      RewritingKeepsQuiet(db, t, db.tasks[t].(status := Archived, updatedAt := now),
                          [StatusSet(Some(db.tasks[t].status), Archived)], now);
    }
  }

  lemma TargetKeepsQuiet(db: Db, t: nat, target: string, now: Instant)
    requires Quiet(db)
    ensures Quiet(SetPersonalTarget(db, t, target, now))
  {
    if t < |db.tasks| {
      var status := if db.tasks[t].status == ActionRequired then Targeted else db.tasks[t].status;
      RewritingKeepsQuiet(db, t, db.tasks[t].(personal := Some(target), status := status, updatedAt := now),
                          [PersonalSet(db.tasks[t].personal, target)], now);
    }
  }

  lemma NewTasksAreQuiet(db: Db, title: string, description: Option<string>, deadline: Option<Instant>,
                         target: Option<string>, now: Instant)
    requires Sound(db) && Quiet(db)
    ensures Quiet(AddManual(db, title, description, deadline, target, now))
  {
    var after := AddManual(db, title, description, deadline, target, now);
    forall j | 0 <= j < |after.reminders| && after.reminders[j].state == Pending
      ensures !Closed(after.tasks[after.reminders[j].key.task].status)
    {
      assert Anchored(db, db.reminders[j]);
    }
  }

  /** Between steps: a completed, cancelled or missed task has no pending reminder, in every run whose last
      broken-off sync, if there is any, was followed by a finished one. */
  predicate Recovered(actions: seq<Action>) {
    actions == [] || actions[|actions| - 1].SyncFinished?
    || (!actions[|actions| - 1].SyncInterrupted? && Recovered(actions[..|actions| - 1]))
  }

  lemma {:induction false} EveryRunIsQuiet(actions: seq<Action>)
    requires Recovered(actions)
    ensures Quiet(After(actions))
  {
    if actions != [] {
      var before, last := actions[..|actions| - 1], actions[|actions| - 1];
      EveryRunIsSound(before);
      if !last.SyncFinished? { EveryRunIsQuiet(before); }
      ActKeepsQuiet(After(before), last);
    }
  }

  // --------------------------------------------------------------- delivery

  lemma RunEvolves(db: Db, ops: seq<Op>, now: Instant, j: nat)
    requires j < |db.reminders| && db.reminders[j].state != Pending
    ensures var after := RunOps(db, ops, now);
            j < |after.reminders| && after.reminders[j] == db.reminders[j]
    decreases |ops|
  {
    if ops != [] {
      var before := RunOps(db, ops[..|ops| - 1], now);
      RunEvolves(db, ops[..|ops| - 1], now, j);
      StepKeepsClosedRow(before, ops[|ops| - 1], now, j);
    }
  }

  lemma ScheduleKeepsRow(db: Db, t: nat, deadline: Option<Instant>, now: Instant, j: nat)
    requires j < |db.reminders|
    ensures var after := Schedule(db, t, deadline, now);
            j < |after.reminders| && after.reminders[j] == db.reminders[j]
  {
    if deadline.Some? { InsertPlanAdds(db.reminders, t, deadline.value, Plan(deadline.value, now), now); }
  }

  lemma StepKeepsClosedRow(db: Db, op: Op, now: Instant, j: nat)
    requires j < |db.reminders| && db.reminders[j].state != Pending
    ensures var after := Step(db, op, now);
            j < |after.reminders| && after.reminders[j] == db.reminders[j]
  {
    if op.SeeItem? && FindCourse(db.courses, op.course).Some? {
      var c := FindCourse(db.courses, op.course).value;
      var found := FindTask(db.tasks, c, op.source, op.item.id);
      if found.None? {
        var t := |db.tasks|;
        var added := SetRelevance(AddTask(db, NewTask(c, op.source, op.item, now), now), t, op.item.verdict, now);
        var alerted := if FeedAlert(op.source, op.item, now) then InsertReminder(added, FeedKey(t, op.source), now, now)
                       else added;
        ScheduleKeepsRow(alerted, t, Deadline(op.source, op.item), now, j);
      } else {
        MoveKeepsClosedRow(db, found.value, op.item, now, j);
      }
    }
  }

  lemma MoveKeepsClosedRow(db: Db, t: nat, item: Item, now: Instant, j: nat)
    requires t < |db.tasks| && j < |db.reminders| && db.reminders[j].state != Pending
    ensures var after := Update(db, t, item, now);
            j < |after.reminders| && after.reminders[j] == db.reminders[j]
  {
    MoveReminders(db, t, item, now);
    var deadline := Refreshed(db.tasks[t], item, now).deadline;
    var told := Insert(Withdraw(db.reminders, [t], {NewAssignment}),
                       Key(t, DeadlineChanged, ToDeadline(deadline)), now, now);
    if deadline.Some? { InsertPlanAdds(told, t, deadline.value, Plan(deadline.value, now), now); }
  }

  /** The row is still there, unchanged in every column. */
  predicate KeepsRow(db: Db, after: Db, j: nat)
    requires j < |db.reminders|
  {
    j < |after.reminders| && after.reminders[j] == db.reminders[j]
  }

  lemma WithdrawKeepsClosedRow(rs: seq<Reminder>, which: seq<nat>, j: nat)
    requires j < |rs| && rs[j].state != Pending
    ensures Withdraw(rs, which, {})[j] == rs[j]
  {
  }

  lemma FinishKeepsClosedRow(db: Db, now: Instant, j: nat)
    requires j < |db.reminders| && db.reminders[j].state != Pending
    ensures KeepsRow(db, Finish(db, now), j)
  {
    var a := DropBacklog(db);
    var b := MarkMissed(a, now);
    WithdrawKeepsClosedRow(db.reminders, BacklogIds(db.tasks), j);
    WithdrawKeepsClosedRow(a.reminders, OverdueIds(a.tasks, now), j);
    WithdrawKeepsClosedRow(b.reminders, ClosedIds(b.tasks), j);
  }

  lemma SyncKeepsClosedRow(db: Db, courses: seq<CourseListing>, now: Instant, j: nat)
    requires j < |db.reminders| && db.reminders[j].state != Pending
    ensures KeepsRow(db, Sync(db, courses, now), j)
  {
    RunEvolves(db, AllOps(courses), now, j);
    FinishKeepsClosedRow(RunOps(db, AllOps(courses), now), now, j);
  }

  lemma DispatchKeepsClosedRow(db: Db, now: Instant, providers: nat, answer: (nat, nat) -> bool, j: nat)
    requires j < |db.reminders| && db.reminders[j].state != Pending
    ensures KeepsRow(db, SendDue(db, now, providers, answer), j)
  {
    DispatchRow(db, j, now, providers, answer);
  }

  lemma ClosingKeepsClosedRow(db: Db, t: nat, to: Status, now: Instant, j: nat)
    requires j < |db.reminders| && db.reminders[j].state != Pending
    ensures KeepsRow(db, CloseAll(db, [t], to, now), j)
  {
    WithdrawKeepsClosedRow(db.reminders, [t], j);
  }

  /** An action of the person, other than completing and cancelling, touches no reminder. */
  lemma EditsKeepReminders(db: Db, a: Action)
    requires IsEdit(a)
    ensures Act(db, a).reminders == db.reminders
  {
  }

  /** SENT, FAILED and CANCELLED are final: no later action of any kind changes such a row in any column. */
  lemma FinalRowsStay(db: Db, a: Action, j: nat)
    requires j < |db.reminders| && db.reminders[j].state != Pending
    ensures KeepsRow(db, Act(db, a), j)
  {
    match a
    case SyncFinished(courses, now) => SyncKeepsClosedRow(db, courses, now, j);
    case SyncInterrupted(courses, cut, now) => RunEvolves(db, Prefix(AllOps(courses), cut), now, j);
    case DispatchPass(now, providers, answer) => DispatchKeepsClosedRow(db, now, providers, answer, j);
    case Complete(t, now) => ClosingKeepsClosedRow(db, t, Completed, now, j);
    case Cancel(t, now) => ClosingKeepsClosedRow(db, t, Cancelled, now, j);
    case _ => EditsKeepReminders(db, a);
  }

  lemma {:induction false} RoundsAreSpaced(r: Reminder, rounds: seq<Round>, k: nat, l: nat)
    requires Accounted(r, rounds) && k < l < |rounds|
    ensures rounds[k].at + RETRY_DELAY <= rounds[l].at
  {
    if l > k + 1 { RoundsAreSpaced(r, rounds, k, l - 1); }
  }

  lemma RecordIsBounded(r: Reminder, rounds: seq<Round>)
    requires Accounted(r, rounds)
    ensures |rounds| <= MAX_ATTEMPTS
    ensures forall k, l :: 0 <= k < l < |rounds| ==> !Delivered(rounds[k]) && rounds[k].at + RETRY_DELAY <= rounds[l].at
    ensures r.state == Sent <==> exists k :: 0 <= k < |rounds| && Delivered(rounds[k])
    ensures r.state == Pending ==> |rounds| < MAX_ATTEMPTS
    ensures r.state == Failed <==> |rounds| == MAX_ATTEMPTS && !Delivered(rounds[MAX_ATTEMPTS - 1])
  {
    forall k, l | 0 <= k < l < |rounds| ensures rounds[k].at + RETRY_DELAY <= rounds[l].at {
      RoundsAreSpaced(r, rounds, k, l);
    }
  }

  /** Over every run each reminder is delivered at most once and never before its time, tried in at most three rounds,
      the rounds are at least fifteen minutes apart, and a pending one still has budget. */
  lemma DeliveryIsBounded(actions: seq<Action>, j: nat)
    requires j < |After(actions).reminders|
    ensures
      var r, rounds := After(actions).reminders[j], RoundsOf(After(actions).rounds, j);
      && |rounds| <= 3 && (forall k :: 0 <= k < |rounds| ==> r.scheduledFor <= rounds[k].at)
      && (forall k, l :: 0 <= k < l < |rounds| ==> !Delivered(rounds[k]) && rounds[k].at + 15 * MINUTE <= rounds[l].at)
      && (r.state == Sent <==> exists k :: 0 <= k < |rounds| && Delivered(rounds[k]))
      && (r.state == Pending ==> |rounds| < 3)
      && (r.state == Failed <==> |rounds| == 3 && !Delivered(rounds[2]))
  {
    EveryRunIsSound(actions);
    RecordIsBounded(After(actions).reminders[j], RoundsOf(After(actions).rounds, j));
  }

  // ------------------------------------------ the last reminder of a countdown

  lemma PendingDeadlineIsAhead(done: Db, now: Instant, i: nat)
    requires Sound(done) && Quiet(done) && i < |done.reminders|
    requires forall t :: 0 <= t < |done.tasks| ==> !Overdue(done.tasks[t], now)
    requires done.reminders[i].key.kind == DeadlineReached && done.reminders[i].state == Pending
    ensures now <= done.reminders[i].scheduledFor
    ensures !Closed(done.tasks[done.reminders[i].key.task].status)
  {
    var r := done.reminders[i];
    assert Anchored(done, r);
    assert !Overdue(done.tasks[r.key.task], now);
  }

  /** The deadline lies between the sync and the dispatch, at most the grace period before the dispatch, no retry is
      waited for, and the task is one that is reminded of at all. */
  predicate InWindow(done: Db, r: Reminder, now: Instant, at: Instant)
    requires r.key.task < |done.tasks| && done.tasks[r.key.task].course < |done.courses|
  {
    var task := done.tasks[r.key.task];
    && now <= r.scheduledFor <= at && at - 30 * MINUTE <= r.scheduledFor
    && (r.nextRetry.None? || r.nextRetry.value <= at)
    && Live(done.courses[task.course].state)
    && !(task.relevance.Judged? && task.relevance.decision == OtherSection)
  }

  /** Which "deadline reached" reminders a dispatch at `at` sends straight after a sync finished at `now`. The
      clause for missed tasks contributes nothing: the deadline must fall between the two instants. */
  lemma DeadlineReachedWindow(db: Db, courses: seq<CourseListing>, now: Instant, at: Instant, i: nat)
    requires Sound(db) && i < |Sync(db, courses, now).reminders|
    requires Sync(db, courses, now).reminders[i].key.kind == DeadlineReached
    ensures
      var done := Sync(db, courses, now);
      var r := done.reminders[i];
      && r.key.task < |done.tasks| && done.tasks[r.key.task].course < |done.courses|
      && (Due(done, r, at) <==> r.state == Pending && InWindow(done, r, now, at))
  {
    var done := Sync(db, courses, now);
    SyncKeepsSound(db, courses, now);
    SyncQuietens(db, courses, now);
    WindowFrom(done, now, at, i);
  }

  lemma WindowFrom(done: Db, now: Instant, at: Instant, i: nat)
    requires Sound(done) && Quiet(done) && i < |done.reminders|
    requires forall t :: 0 <= t < |done.tasks| ==> !Overdue(done.tasks[t], now)
    requires done.reminders[i].key.kind == DeadlineReached
    ensures
      var r := done.reminders[i];
      && r.key.task < |done.tasks| && done.tasks[r.key.task].course < |done.courses|
      && (Due(done, r, at) <==> r.state == Pending && InWindow(done, r, now, at))
  {
    assert Anchored(done, done.reminders[i]);
    if done.reminders[i].state == Pending { PendingDeadlineIsAhead(done, now, i); }
  }

  /** So the reminder is lost whenever its deadline passed before the sync, however recently: the row is not
      pending any more, and by FinalRowsStay no later action brings it back. */
  lemma DeadlineReachedIsLost(db: Db, courses: seq<CourseListing>, now: Instant, i: nat)
    requires Sound(db) && i < |Sync(db, courses, now).reminders|
    requires Sync(db, courses, now).reminders[i].key.kind == DeadlineReached
    ensures Sync(db, courses, now).reminders[i].state == Pending ==>
            now <= Sync(db, courses, now).reminders[i].scheduledFor
  {
    var done := Sync(db, courses, now);
    SyncKeepsSound(db, courses, now);
    SyncQuietens(db, courses, now);
    if done.reminders[i].state == Pending { PendingDeadlineIsAhead(done, now, i); }
  }

  /** When such a dispatch sends it: when it falls in that window and some provider takes it. */
  lemma DeadlineReachedIsSent(db: Db, courses: seq<CourseListing>, now: Instant, at: Instant, i: nat, providers: nat,
                              answer: (nat, nat) -> bool)
    requires Sound(db) && i < |Sync(db, courses, now).reminders|
    requires Sync(db, courses, now).reminders[i].key.kind == DeadlineReached
    requires Sync(db, courses, now).reminders[i].state == Pending
    ensures
      var done := Sync(db, courses, now);
      var r := done.reminders[i];
      && r.key.task < |done.tasks| && done.tasks[r.key.task].course < |done.courses|
      && i < |SendDue(done, at, providers, answer).reminders|
      && (SendDue(done, at, providers, answer).reminders[i].state == Sent <==>
            && InWindow(done, r, now, at) && true in Answers(answer, i, providers))
  {
    var done := Sync(db, courses, now);
    DeadlineReachedWindow(db, courses, now, at, i);
    DispatchRow(done, i, at, providers, answer);
    SentExactly(done.reminders[i], at, providers, true in Answers(answer, i, providers));
  }

  lemma SentExactly(r: Reminder, at: Instant, providers: nat, accepted: bool)
    requires r.state == Pending && (accepted ==> providers > 0)
    ensures Attempted(r, Judge(r, providers, accepted), at).state == Sent <==> accepted
  {
  }
}
