/** The discovery ping of a task over whole runs, and how far a run carries what it stored
    (ragra/sync/classroom_sync.py, ragra/db/repo.py). */
module Pings {
  import opened Text
  import opened Instants
  import opened ReminderPlan
  import opened Records
  import opened Repo
  import opened Classroom
  import opened Resync
  import opened Outcome
  import opened Countdown
  import opened SyncCountdown
  import opened Dispatch
  import opened Pipeline

  function Ping(t: nat): Key {
    Key(t, NewAssignment, WholeTask)
  }

  predicate IsPing(r: Reminder, t: nat) {
    r.key.task == t && r.key.kind == NewAssignment
  }

  /** Exactly one NEW_ASSIGNMENT row of the task, in whatever state. */
  predicate OnePing(db: Db, t: nat) {
    exists j :: 0 <= j < |db.reminders| && OnlyPing(db, t, j)
  }

  predicate OnlyPing(db: Db, t: nat, j: nat)
    requires j < |db.reminders|
  {
    IsPing(db.reminders[j], t) && forall i :: 0 <= i < |db.reminders| && IsPing(db.reminders[i], t) ==> i == j
  }

  lemma TakenIsOnePing(db: Db, t: nat)
    requires Sound(db) && Taken(db.reminders, Ping(t))
    ensures OnePing(db, t)
  {
    var j :| 0 <= j < |db.reminders| && db.reminders[j].key == Ping(t);
    forall i | 0 <= i < |db.reminders| && IsPing(db.reminders[i], t) ensures i == j {
      assert Anchored(db, db.reminders[i]);
    }
    assert OnlyPing(db, t, j);
  }

  /** The task is new or has another deadline than before, and the deadline is still ahead. */
  predicate Ahead(db: Db, cur: Db, t: nat, now: Instant) {
    t < |cur.tasks| && Changed(db, cur, t) && cur.tasks[t].deadline.Some? && cur.tasks[t].deadline.value > now
  }

  // ------------------------------------------------------------- within a sync

  /** An item gives its own task the deadline it lists, if it changes it at all. */
  lemma ItemDeadline(cur: Db, c: nat, source: Source, item: Item, now: Instant)
    ensures var after, t := ApplyItem(cur, c, source, item, now), Target(cur, c, source, item);
      && t < |after.tasks|
      && (t >= |cur.tasks| || after.tasks[t].deadline != cur.tasks[t].deadline ==>
            && after.tasks[t].deadline == Deadline(source, item)
            && (t < |cur.tasks| ==> !UpToDate(cur.tasks[t], item)))
  {
    var found := FindTask(cur.tasks, c, source, item.id);
    if found.None? {
      DiscoveredDeadline(cur, c, source, item, now);
    } else {
      UpdateReminders(cur, found.value, item, now);
    }
  }

  /** Only the task's own item changes its deadline. */
  lemma StepDeadline(cur: Db, op: Op, t: nat, now: Instant)
    requires Sound(cur) && t < |Step(cur, op, now).tasks|
    requires t < |cur.tasks| ==> Step(cur, op, now).tasks[t].deadline != cur.tasks[t].deadline
    ensures op.SeeItem? && FindCourse(cur.courses, op.course).Some?
            && t == Target(cur, FindCourse(cur.courses, op.course).value, op.source, op.item)
  {
    if !(op.SeeItem? && FindCourse(cur.courses, op.course).Some?
         && t == Target(cur, FindCourse(cur.courses, op.course).value, op.source, op.item)) {
      StepAddsTarget(cur, op, now, t);
      OtherOpCarries(cur, op, Ping(t), 0, now);
    }
  }

  lemma StepKeepsPing(db: Db, cur: Db, op: Op, t: nat, now: Instant)
    requires Sound(cur) && Proper(op) && Ahead(db, Step(cur, op, now), t, now)
    requires Ahead(db, cur, t, now) ==> Taken(cur.reminders, Ping(t))
    ensures Taken(Step(cur, op, now).reminders, Ping(t))
  {
    if t < |cur.tasks| && Step(cur, op, now).tasks[t].deadline == cur.tasks[t].deadline {
      StepCarriesOver(cur, op, Ping(t), now);
    } else {
      StepDeadline(cur, op, t, now);
      var c := FindCourse(cur.courses, op.course).value;
      ItemDeadline(cur, c, op.source, op.item, now);
      DiscoveryPingExists(cur, c, op.source, op.item, now);
    }
  }

  lemma {:induction false} RunKeepsPing(db: Db, ops: seq<Op>, t: nat, now: Instant)
    requires Sound(db) && forall i :: 0 <= i < |ops| ==> Proper(ops[i])
    requires Ahead(db, RunOps(db, ops, now), t, now)
    ensures Taken(RunOps(db, ops, now).reminders, Ping(t))
  {
    if ops != [] {
      var front := ops[..|ops| - 1];
      RunKeepsSound(db, front, now);
      if Ahead(db, RunOps(db, front, now), t, now) { RunKeepsPing(db, front, t, now); }
      StepKeepsPing(db, RunOps(db, front, now), ops[|ops| - 1], t, now);
    }
  }

  /** At the end of a sync every task it found with, or moved to, a deadline still ahead has exactly one discovery
      ping. */
  lemma PingAfterSync(db: Db, courses: seq<CourseListing>, t: nat, now: Instant)
    requires Sound(db) && Ahead(db, Sync(db, courses, now), t, now)
    ensures OnePing(Sync(db, courses, now), t)
  {
    FinishedPings(db, courses, t, now);
    SyncKeepsSound(db, courses, now);
    TakenIsOnePing(Sync(db, courses, now), t);
  }

  lemma FinishedPings(db: Db, courses: seq<CourseListing>, t: nat, now: Instant)
    requires Sound(db) && Ahead(db, Sync(db, courses, now), t, now)
    ensures Taken(Sync(db, courses, now).reminders, Ping(t))
  {
    var ran := RunOps(db, AllOps(courses), now);
    AllOpsProper(courses);
    FinishRows(ran, now);
    FinishTask(ran, now, t);
    RunKeepsPing(db, AllOps(courses), t, now);
    FinishTaken(ran, now, Ping(t));
  }

  // ------------------------------------------------------------- over whole runs

  lemma DispatchKeepsLength(db: Db, now: Instant, providers: nat, answer: (nat, nat) -> bool)
    ensures |SendDue(db, now, providers, answer).reminders| == |db.reminders|
  {
  }

  lemma DispatchTaken(db: Db, now: Instant, providers: nat, answer: (nat, nat) -> bool, key: Key)
    requires Taken(db.reminders, key)
    ensures Taken(SendDue(db, now, providers, answer).reminders, key)
  {
    var j :| 0 <= j < |db.reminders| && db.reminders[j].key == key;
    DispatchKeepsLength(db, now, providers, answer);
    PassOnlyTakesPending(db, now, providers, answer, j);
  }

  /** No action gives a key up. */
  lemma ActKeepsTaken(db: Db, a: Action, key: Key)
    requires Sound(db) && Taken(db.reminders, key)
    ensures Taken(Act(db, a).reminders, key)
  {
    match a
    case SyncFinished(courses, now) => SyncCarriesOver(db, courses, key, now);
    case SyncInterrupted(courses, cut, now) => BrokenOffKeepsTaken(db, courses, cut, now, key);
    case DispatchPass(now, providers, answer) => DispatchTaken(db, now, providers, answer, key);
    case Complete(t, now) => ClosingKeepsTaken(db, t, Completed, now, key);
    case Cancel(t, now) => ClosingKeepsTaken(db, t, Cancelled, now, key);
    case _ => EditsKeepReminders(db, a);
  }

  lemma BrokenOffKeepsTaken(db: Db, courses: seq<CourseListing>, cut: nat, now: Instant, key: Key)
    requires Sound(db) && Taken(db.reminders, key)
    ensures Taken(RunOps(db, Prefix(AllOps(courses), cut), now).reminders, key)
  {
    AllOpsProper(courses);
    RunCarriesOver(db, Prefix(AllOps(courses), cut), key, now);
  }

  lemma ClosingKeepsTaken(db: Db, t: nat, to: Status, now: Instant, key: Key)
    requires Taken(db.reminders, key)
    ensures Taken(CloseAll(db, [t], to, now).reminders, key)
  {
    WithdrawTaken(db.reminders, [t], {}, key);
  }

  lemma OneActionMore(actions: seq<Action>, a: Action)
    ensures After(actions + [a]) == Act(After(actions), a)
  {
    assert (actions + [a])[..|actions|] == actions;
  }

  lemma {:induction false} RunsKeepTaken(actions: seq<Action>, n: nat, key: Key)
    requires n <= |actions| && Taken(After(actions[..n]).reminders, key)
    ensures Taken(After(actions).reminders, key)
  {
    if n == |actions| {
      assert actions[..n] == actions;
    } else {
      var front := actions[..|actions| - 1];
      assert front[..n] == actions[..n];
      RunsKeepTaken(front, n, key);
      EveryRunIsSound(front);
      ActKeepsTaken(After(front), actions[|actions| - 1], key);
    }
  }

  lemma SyncPings(db: Db, a: Action, t: nat)
    requires Sound(db) && (a.SyncFinished? || a.SyncInterrupted?) && Ahead(db, Act(db, a), t, a.now)
    ensures Taken(Act(db, a).reminders, Ping(t))
  {
    match a
    case SyncFinished(courses, now) => FinishedPings(db, courses, t, now);
    case SyncInterrupted(courses, cut, now) =>
      AllOpsProper(courses);
      RunKeepsPing(db, Prefix(AllOps(courses), cut), t, now);
  }

  /** In every run: once any sync, finished or broken off, has found a task with, or moved it to, a deadline still
      ahead, the task has exactly one discovery ping, then and after whatever follows. */
  lemma EveryRunKeepsItsPings(before: seq<Action>, sync: Action, rest: seq<Action>, t: nat)
    requires sync.SyncFinished? || sync.SyncInterrupted?
    requires Ahead(After(before), After(before + [sync]), t, sync.now)
    ensures OnePing(After(before + [sync] + rest), t)
  {
    EveryRunIsSound(before);
    OneActionMore(before, sync);
    SyncPings(After(before), sync, t);
    LaterIsOnePing(before + [sync], rest, t);
  }

  lemma LaterIsOnePing(before: seq<Action>, rest: seq<Action>, t: nat)
    requires Taken(After(before).reminders, Ping(t))
    ensures OnePing(After(before + rest), t)
  {
    assert (before + rest)[..|before|] == before;
    RunsKeepTaken(before + rest, |before|, Ping(t));
    EveryRunIsSound(before + rest);
    TakenIsOnePing(After(before + rest), t);
  }

  lemma StillKeepsRow(first: Db, mid: Db, a: Action, j: nat)
    requires j < |first.reminders| && first.reminders[j].state != Pending && KeepsRow(first, mid, j)
    ensures KeepsRow(first, Act(mid, a), j)
  {
    FinalRowsStay(mid, a, j);
  }

  /** Over every run a reminder that is SENT, FAILED or CANCELLED after the first n actions is after all of them the
      same row, unchanged in every column. */
  lemma {:induction false} FinalRowsStayInEveryRun(actions: seq<Action>, n: nat, j: nat)
    requires n <= |actions| && j < |After(actions[..n]).reminders| && After(actions[..n]).reminders[j].state != Pending
    ensures KeepsRow(After(actions[..n]), After(actions), j)
  {
    if n == |actions| {
      assert actions[..n] == actions;
    } else {
      var front := actions[..|actions| - 1];
      assert front[..n] == actions[..n];
      FinalRowsStayInEveryRun(front, n, j);
      StillKeepsRow(After(actions[..n]), After(front), actions[|actions| - 1], j);
    }
  }
}
