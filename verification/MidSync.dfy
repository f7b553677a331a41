/** When a sync leaves a closed task with something to send before its closing passes run: the exact condition, and a
    run that meets it (ragra/sync/classroom_sync.py, ragra/db/repo.py). */
module MidSync {
  import opened Text
  import opened Instants
  import opened ReminderPlan
  import opened Records
  import opened Repo
  import opened Classroom
  import opened Resync
  import opened Outcome
  import opened Countdown
  import opened SyncCountdown
  import opened Pipeline
  import opened DeadlineLoss

  /** A move to this deadline would add a row: its change alert, or an entry of its plan, whose key is free. */
  predicate AddsRow(db: Db, t: nat, deadline: Option<Instant>, now: Instant) {
    || !Taken(db.reminders, Key(t, DeadlineChanged, ToDeadline(deadline)))
    || (deadline.Some? && exists kind :: FreeEntry(db, t, deadline.value, kind, now))
  }

  predicate FreeEntry(db: Db, t: nat, deadline: Instant, kind: ReminderType, now: Instant) {
    Wanted(kind, deadline, now).Some? && !Taken(db.reminders, KeyOf(t, kind, deadline))
  }

  /** The item moves the deadline of a closed task to one that adds a row. */
  predicate MovesClosed(db: Db, course: nat, source: Source, item: Item, now: Instant) {
    var found, deadline := FindTask(db.tasks, course, source, item.id), Deadline(source, item);
    && found.Some?
    && var task := db.tasks[found.value];
       && Closed(task.status) && !UpToDate(task, item) && task.deadline != deadline
       && AddsRow(db, found.value, deadline, now)
  }

  /** No row of this key is pending for a closed task. */
  predicate QuietKey(db: Db, key: Key, at: int) {
    key.task < |db.tasks| && PendingAt(db.reminders, key, at) ==> !Closed(db.tasks[key.task].status)
  }

  lemma QuietByKeys(db: Db)
    ensures Quiet(db) <==> forall key: Key, at: int :: QuietKey(db, key, at)
  {
    if forall key: Key, at: int :: QuietKey(db, key, at) {
      forall j | 0 <= j < |db.reminders| && db.reminders[j].state == Pending && db.reminders[j].key.task < |db.tasks|
        ensures !Closed(db.tasks[db.reminders[j].key.task].status)
      {
        var r := db.reminders[j];
        assert PendingAt(db.reminders, r.key, r.scheduledFor) && QuietKey(db, r.key, r.scheduledFor);
      }
    }
  }

  // ------------------------------------------------------------------ one move

  /** A task that is found is open. */
  lemma DiscoveryIsQuiet(db: Db, course: nat, source: Source, item: Item, now: Instant, key: Key, at: int)
    requires FindTask(db.tasks, course, source, item.id).None? && QuietKey(db, key, at)
    ensures QuietKey(ApplyItem(db, course, source, item, now), key, at)
  {
    ApplyItemWrites(db, course, source, item, now);
    if key.task < |db.tasks| { DiscoverySparesOthers(db, course, source, item, now, key, at); }
  }

  /** Whatever a move does to other tasks it leaves quiet, and an open task as well. */
  lemma MoveIsQuietElsewhere(db: Db, t: nat, item: Item, now: Instant, key: Key, at: int)
    requires t < |db.tasks| && key.task != t && QuietKey(db, key, at)
    requires var after := Move(db, t, item, now);
      |after.tasks| == |db.tasks| && forall i :: 0 <= i < |db.tasks| ==> after.tasks[i].status == db.tasks[i].status
    ensures QuietKey(Move(db, t, item, now), key, at)
  {
    MoveSparesOthers(db, t, item, now, key, at);
  }

  /** A closed task has nothing pending after a move that adds no row. */
  lemma MoveIsQuietHere(db: Db, t: nat, item: Item, now: Instant, key: Key, at: int)
    requires t < |db.tasks| && key.task == t && QuietKey(db, key, at) && Closed(db.tasks[t].status)
    requires !AddsRow(db, t, Refreshed(db.tasks[t], item, now).deadline, now)
    ensures !PendingAt(Move(db, t, item, now).reminders, key, at)
  {
    var deadline := Refreshed(db.tasks[t], item, now).deadline;
    MovePends(db, t, item, now, key, at);
    if deadline.Some? {
      PlanHoldsWanted(deadline.value, now, Planned(key.kind, at));
      assert !FreeEntry(db, t, deadline.value, key.kind, now);
    }
  }

  /** The row that a move adds is pending. */
  lemma AddedIsPending(db: Db, t: nat, item: Item, now: Instant) returns (key: Key, at: int)
    requires t < |db.tasks| && AddsRow(db, t, Refreshed(db.tasks[t], item, now).deadline, now)
    ensures key.task == t && PendingAt(Move(db, t, item, now).reminders, key, at)
  {
    var deadline := Refreshed(db.tasks[t], item, now).deadline;
    key, at := Key(t, DeadlineChanged, ToDeadline(deadline)), now;
    if Taken(db.reminders, key) {
      var kind :| FreeEntry(db, t, deadline.value, kind, now);
      key, at := KeyOf(t, kind, deadline.value), Wanted(kind, deadline.value, now).value;
      PlanHoldsWanted(deadline.value, now, Planned(kind, at));
    }
    MovePends(db, t, item, now, key, at);
  }

  lemma StatusesStay(db: Db, course: nat, source: Source, item: Item, now: Instant)
    requires FindTask(db.tasks, course, source, item.id).Some?
    ensures var after := ApplyItem(db, course, source, item, now);
      |after.tasks| == |db.tasks| && forall i :: 0 <= i < |db.tasks| ==> after.tasks[i].status == db.tasks[i].status
  {
    ApplyItemWrites(db, course, source, item, now);
  }

  lemma MoveQuietExactly(db: Db, t: nat, item: Item, now: Instant)
    requires t < |db.tasks| && Quiet(db)
    requires var after := Move(db, t, item, now);
      |after.tasks| == |db.tasks| && forall i :: 0 <= i < |db.tasks| ==> after.tasks[i].status == db.tasks[i].status
    ensures Quiet(Move(db, t, item, now)) <==>
            !(Closed(db.tasks[t].status) && AddsRow(db, t, Refreshed(db.tasks[t], item, now).deadline, now))
  {
    var after := Move(db, t, item, now);
    QuietByKeys(db);
    QuietByKeys(after);
    if Closed(db.tasks[t].status) && AddsRow(db, t, Refreshed(db.tasks[t], item, now).deadline, now) {
      var key, at := AddedIsPending(db, t, item, now);
      assert !QuietKey(after, key, at);
    } else {
      forall key: Key, at: int ensures QuietKey(after, key, at) {
        assert QuietKey(db, key, at);
        if key.task != t {
          MoveIsQuietElsewhere(db, t, item, now, key, at);
        } else if Closed(db.tasks[t].status) {
          MoveIsQuietHere(db, t, item, now, key, at);
        }
      }
    }
  }

  /** An item breaks the quiet exactly if it moves the deadline of a closed task and that adds a row. */
  lemma ItemQuietExactly(db: Db, course: nat, source: Source, item: Item, now: Instant)
    requires Quiet(db)
    ensures Quiet(ApplyItem(db, course, source, item, now)) <==> !MovesClosed(db, course, source, item, now)
  {
    var found, after := FindTask(db.tasks, course, source, item.id), ApplyItem(db, course, source, item, now);
    if found.None? {
      QuietByKeys(db);
      forall key: Key, at: int ensures QuietKey(after, key, at) {
        assert QuietKey(db, key, at);
        DiscoveryIsQuiet(db, course, source, item, now, key, at);
      }
      QuietByKeys(after);
    } else {
      StatusesStay(db, course, source, item, now);
      UpdateReminders(db, found.value, item, now);
      if !UpToDate(db.tasks[found.value], item) && Deadline(source, item) != db.tasks[found.value].deadline {
        MoveQuietExactly(db, found.value, item, now);
      }
    }
  }

  /** In the middle of a sync exactly such an item leaves a closed task with something to send; no other operation
      does. */
  lemma StepQuietExactly(db: Db, op: Op, now: Instant)
    requires Quiet(db)
    ensures Quiet(Step(db, op, now)) <==>
            !(op.SeeItem? && FindCourse(db.courses, op.course).Some?
              && MovesClosed(db, FindCourse(db.courses, op.course).value, op.source, op.item, now))
  {
    if op.SeeItem? && FindCourse(db.courses, op.course).Some? {
      ItemQuietExactly(db, FindCourse(db.courses, op.course).value, op.source, op.item, now);
    }
  }

  // --------------------------------------------------------------- a run to it

  /** A key on a deadline is taken only when that deadline is listed. */
  lemma StepTakesListed(cur: Db, op: Op, key: Key, now: Instant)
    requires Sound(cur) && key.anchor.ToDeadline?
    requires Taken(Step(cur, op, now).reminders, key) && !Taken(cur.reminders, key)
    ensures op.SeeItem? && Deadline(op.source, op.item) == key.anchor.deadline
  {
    match op
    case SeeCourse(c) =>
    case SeeItem(course, source, item) =>
      var c := FindCourse(cur.courses, course).value;
      var found := FindTask(cur.tasks, c, source, item.id);
      if found.None? {
        DiscoveryTakesListed(cur, c, source, item, key, now);
      } else {
        UpdateReminders(cur, found.value, item, now);
        MoveTakes(cur, found.value, item, now, key);
      }
    case Sweep(course, source, seen) =>
      var c := FindCourse(cur.courses, course).value;
      WithdrawTaken(cur.reminders, UnlistedIds(cur.tasks, c, source, seen), {}, key);
  }

  lemma DiscoveryTakesListed(cur: Db, course: nat, source: Source, item: Item, key: Key, now: Instant)
    requires key.anchor.ToDeadline? && !Taken(cur.reminders, key)
    requires Taken(Discover(cur, course, source, item, now).reminders, key)
    ensures Deadline(source, item) == key.anchor.deadline
  {
    var t, deadline := |cur.tasks|, Deadline(source, item);
    DiscoverReminders(cur, course, source, item, now);
    if FeedAlert(source, item, now) { InsertTaken(cur.reminders, FeedKey(t, source), now, now, key); }
    if deadline.Some? { PlanTaken(cur.reminders, t, deadline.value, now, key); }
  }

  predicate NeverLists(ops: seq<Op>, deadline: Option<Instant>) {
    forall i :: 0 <= i < |ops| && ops[i].SeeItem? ==> Deadline(ops[i].source, ops[i].item) != deadline
  }

  lemma {:induction false} RunTakesListed(db: Db, ops: seq<Op>, key: Key, now: Instant)
    requires Sound(db) && key.anchor.ToDeadline? && !Taken(db.reminders, key)
    requires forall i :: 0 <= i < |ops| ==> Proper(ops[i])
    requires NeverLists(ops, key.anchor.deadline)
    ensures !Taken(RunOps(db, ops, now).reminders, key)
  {
    if ops != [] {
      var front, last := ops[..|ops| - 1], ops[|ops| - 1];
      RunKeepsSound(db, front, now);
      RunTakesListed(db, front, key, now);
      if Taken(RunOps(db, ops, now).reminders, key) { StepTakesListed(RunOps(db, front, now), last, key, now); }
    }
  }

  /** What a sync of the one assignment does. */
  lemma OneAssignmentOps(item: Item)
    ensures var courses := OneAssignment(item);
      AllOps(courses) == [SeeCourse(courses[0]), SeeItem("course-1", Coursework, item)] + Sweeps(courses[0])
  {
    var courses := OneAssignment(item);
    assert courses[..0] == [];
    assert ItemOps("course-1", Announcement, []) == [] && ItemOps("course-1", Material, []) == [];
    assert ItemOps("course-1", Coursework, [item]) == [SeeItem("course-1", Coursework, item)];
  }

  lemma ListsItsDeadline(item: Item, deadline: Option<Instant>)
    requires Deadline(Coursework, item) != deadline
    ensures NeverLists(AllOps(OneAssignment(item)), deadline)
  {
    OneAssignmentOps(item);
  }

  lemma SyncTakesListed(db: Db, item: Item, key: Key, now: Instant)
    requires Sound(db) && key.anchor.ToDeadline? && !Taken(db.reminders, key)
    requires Deadline(Coursework, item) != key.anchor.deadline
    ensures !Taken(Sync(db, OneAssignment(item), now).reminders, key)
  {
    var ops := AllOps(OneAssignment(item));
    ListsItsDeadline(item, key.anchor.deadline);
    AllOpsProper(OneAssignment(item));
    RunTakesListed(db, ops, key, now);
    FinishTaken(RunOps(db, ops, now), now, key);
  }

  /** The first two operations of a sync that lists the task at another deadline. */
  lemma ExtensionBreaksQuiet(db: Db, item: Item, later: Item, a: Instant, b: Instant, t: nat, now: Instant)
    requires Sound(db) && Quiet(db) && StoredTask(db, item, a, t) && Closed(db.tasks[t].status) && a != b
    requires later.id == item.id && PlainAssignment(later, b)
    requires !Taken(db.reminders, Key(t, DeadlineChanged, ToDeadline(Some(b))))
    ensures !Quiet(RunOps(db, [SeeCourse(OneAssignment(later)[0]), SeeItem("course-1", Coursework, later)], now))
  {
    var course, seen := OneAssignment(later)[0], SeeItem("course-1", Coursework, later);
    var mid, c := Step(db, SeeCourse(course), now), db.tasks[t].course;
    assert [SeeCourse(course), seen][..1] == [SeeCourse(course)];
    RunSingle(db, SeeCourse(course), now);
    assert RunOps(db, [SeeCourse(course), seen], now) == Step(mid, seen, now);
    StepKeepsSound(db, SeeCourse(course), now);
    FoundIsOwn(db.courses, c, "course-1");
    FoundIsOwn(mid.courses, c, "course-1");
    forall k: nat | k < t ensures !IsItem(mid.tasks[k], c, Coursework, later.id) {
      assert !IsTheTask(db, item, k);
    }
    TaskAt(mid.tasks, c, Coursework, later.id, t);
    StepQuietExactly(mid, seen, now);
  }

  /** A run from the empty store: a sync finds an assignment, one after its deadline marks it missed, and a third, which
      lists it at a later deadline, breaks off after that item. Then the missed task has something to send. */
  lemma QuietBreaksExample(item: Item, later: Item, a: Instant, b: Instant, found: Instant, missed: Instant,
                           now: Instant)
    requires PlainAssignment(item, a) && PlainAssignment(later, b) && later.id == item.id
    requires found < a < missed <= now < b
    ensures
      var two := [SyncFinished(OneAssignment(item), found), SyncFinished(OneAssignment(item), missed)];
      && Quiet(After(two))
      && !Quiet(After(two + [SyncInterrupted(OneAssignment(later), 2, now)]))
  {
    var courses := OneAssignment(item);
    var two := [SyncFinished(courses, found), SyncFinished(courses, missed)];
    TwoSyncs(courses, found, missed);
    var t := MissedWithoutAlert(item, a, b, found, missed);
    ExtensionBreaksQuiet(After(two), item, later, a, b, t, now);
    BrokenOffAfterItem(two, later, now);
  }

  lemma BrokenOffAfterItem(actions: seq<Action>, later: Item, now: Instant)
    ensures After(actions + [SyncInterrupted(OneAssignment(later), 2, now)]) ==
            RunOps(After(actions), [SeeCourse(OneAssignment(later)[0]), SeeItem("course-1", Coursework, later)], now)
  {
    var last := SyncInterrupted(OneAssignment(later), 2, now);
    OneAssignmentOps(later);
    assert Prefix(AllOps(OneAssignment(later)), 2) ==
           [SeeCourse(OneAssignment(later)[0]), SeeItem("course-1", Coursework, later)];
    assert (actions + [last])[..|actions|] == actions;
  }

  /** After the two syncs the task is missed, and no change alert for the later deadline exists. */
  lemma MissedWithoutAlert(item: Item, a: Instant, b: Instant, found: Instant, missed: Instant) returns (t: nat)
    requires PlainAssignment(item, a) && found < a < missed && a != b
    ensures var second := Sync(Sync(Start(), OneAssignment(item), found), OneAssignment(item), missed);
      && Sound(second) && Quiet(second) && StoredTask(second, item, a, t) && second.tasks[t].status == Missed
      && !Taken(second.reminders, Key(t, DeadlineChanged, ToDeadline(Some(b))))
  {
    var courses := OneAssignment(item);
    EveryRunIsSound([]);
    assert After([]) == Start();
    t := TheTask(Start(), courses, item, a, found);
    FoundInTime(courses, item, t, a, found);
    var first, key := Sync(Start(), courses, found), Key(t, DeadlineChanged, ToDeadline(Some(b)));
    SyncKeepsSound(Start(), courses, found);
    SyncKeepsSound(first, courses, missed);
    EndsMissed(first, courses, item, a, missed, t);
    SyncQuietens(first, courses, missed);
    SyncTakesListed(Start(), item, key, found);
    SyncTakesListed(first, item, key, missed);
  }
}
