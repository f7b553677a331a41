/** Which countdown a task has: when its deadline moves away and back, and at the end of a sync that found or moved it
    (ragra/sync/classroom_sync.py). */
module Countdown {
  import opened Text
  import opened Instants
  import opened ReminderPlan
  import opened Records
  import opened Repo
  import opened Classroom
  import opened Resync
  import opened Outcome

  /** The kinds that count down to a deadline. */
  predicate CountdownKind(kind: ReminderType) {
    kind !in {NewAssignment, DeadlineChanged, NewAnnouncement, NewMaterial}
  }

  // ------------------------------------------------------- keys and pending rows

  lemma InsertTaken(rs: seq<Reminder>, first: Key, at: int, now: Instant, key: Key)
    ensures Taken(Insert(rs, first, at, now), key) <==> Taken(rs, key) || key == first
  {
    var after := Insert(rs, first, at, now);
    if j :| 0 <= j < |rs| && rs[j].key == key { assert after[j].key == key; }
    if !Taken(rs, first) { assert after[|rs|].key == first; }
  }

  lemma InsertPending(rs: seq<Reminder>, first: Key, at: int, now: Instant, key: Key, time: int)
    ensures PendingAt(Insert(rs, first, at, now), key, time) <==>
            PendingAt(rs, key, time) || (!Taken(rs, first) && key == first && time == at)
  {
    var after := Insert(rs, first, at, now);
    if PendingAt(rs, key, time) {
      var j :| 0 <= j < |rs| && rs[j].state == Pending && rs[j].key == key && rs[j].scheduledFor == time;
      assert after[j] == rs[j];
    }
    if !Taken(rs, first) { assert after[|rs|] == Fresh(first, at, now); }
  }

  lemma WithdrawTaken(rs: seq<Reminder>, which: seq<nat>, spared: set<ReminderType>, key: Key)
    ensures Taken(Withdraw(rs, which, spared), key) <==> Taken(rs, key)
  {
    var after := Withdraw(rs, which, spared);
    if j :| 0 <= j < |rs| && rs[j].key == key { assert after[j].key == key; }
    if j :| 0 <= j < |after| && after[j].key == key { assert rs[j].key == key; }
  }

  lemma WithdrawPending(rs: seq<Reminder>, which: seq<nat>, spared: set<ReminderType>, key: Key, at: int)
    ensures PendingAt(Withdraw(rs, which, spared), key, at) <==>
            PendingAt(rs, key, at) && !(key.task in which && key.kind !in spared)
  {
    var after := Withdraw(rs, which, spared);
    if j :| 0 <= j < |rs| && rs[j].state == Pending && rs[j].key == key && rs[j].scheduledFor == at {
      assert (key.task in which && key.kind !in spared) || after[j] == rs[j];
    }
    if j :| 0 <= j < |after| && after[j].state == Pending && after[j].key == key && after[j].scheduledFor == at {
      assert after[j] == rs[j];
    }
  }

  lemma PlanTaken(rs: seq<Reminder>, t: nat, deadline: Instant, now: Instant, key: Key)
    ensures Taken(InsertPlan(rs, t, deadline, Plan(deadline, now), now), key) <==>
            Taken(rs, key) || (key == KeyOf(t, key.kind, deadline) && Wanted(key.kind, deadline, now).Some?)
  {
    var plan := Plan(deadline, now);
    var after := InsertPlan(rs, t, deadline, plan, now);
    InsertPlanAdds(rs, t, deadline, plan, now);
    if Taken(rs, key) {
      var j :| 0 <= j < |rs| && rs[j].key == key;
      assert after[j] == rs[j];
    }
    if key == KeyOf(t, key.kind, deadline) && Wanted(key.kind, deadline, now).Some? {
      var p := Planned(key.kind, Wanted(key.kind, deadline, now).value);
      PlanHoldsWanted(deadline, now, p);
      if !Taken(rs, key) {
        var j :| |rs| <= j < |after| && after[j].key == key;
      }
    }
    if Taken(after, key) && !Taken(rs, key) {
      var j :| 0 <= j < |after| && after[j].key == key;
      if j < |rs| {
        assert after[j] == rs[j];
      } else {
        PlanHoldsWanted(deadline, now, Planned(key.kind, after[j].scheduledFor));
      }
    }
  }

  lemma PlanPending(rs: seq<Reminder>, t: nat, deadline: Instant, now: Instant, key: Key, at: int)
    ensures PendingAt(InsertPlan(rs, t, deadline, Plan(deadline, now), now), key, at) <==>
            || PendingAt(rs, key, at)
            || (!Taken(rs, key) && key == KeyOf(t, key.kind, deadline) && Wanted(key.kind, deadline, now) == Some(at))
  {
    PlanRows(rs, t, deadline, now, key, at);
    PlanHoldsWanted(deadline, now, Planned(key.kind, at));
  }

  // ------------------------------------------------- a discovered and a moved task

  /** The reminders of a discovery: perhaps a feed alert, then the plan. */
  lemma DiscoverReminders(db: Db, course: nat, source: Source, item: Item, now: Instant)
    ensures
      var t, deadline := |db.tasks|, Deadline(source, item);
      var alerted := if FeedAlert(source, item, now) then Insert(db.reminders, FeedKey(t, source), now, now)
                     else db.reminders;
      Discover(db, course, source, item, now).reminders ==
        if deadline.None? then alerted else InsertPlan(alerted, t, deadline.value, Plan(deadline.value, now), now)
  {
    var t := |db.tasks|;
    var added := SetRelevance(AddTask(db, NewTask(course, source, item, now), now), t, item.verdict, now);
    assert added.reminders == db.reminders;
  }

  /** No reminder belongs to a task that is not there yet. */
  lemma NewTaskHasNoKeys(db: Db, key: Key)
    requires Sound(db) && key.task >= |db.tasks|
    ensures !Taken(db.reminders, key)
  {
    forall j | 0 <= j < |db.reminders| ensures db.reminders[j].key != key { assert Anchored(db, db.reminders[j]); }
  }

  /** A newly found task has exactly the countdown planned for its deadline at that moment: those keys, all of them
      pending, at their times. */
  lemma DiscoveryGetsItsPlan(db: Db, course: nat, source: Source, item: Item, now: Instant, key: Key, at: int)
    requires Sound(db) && key.task == |db.tasks| && CountdownKind(key.kind)
    ensures
      var deadline, after := Deadline(source, item), Discover(db, course, source, item, now);
      && (PendingAt(after.reminders, key, at) <==>
            deadline.Some? && key == KeyOf(key.task, key.kind, deadline.value)
            && Wanted(key.kind, deadline.value, now) == Some(at))
      && (Taken(after.reminders, key) <==>
            deadline.Some? && key == KeyOf(key.task, key.kind, deadline.value)
            && Wanted(key.kind, deadline.value, now).Some?)
  {
    var t, deadline := |db.tasks|, Deadline(source, item);
    DiscoverReminders(db, course, source, item, now);
    NewTaskHasNoKeys(db, key);
    if FeedAlert(source, item, now) {
      InsertTaken(db.reminders, FeedKey(t, source), now, now, key);
      InsertPending(db.reminders, FeedKey(t, source), now, now, key, at);
    }
    var alerted := if FeedAlert(source, item, now) then Insert(db.reminders, FeedKey(t, source), now, now)
                   else db.reminders;
    if deadline.Some? {
      PlanTaken(alerted, t, deadline.value, now, key);
      PlanPending(alerted, t, deadline.value, now, key, at);
    }
  }

  /** A newly found announcement or material is alerted at once if it was posted within the last three days, and never
      otherwise; an assignment has no such alert. */
  lemma FeedAlertExactly(db: Db, course: nat, source: Source, item: Item, now: Instant, kind: ReminderType, at: int)
    requires Sound(db) && kind in {NewAnnouncement, NewMaterial}
    ensures PendingAt(Discover(db, course, source, item, now).reminders, Key(|db.tasks|, kind, WholeTask), at) <==>
            && source == (if kind == NewAnnouncement then Announcement else Material) && at == now
            && item.posted.Some? && now - item.posted.value <= 3 * DAY
  {
    var key, deadline := Key(|db.tasks|, kind, WholeTask), Deadline(source, item);
    DiscoverReminders(db, course, source, item, now);
    NewTaskHasNoKeys(db, key);
    if FeedAlert(source, item, now) { InsertPending(db.reminders, FeedKey(|db.tasks|, source), now, now, key, at); }
    if deadline.Some? { PlanPending(db.reminders, |db.tasks|, deadline.value, now, key, at); }
  }

  /** The keys after a move: those there were, the change alert's, and those of the plan for the new deadline. */
  lemma MoveTakes(db: Db, t: nat, item: Item, now: Instant, key: Key)
    requires t < |db.tasks|
    ensures
      var deadline := Refreshed(db.tasks[t], item, now).deadline;
      Taken(Move(db, t, item, now).reminders, key) <==>
        || Taken(db.reminders, key) || key == Key(t, DeadlineChanged, ToDeadline(deadline))
        || (deadline.Some? && key == KeyOf(t, key.kind, deadline.value)
            && Wanted(key.kind, deadline.value, now).Some?)
  {
    var deadline := Refreshed(db.tasks[t], item, now).deadline;
    var alert := Key(t, DeadlineChanged, ToDeadline(deadline));
    MoveReminders(db, t, item, now);
    TakenAfterTold(db.reminders, t, alert, now, key);
    if deadline.Some? {
      PlanTaken(Insert(Withdraw(db.reminders, [t], {NewAssignment}), alert, now, now), t, deadline.value, now, key);
    }
  }

  /** After a move exactly those entries of the plan for the new deadline are pending whose key was free. */
  lemma MoveFillsFreeKeys(db: Db, t: nat, item: Item, now: Instant, key: Key, at: int)
    requires t < |db.tasks| && key.task == t && CountdownKind(key.kind)
    ensures
      var deadline := Refreshed(db.tasks[t], item, now).deadline;
      PendingAt(Move(db, t, item, now).reminders, key, at) <==>
        && !Taken(db.reminders, key) && deadline.Some? && key == KeyOf(t, key.kind, deadline.value)
        && Wanted(key.kind, deadline.value, now) == Some(at)
  {
    MovePends(db, t, item, now, key, at);
    var deadline := Refreshed(db.tasks[t], item, now).deadline;
    if deadline.Some? { PlanHoldsWanted(deadline.value, now, Planned(key.kind, at)); }
  }

  // ----------------------------------------------------------- away and back

  /** No countdown reminder of the task is pending. */
  ghost predicate Silent(db: Db, t: nat) {
    forall key: Key, at: int :: key.task == t && CountdownKind(key.kind) ==> !PendingAt(db.reminders, key, at)
  }

  /** A move leaves no countdown pending exactly when every countdown key of the plan for the new deadline is taken
      already, in whatever state its row is. */
  lemma SilentExactly(db: Db, t: nat, item: Item, deadline: Instant, now: Instant)
    requires t < |db.tasks| && Refreshed(db.tasks[t], item, now).deadline == Some(deadline)
    ensures Silent(Move(db, t, item, now), t) <==>
            forall kind :: CountdownKind(kind) && Wanted(kind, deadline, now).Some? ==>
              Taken(db.reminders, KeyOf(t, kind, deadline))
  {
    var after := Move(db, t, item, now);
    forall kind | CountdownKind(kind) && Wanted(kind, deadline, now).Some?
      ensures PendingAt(after.reminders, KeyOf(t, kind, deadline), Wanted(kind, deadline, now).value)
              <==> !Taken(db.reminders, KeyOf(t, kind, deadline))
    {
      MoveFillsFreeKeys(db, t, item, now, KeyOf(t, kind, deadline), Wanted(kind, deadline, now).value);
    }
    forall key: Key, at: int | key.task == t && CountdownKind(key.kind)
      ensures PendingAt(after.reminders, key, at) ==>
                key == KeyOf(t, key.kind, deadline) && Wanted(key.kind, deadline, now) == Some(at)
    {
      MoveFillsFreeKeys(db, t, item, now, key, at);
    }
    if Silent(after, t) {
      forall kind | CountdownKind(kind) && Wanted(kind, deadline, now).Some?
        ensures Taken(db.reminders, KeyOf(t, kind, deadline))
      {
        assert !PendingAt(after.reminders, KeyOf(t, kind, deadline), Wanted(kind, deadline, now).value);
      }
    }
  }

  /** The source's update time does not call the listing the one before it: there is none, or it is another. */
  predicate Anew(item: Item, before: Item) {
    item.updated.None? || item.updated != before.updated
  }

  /** What one source says three times of one item: deadline a, another deadline, and a again. */
  predicate AwayAndBackItems(first: Item, second: Item, third: Item, a: Instant) {
    && first.id == second.id == third.id && Anew(second, first) && Anew(third, second)
    && Deadline(Coursework, first) == Some(a) == Deadline(Coursework, third) && Deadline(Coursework, second) != Some(a)
  }

  /** The store after the three. */
  function AwayAndBack(db: Db, course: nat, first: Item, second: Item, third: Item, found: Instant, moved: Instant,
                       now: Instant): Db {
    ApplyItem(ApplyItem(ApplyItem(db, course, Coursework, first, found), course, Coursework, second, moved),
              course, Coursework, third, now)
  }

  lemma FoundAgain(db: Db, course: nat, item: Item, again: Item, now: Instant)
    requires item.id == again.id
    ensures
      var after, t := ApplyItem(db, course, Coursework, item, now), Target(db, course, Coursework, item);
      FindTask(after.tasks, course, Coursework, again.id) == Some(t)
  {
    ApplyItemSettles(db, course, Coursework, item, now);
    ApplyItemWrites(db, course, Coursework, item, now);
    var after, t := ApplyItem(db, course, Coursework, item, now), Target(db, course, Coursework, item);
    forall k | 0 <= k < t ensures !IsItem(after.tasks[k], course, Coursework, again.id) {
      assert !IsItem(db.tasks[k], course, Coursework, item.id);
    }
    TaskAt(after.tasks, course, Coursework, again.id, t);
  }

  lemma MovesTo(db: Db, course: nat, item: Item, t: nat, now: Instant)
    requires FindTask(db.tasks, course, Coursework, item.id) == Some(t) && !UpToDate(db.tasks[t], item)
    requires Deadline(Coursework, item) != db.tasks[t].deadline
    ensures ApplyItem(db, course, Coursework, item, now) == Move(db, t, item, now)
    ensures Refreshed(db.tasks[t], item, now).deadline == Deadline(Coursework, item)
    ensures var after := ApplyItem(db, course, Coursework, item, now);
            t < |after.tasks| && after.tasks[t].deadline == Deadline(Coursework, item)
  {
    ApplyItemWrites(db, course, Coursework, item, now);
  }

  /** A deadline that moves away and back: afterwards exactly those entries of the plan are pending that the deadline
      would get now and did not get when the task was found. */
  lemma BackFillsTheRest(db: Db, course: nat, first: Item, second: Item, third: Item, found: Instant, moved: Instant,
                         now: Instant, a: Instant, key: Key, at: int)
    requires Sound(db) && FindTask(db.tasks, course, Coursework, first.id).None?
    requires AwayAndBackItems(first, second, third, a) && key.task == |db.tasks| && CountdownKind(key.kind)
    ensures
      PendingAt(AwayAndBack(db, course, first, second, third, found, moved, now).reminders, key, at) <==>
        key == KeyOf(key.task, key.kind, a) && Wanted(key.kind, a, now) == Some(at) && Wanted(key.kind, a, found).None?
  {
    var t := |db.tasks|;
    var there := ApplyItem(db, course, Coursework, first, found);
    FoundAgain(db, course, first, second, found);
    ApplyItemWrites(db, course, Coursework, first, found);
    DiscoveryGetsItsPlan(db, course, Coursework, first, found, key, at);
    assert there.tasks[t].deadline == Some(a);
    MovesTo(there, course, second, t, moved);
    var away := Move(there, t, second, moved);
    MoveTakes(there, t, second, moved, key);
    FoundAgain(there, course, second, third, moved);
    MovesTo(away, course, third, t, now);
    MoveFillsFreeKeys(away, t, third, now, key, at);
  }

  /** Such a return is silent exactly when the deadline would now get no kind of countdown reminder that it did not get
      when the task was found. */
  lemma BackIsSilentExactly(db: Db, course: nat, first: Item, second: Item, third: Item, found: Instant, moved: Instant,
                            now: Instant, a: Instant)
    requires Sound(db) && FindTask(db.tasks, course, Coursework, first.id).None?
    requires AwayAndBackItems(first, second, third, a)
    ensures
      Silent(AwayAndBack(db, course, first, second, third, found, moved, now), |db.tasks|) <==>
      NothingNewWanted(a, found, now)
  {
    var t, back := |db.tasks|, AwayAndBack(db, course, first, second, third, found, moved, now);
    forall key: Key, at: int | key.task == t && CountdownKind(key.kind)
      ensures PendingAt(back.reminders, key, at) <==>
              key == KeyOf(t, key.kind, a) && Wanted(key.kind, a, now) == Some(at) && Wanted(key.kind, a, found).None?
    {
      BackFillsTheRest(db, course, first, second, third, found, moved, now, a, key, at);
    }
    if Silent(back, t) {
      forall kind | CountdownKind(kind) && Wanted(kind, a, now).Some? ensures Wanted(kind, a, found).Some? {
        assert !PendingAt(back.reminders, KeyOf(t, kind, a), Wanted(kind, a, now).value);
      }
    }
  }

  /** No kind of countdown reminder is wanted now that was not wanted then. */
  ghost predicate NothingNewWanted(a: Instant, found: Instant, now: Instant) {
    forall kind :: CountdownKind(kind) && Wanted(kind, a, now).Some? ==> Wanted(kind, a, found).Some?
  }

  lemma BackIsSilentIf(db: Db, course: nat, first: Item, second: Item, third: Item, found: Instant, moved: Instant,
                       now: Instant, a: Instant)
    requires Sound(db) && FindTask(db.tasks, course, Coursework, first.id).None?
    requires AwayAndBackItems(first, second, third, a) && NothingNewWanted(a, found, now)
    ensures Silent(AwayAndBack(db, course, first, second, third, found, moved, now), |db.tasks|)
  {
    BackIsSilentExactly(db, course, first, second, third, found, moved, now, a);
  }

  lemma WantedNineDaysAhead(a: Instant, found: Instant, now: Instant)
    requires found == a - 10 * DAY && now == a - 9 * DAY
    ensures Wanted(Final1H, a, now).Some? && NothingNewWanted(a, found, now)
  {
  }

  lemma WantedThirtyHoursAhead(a: Instant, found: Instant, now: Instant)
    requires found == a - 10 * DAY && now == a - 30 * HOUR
    ensures Wanted(FewHours, a, found).None? && Wanted(FewHours, a, now) == Some(a - 3 * HOUR)
  {
  }

  /** Found ten days ahead and back nine days ahead, the task has no countdown at all, although one is planned. */
  lemma BackEarlyIsSilent(db: Db, course: nat, first: Item, second: Item, third: Item, a: Instant, found: Instant,
                          moved: Instant, now: Instant)
    requires Sound(db) && FindTask(db.tasks, course, Coursework, first.id).None?
    requires AwayAndBackItems(first, second, third, a) && found == a - 10 * DAY && now == a - 9 * DAY
    ensures Wanted(Final1H, a, now).Some?
    ensures Silent(AwayAndBack(db, course, first, second, third, found, moved, now), |db.tasks|)
  {
    WantedNineDaysAhead(a, found, now);
    BackIsSilentIf(db, course, first, second, third, found, moved, now, a);
  }

  /** Back thirty hours ahead it gets the reminder three hours before that it never had. */
  lemma BackLateIsNot(db: Db, course: nat, first: Item, second: Item, third: Item, a: Instant, found: Instant,
                      moved: Instant, now: Instant)
    requires Sound(db) && FindTask(db.tasks, course, Coursework, first.id).None?
    requires AwayAndBackItems(first, second, third, a) && found == a - 10 * DAY && now == a - 30 * HOUR
    ensures PendingAt(AwayAndBack(db, course, first, second, third, found, moved, now).reminders,
                      KeyOf(|db.tasks|, FewHours, a), a - 3 * HOUR)
  {
    WantedThirtyHoursAhead(a, found, now);
    BackPends(db, course, first, second, third, found, moved, now, a, FewHours, a - 3 * HOUR);
  }

  lemma BackPends(db: Db, course: nat, first: Item, second: Item, third: Item, found: Instant, moved: Instant,
                  now: Instant, a: Instant, kind: ReminderType, at: int)
    requires Sound(db) && FindTask(db.tasks, course, Coursework, first.id).None?
    requires AwayAndBackItems(first, second, third, a) && CountdownKind(kind)
    requires Wanted(kind, a, now) == Some(at) && Wanted(kind, a, found).None?
    ensures PendingAt(AwayAndBack(db, course, first, second, third, found, moved, now).reminders,
                      KeyOf(|db.tasks|, kind, a), at)
  {
    BackFillsTheRest(db, course, first, second, third, found, moved, now, a, KeyOf(|db.tasks|, kind, a), at);
  }

  /** An assignment due on a day of March 2025 at noon. */
  function DueInMarch(day: int): Item {
    Item("cw-1", Some("Assignment 1"), None, None, None, None, None,
         Some(DueDate(Some(2025), Some(3), Some(day))), Some(DueTime(Some(12), Some(0))), None)
  }

  lemma MarchDeadline(day: nat)
    requires 1 <= day <= 31
    ensures Deadline(Coursework, DueInMarch(day)) == Some(FromFields(Fields(2025, 3, day, 12, 0, 0, 0)))
    ensures FromFields(Fields(2025, 3, day, 12, 0, 0, 0)) ==
            ((DaysBeforeYear(2025) + DaysBeforeMonth(2025, 3) + day - 1) * 24 + 12) * HOUR
  {
  }

  /** There are such items, each with the time it was last updated, as Classroom sends them. */
  lemma AwayAndBackExample()
    ensures
      var a := FromFields(Fields(2025, 3, 20, 12, 0, 0, 0));
      var first := DueInMarch(20).(updated := Some("2025-03-10T12:00:00Z"));
      var second := DueInMarch(27).(updated := Some("2025-03-11T09:30:00Z"));
      var third := DueInMarch(20).(updated := Some("2025-03-11T11:00:00Z"));
      a >= 10 * DAY && AwayAndBackItems(first, second, third, a)
  {
    MarchDeadline(20);
    MarchDeadline(27);
    var x, y, z := "2025-03-10T12:00:00Z", "2025-03-11T09:30:00Z", "2025-03-11T11:00:00Z";
    assert x[9] != y[9] && y[12] != z[12];
  }
}
