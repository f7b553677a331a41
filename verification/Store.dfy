/** The store as the program works on it: rows updated in place, one operation at a time. Each method is
    proved to take the store's snapshot to the one the specification functions give. */
module Stores {
  import opened Text
  import opened Instants
  import opened ReminderPlan
  import opened Records
  import opened Repo
  import opened Classroom
  import Resync
  import opened Outcome
  import opened Dispatch
  import opened Pipeline
  import opened SyncCounts
  import Sorting

  datatype SyncSummary = SyncSummary(coursesSeen: nat, created: nat, cancelled: nat, suppressed: nat, missed: nat,
                                     missingDiscovery: seq<nat>, failedSources: seq<(string, Source)>)

  /** What the loop over the courses counts. */
  datatype Totals = Totals(seen: nat, created: nat, missing: seq<nat>, cancelled: nat, failed: seq<(string, Source)>)

  /** One line of the preview of a dispatch. */
  datatype Preview = Preview(id: nat, kind: ReminderType, scheduledFor: int, attempts: nat)

  predicate Previews(p: Preview, rs: seq<Reminder>) {
    p.id < |rs| && p.kind == rs[p.id].key.kind
    && p.scheduledFor == rs[p.id].scheduledFor && p.attempts == rs[p.id].attempts
  }

  function PreviewIds(previews: seq<Preview>): (ids: seq<nat>)
    ensures |ids| == |previews| && forall k :: 0 <= k < |previews| ==> ids[k] == previews[k].id
  {
    seq(|previews|, k requires 0 <= k < |previews| => previews[k].id)
  }

  predicate Previewed(previews: seq<Preview>, i: nat) {
    exists k :: 0 <= k < |previews| && previews[k].id == i
  }

  lemma PreviewIsDue(db: Db, ids: seq<nat>, previews: seq<Preview>, now: Instant)
    requires ids == DueIds(db, now) && PreviewIds(previews) == ids
    requires forall k :: 0 <= k < |previews| ==> Previews(previews[k], db.reminders)
    ensures forall i: nat :: Previewed(previews, i) <==> i < |db.reminders| && Due(db, db.reminders[i], now)
    ensures forall k, l :: 0 <= k < l < |previews| ==>
              previews[k].id != previews[l].id && previews[k].scheduledFor <= previews[l].scheduledFor
  {
    forall i: nat ensures Previewed(previews, i) <==> i in ids {
      if Previewed(previews, i) {
        var k :| 0 <= k < |previews| && previews[k].id == i;
        assert ids[k] == i;
      }
      if i in ids {
        var k :| 0 <= k < |ids| && ids[k] == i;
        assert previews[k].id == i;
      }
    }
    forall k, l | 0 <= k < l < |previews|
      ensures previews[k].id != previews[l].id && previews[k].scheduledFor <= previews[l].scheduledFor
    {
      assert ids[k] == previews[k].id && ids[l] == previews[l].id;
      assert ScheduledFor(db.reminders, ids[k]) <= ScheduledFor(db.reminders, ids[l]);
    }
  }

  /** The unique column compares texts; that is the same as comparing keys. */
  method SameKeyText(a: Key, b: Key) returns (same: bool)
    ensures same <==> a == b
  {
    same := KeyText(a) == KeyText(b);
    if same { KeyTextInjective(a, b); }
  }

  class Store {
    var courses: seq<Course>
    var tasks: seq<Task>
    var history: seq<HistoryRow>
    var reminders: seq<Reminder>
    var rounds: seq<Round>

    function Snapshot(): Db
      reads this
    {
      Db(courses, tasks, history, reminders, rounds)
    }

    constructor ()
      ensures Snapshot() == Start()
    {
      courses, tasks, history, reminders, rounds := [], [], [], [], [];
    }

    // ------------------------------------------------------------ reminders

    /** INSERT OR IGNORE on the text of the key. */
    method InsertReminderIfAbsent(key: Key, at: int, now: Instant) returns (inserted: bool)
      modifies this`reminders
      ensures Snapshot() == InsertReminder(old(Snapshot()), key, at, now)
      ensures inserted <==> !Taken(old(reminders), key)
    {
      for i := 0 to |reminders|
        invariant reminders == old(reminders)
        invariant forall k :: 0 <= k < i ==> reminders[k].key != key
      {
        var same := SameKeyText(reminders[i].key, key);
        if same {
          return false;
        }
      }
      reminders := reminders + [Fresh(key, at, now)];
      inserted := true;
    }

    /** The task's pending rows of any type not spared turn CANCELLED, and no other row changes. */
    method CancelPendingReminders(task: nat, spared: set<ReminderType>)
      modifies this`reminders
      ensures |reminders| == |old(reminders)|
      ensures forall j :: 0 <= j < |reminders| ==>
                var r := old(reminders)[j];
                reminders[j] == if r.state == Pending && r.key.task == task && r.key.kind !in spared
                                then r.(state := Withdrawn) else r
      ensures reminders == Withdraw(old(reminders), [task], spared)
    {
      ghost var start := reminders;
      for j := 0 to |reminders|
        invariant |reminders| == |start|
        invariant forall k :: 0 <= k < j ==> reminders[k] == WithdrawnRow(start[k], task, spared)
        invariant forall k :: j <= k < |start| ==> reminders[k] == start[k]
      {
        var r := reminders[j];
        if r.state == Pending && r.key.task == task && r.key.kind !in spared {
          reminders := reminders[j := r.(state := Withdrawn)];
        }
      }
      WithdrawByRow(start, task, spared, reminders);
    }

    /** Whether the task ever had a reminder of exactly this type, in any state. */
    method HasReminderOfType(task: nat, kind: ReminderType) returns (found: bool)
      ensures found ==>
                exists i :: 0 <= i < |reminders| && reminders[i].key.task == task && reminders[i].key.kind == kind
      ensures !found ==> forall anchor :: !Taken(reminders, Key(task, kind, anchor))
    {
      for i := 0 to |reminders|
        invariant forall k :: 0 <= k < i ==> !(reminders[k].key.task == task && reminders[k].key.kind == kind)
      {
        if reminders[i].key.task == task && reminders[i].key.kind == kind { return true; }
      }
      return false;
    }

    /** The rows of a plan, in plan order. */
    method InsertEach(t: nat, deadline: Instant, planned: seq<Planned>, now: Instant)
      modifies this`reminders
      ensures reminders == InsertPlan(old(reminders), t, deadline, planned, now)
    {
      for k := 0 to |planned|
        invariant reminders == InsertPlan(old(reminders), t, deadline, planned[..k], now)
      {
        PlanOneMore(old(reminders), t, deadline, planned, k, now);
        var _ := InsertReminderIfAbsent(KeyOf(t, planned[k].kind, deadline), planned[k].at, now);
      }
      assert planned[..|planned|] == planned;
    }

    /** _schedule_reminders: returns the planned types. */
    method ScheduleReminders(t: nat, deadline: Instant, now: Instant) returns (planned: seq<Planned>)
      modifies this`reminders
      ensures planned == Plan(deadline, now)
      ensures Snapshot() == Schedule(old(Snapshot()), t, Some(deadline), now)
    {
      planned := ComputeReminderPlan(deadline, now);
      InsertEach(t, deadline, planned, now);
    }

    // ---------------------------------------------------------------- tasks

    method SetTaskRelevance(t: nat, verdict: Option<Relevance>, now: Instant)
      requires t < |tasks|
      modifies this`tasks, this`history
      ensures Snapshot() == SetRelevance(old(Snapshot()), t, verdict, now)
    {
      if verdict.Some? && tasks[t].relevance != verdict.value {
        history := history + Rows(t, [RelevanceSet(tasks[t].relevance, verdict.value)], now);
        tasks := tasks[t := tasks[t].(relevance := verdict.value)];
      }
    }

    /** upsert_task_from_source: insert, skip what is up to date, or rewrite the row and record each change. */
    method UpsertTaskFromSource(course: nat, source: Source, item: Item, now: Instant)
      returns (t: nat, created: bool, moved: bool)
      modifies this`tasks, this`history
      ensures created <==> FindTask(old(tasks), course, source, item.id).None?
      ensures t == (if created then |old(tasks)| else FindTask(old(tasks), course, source, item.id).value)
      ensures t < |tasks|
      ensures created ==> !moved && Snapshot() == AddTask(old(Snapshot()), NewTask(course, source, item, now), now)
      ensures !created && UpToDate(old(tasks)[t], item) ==> !moved && Snapshot() == old(Snapshot())
      ensures !created && !UpToDate(old(tasks)[t], item) ==>
                var task := Refreshed(old(tasks)[t], item, now);
                && Snapshot() == SetTask(old(Snapshot()), t, task, Changes(old(tasks)[t], task), now)
                && (moved <==> task.deadline != old(tasks)[t].deadline)
    {
      var found := FindTask(tasks, course, source, item.id);
      moved := false;
      if found.None? {
        t, created := |tasks|, true;
        var task := NewTask(course, source, item, now);
        tasks := tasks + [task];
        history := history + [HistoryRow(t, now, Created(task.title))];
        return;
      }
      t, created := found.value, false;
      var was := tasks[t];
      if UpToDate(was, item) {
        return;
      }
      var task, changes := Rewrite(was, item, now);
      history := history + Rows(t, changes, now);
      tasks := tasks[t := task];
      moved := task.deadline != was.deadline;
    }

    /** The rewritten row, and the columns that differ, one after the other. */
    static method Rewrite(was: Task, item: Item, now: Instant) returns (task: Task, changes: seq<Change>)
      ensures task == Refreshed(was, item, now) && changes == Changes(was, task)
    {
      var title, description, deadline := TitleOf(item), Or(item.description, item.text), Deadline(was.source, item);
      changes := [];
      if was.title != title { changes := changes + [TitleChanged(was.title, title)]; }
      if was.description != description { changes := changes + [DescriptionChanged(was.description, description)]; }
      if was.link != item.link { changes := changes + [LinkChanged(was.link, item.link)]; }
      if was.deadline != deadline { changes := changes + [DeadlineMoved(was.deadline, deadline)]; }
      task := was.(title := title, description := description, link := item.link, deadline := deadline,
                   sourceUpdated := item.updated, updatedAt := now);
    }

    /** _apply_upsert: one listed item. An assignment that should have been announced always is. */
    method ApplyUpsert(course: nat, source: Source, item: Item, now: Instant)
      returns (created: bool, missingDiscovery: seq<nat>)
      requires source != Manual
      modifies this`tasks, this`history, this`reminders
      ensures Snapshot() == ApplyItem(old(Snapshot()), course, source, item, now)
      ensures created <==> FindTask(old(tasks), course, source, item.id).None?
      ensures missingDiscovery == []
    {
      missingDiscovery := [];
      var t, moved;
      t, created, moved := UpsertTaskFromSource(course, source, item, now);
      SetTaskRelevance(t, item.verdict, now);
      var deadline := Deadline(source, item);
      if created {
        if FeedAlert(source, item, now) {
          var _ := InsertReminderIfAbsent(FeedKey(t, source), now, now);
        }
        if deadline.Some? {
          ghost var before := reminders;
          var planned := ScheduleReminders(t, deadline.value, now);
          if source == Coursework && planned != [] {
            var found := HasReminderOfType(t, NewAssignment);
            PlanShape(deadline.value, now);
            PlanTakes(before, t, deadline.value, planned, now, planned[0]);
            if !found { missingDiscovery := [t]; }
          }
        }
      } else if moved {
        CancelPendingReminders(t, {NewAssignment});
        deadline := tasks[t].deadline;
        var _ := InsertReminderIfAbsent(Key(t, DeadlineChanged, ToDeadline(deadline)), now, now);
        if deadline.Some? {
          var _ := ScheduleReminders(t, deadline.value, now);
        }
      }
    }

    /** mark_completed, mark_missed and cancel_task_from_source: the row and its history entry. */
    method CloseTask(t: nat, to: Status, now: Instant)
      requires t < |tasks|
      modifies this`tasks, this`history
      ensures tasks == old(tasks)[t := Close(old(tasks)[t], to, now)]
      ensures history == old(history) + [HistoryRow(t, now, StatusSet(None, to))]
    {
      tasks := tasks[t := Close(tasks[t], to, now)];
      history := history + [HistoryRow(t, now, StatusSet(None, to))];
    }

    /** Close each of the given tasks and cancel what it still had to send, one after the other. */
    method CloseEach(ids: seq<nat>, to: Status, now: Instant)
      requires forall i :: 0 <= i < |ids| ==> ids[i] < |tasks|
      requires forall i, j :: 0 <= i < j < |ids| ==> ids[i] != ids[j]
      modifies this`tasks, this`history, this`reminders
      ensures Snapshot() == CloseAll(old(Snapshot()), ids, to, now)
    {
      CloseAllNone(Snapshot(), to, now);
      assert ids[..0] == [];
      for k := 0 to |ids|
        invariant Snapshot() == CloseAll(old(Snapshot()), ids[..k], to, now)
      {
        CloseOneMore(old(Snapshot()), ids, k, to, now);
        CloseTask(ids[k], to, now);
        CancelPendingReminders(ids[k], {});
      }
      assert ids[..|ids|] == ids;
    }

    method CancelTasksMissingFromSource(course: nat, source: Source, seen: set<string>, now: Instant)
        returns (ids: seq<nat>)
      modifies this`tasks, this`history, this`reminders
      ensures ids == UnlistedIds(old(tasks), course, source, seen)
      ensures Snapshot() == SweepMissing(old(Snapshot()), course, source, seen, now)
    {
      ids := UnlistedIds(tasks, course, source, seen);
      CloseEach(ids, Cancelled, now);
    }

    method MarkOverdueTasksAsMissed(now: Instant) returns (ids: seq<nat>)
      modifies this`tasks, this`history, this`reminders
      ensures ids == OverdueIds(old(tasks), now)
      ensures Snapshot() == MarkMissed(old(Snapshot()), now)
    {
      ids := OverdueIds(tasks, now);
      CloseEach(ids, Missed, now);
    }

    /** cancel_backlog_reminders_for_already_overdue_tasks: task by task, counting what it cancels. */
    method CancelBacklogReminders() returns (cancelled: nat)
      modifies this`reminders
      ensures Snapshot() == DropBacklog(old(Snapshot()))
      ensures cancelled == |PendingOf(old(reminders), BacklogIds(tasks))|
    {
      var ids := BacklogIds(tasks);
      cancelled := 0;
      WithdrawNobody(reminders);
      assert ids[..0] == [];
      for k := 0 to |ids|
        invariant reminders == Withdraw(old(reminders), ids[..k], {})
        invariant cancelled == |PendingOf(old(reminders), ids[..k])|
      {
        var pending := PendingOf(reminders, [ids[k]]);
        WithdrawOneMore(old(reminders), ids, k);
        if pending != {} {
          CancelPendingReminders(ids[k], {});
          cancelled := cancelled + |pending|;
        } else {
          WithdrawNothing(reminders, ids[k]);
        }
      }
      assert ids[..|ids|] == ids;
    }

    /** cancel_stray_reminders_for_terminal_tasks: the rows are selected first, then cancelled one by one. */
    method CancelStrayReminders() returns (cancelled: nat)
      modifies this`reminders
      ensures Snapshot() == DropStray(old(Snapshot()))
      ensures cancelled == |PendingOf(old(reminders), ClosedIds(tasks))|
    {
      ghost var start := reminders;
      var rows := StrayRows(reminders, tasks);
      for k := 0 to |rows|
        invariant |reminders| == |start|
        invariant forall j :: 0 <= j < |start| ==>
                    reminders[j] == if j in rows[..k] then start[j].(state := Withdrawn) else start[j]
      {
        reminders := reminders[rows[k] := reminders[rows[k]].(state := Withdrawn)];
      }
      assert rows[..|rows|] == rows;
      StrayRowsAre(start, tasks, reminders);
      cancelled := |rows|;
    }

    // ----------------------------------------------------------------- sync

    method UpsertOrUpdateCourse(c: CourseListing, now: Instant)
      modifies this`courses
      ensures Snapshot() == Step(old(Snapshot()), SeeCourse(c), now)
    {
      var found := FindCourse(courses, c.id);
      if !Live(c.state) {
        if found.Some? {
          courses := courses[found.value := courses[found.value].(state := c.state, updatedAt := now)];
        }
      } else if found.None? {
        courses := courses + [CourseRow(c, now, now)];
      } else {
        courses := courses[found.value := CourseRow(c, courses[found.value].createdAt, now)];
      }
    }

    method SyncSource(c: CourseListing, source: Source, now: Instant) returns (created: nat, missing: seq<nat>)
      requires source != Manual && FindCourse(courses, c.id).Some?
      modifies this`tasks, this`history, this`reminders
      ensures Snapshot() == RunOps(old(Snapshot()), ItemOps(c.id, source, Of(c, source).items), now)
      ensures courses == old(courses) && |tasks| == |old(tasks)| + created && missing == []
    {
      var items := Of(c, source).items;
      var course := FindCourse(courses, c.id).value;
      created, missing := 0, [];
      ghost var ops := ItemOps(c.id, source, items);
      assert ops[..0] == [];
      for i := 0 to |items|
        invariant Snapshot() == RunOps(old(Snapshot()), ops[..i], now)
        invariant courses == old(courses) && |tasks| == |old(tasks)| + created && missing == []
      {
        ghost var before := Snapshot();
        var isNew, unannounced := ApplyUpsert(course, source, items[i], now);
        RunOneMore(old(Snapshot()), ops, i, now);
        SeeItemApplies(before, c.id, course, source, items[i], now);
        if isNew { created := created + 1; }
        missing := missing + unannounced;
      }
      assert ops[..|ops|] == ops;
    }

    /** One source after another; a source that could not be read to its end is reported. */
    method SyncSources(c: CourseListing, now: Instant, ghost db: Db)
      returns (created: nat, missing: seq<nat>, failed: seq<(string, Source)>)
      requires FindCourse(courses, c.id).Some? && Snapshot() == RunOps(db, ItemStages(c, 0), now)
      modifies this`tasks, this`history, this`reminders
      ensures Snapshot() == RunOps(db, ItemStages(c, 3), now)
      ensures courses == old(courses) && |tasks| == |old(tasks)| + created && missing == []
      ensures failed == FailedFirst(c, 3)
    {
      created, missing, failed := 0, [], [];
      var sources := [Coursework, Announcement, Material];
      for k := 0 to 3
        invariant courses == old(courses) && |tasks| == |old(tasks)| + created && missing == []
        invariant Snapshot() == RunOps(db, ItemStages(c, k), now)
        invariant failed == FailedFirst(c, k)
      {
        var n, unannounced := SyncSource(c, sources[k], now);
        NextStage(db, c, k, sources[k], now);
        created, missing := created + n, missing + unannounced;
        if !Of(c, sources[k]).readable { failed := failed + [(c.name, sources[k])]; }
      }
    }

    /** Cancel what one source no longer lists, if it was read to its end. */
    method SweepSource(c: CourseListing, k: nat, source: Source, now: Instant, ghost db: Db) returns (cancelled: nat)
      requires k < 3 && source == [Coursework, Announcement, Material][k]
      requires FindCourse(courses, c.id).Some?
      requires Snapshot() == RunOps(db, ItemStages(c, 3) + SweepStages(c, k), now)
      modifies this`tasks, this`history, this`reminders
      ensures Snapshot() == RunOps(db, ItemStages(c, 3) + SweepStages(c, k + 1), now)
      ensures SweptCount(db, ItemStages(c, 3) + SweepStages(c, k + 1), now)
              == SweptCount(db, ItemStages(c, 3) + SweepStages(c, k), now) + cancelled
      ensures courses == old(courses) && |tasks| == |old(tasks)|
    {
      cancelled := 0;
      RunSweep(db, c, k, source, now);
      if Of(c, source).readable {
        ghost var before := Snapshot();
        var course := FindCourse(courses, c.id).value;
        var ids := CancelTasksMissingFromSource(course, source, Ids(Of(c, source).items), now);
        SweepApplies(before, c.id, course, source, Ids(Of(c, source).items), now);
        cancelled := |ids|;
      }
    }

    method SweepSources(c: CourseListing, now: Instant, ghost db: Db) returns (cancelled: nat)
      requires FindCourse(courses, c.id).Some? && Snapshot() == RunOps(db, ItemStages(c, 3), now)
      modifies this`tasks, this`history, this`reminders
      ensures Snapshot() == RunOps(db, ItemStages(c, 3) + SweepStages(c, 3), now)
      ensures cancelled == SweptCount(db, ItemStages(c, 3) + SweepStages(c, 3), now)
      ensures courses == old(courses) && |tasks| == |old(tasks)|
    {
      cancelled := 0;
      var sources := [Coursework, Announcement, Material];
      NothingSwept(db, c, now);
      for k := 0 to 3
        invariant courses == old(courses) && |tasks| == |old(tasks)|
        invariant Snapshot() == RunOps(db, ItemStages(c, 3) + SweepStages(c, k), now)
        invariant cancelled == SweptCount(db, ItemStages(c, 3) + SweepStages(c, k), now)
      {
        var n := SweepSource(c, k, sources[k], now, db);
        cancelled := cancelled + n;
      }
    }

    /** One course: its row, and for a live course every item of every source, then what is missing. */
    method SyncCourse(c: CourseListing, now: Instant)
      returns (created: nat, missing: seq<nat>, cancelled: nat, failed: seq<(string, Source)>)
      modifies this`courses, this`tasks, this`history, this`reminders
      ensures Snapshot() == RunOps(old(Snapshot()), CourseOps(c), now)
      ensures |tasks| == |old(tasks)| + created && missing == []
      ensures cancelled == SweptCount(old(Snapshot()), CourseOps(c), now)
      ensures failed == FailedSources(c)
    {
      created, missing, cancelled, failed := 0, [], 0, [];
      ghost var db := Snapshot();
      UpsertOrUpdateCourse(c, now);
      RunSingle(db, SeeCourse(c), now);
      NoSweepsNoCount(db, [SeeCourse(c)], now);
      if Live(c.state) {
        CourseAfterUpsert(db, c, now);
        created, missing, failed := SyncSources(c, now, db);
        cancelled := SweepSources(c, now, db);
        assert ItemStages(c, 3) + SweepStages(c, 3) == CourseOps(c);
      }
    }

    /** One course more, added to the totals so far. */
    method SyncNext(listing: seq<CourseListing>, i: nat, now: Instant, ghost db: Db, t: Totals) returns (total: Totals)
      requires i < |listing| && Snapshot() == RunOps(db, AllOps(listing[..i]), now)
      requires t.seen == LiveCount(listing[..i]) && t.failed == AllFailed(listing[..i]) && t.missing == []
      requires t.cancelled == SweptCount(db, AllOps(listing[..i]), now) && |tasks| == |db.tasks| + t.created
      modifies this`courses, this`tasks, this`history, this`reminders
      ensures Snapshot() == RunOps(db, AllOps(listing[..i + 1]), now)
      ensures total.seen == LiveCount(listing[..i + 1]) && total.failed == AllFailed(listing[..i + 1])
      ensures total.cancelled == SweptCount(db, AllOps(listing[..i + 1]), now)
      ensures |tasks| == |db.tasks| + total.created && total.missing == []
    {
      CoursesOneMore(db, listing, i, now);
      var created, missing, cancelled, failed := SyncCourse(listing[i], now);
      total := Totals(t.seen + (if Live(listing[i].state) then 1 else 0), t.created + created, t.missing + missing,
                      t.cancelled + cancelled, t.failed + failed);
    }

    /** The loop over the courses. */
    method SyncCourses(listing: seq<CourseListing>, now: Instant) returns (t: Totals)
      modifies this`courses, this`tasks, this`history, this`reminders
      ensures Snapshot() == RunOps(old(Snapshot()), AllOps(listing), now)
      ensures t.seen == LiveCount(listing) && t.failed == AllFailed(listing)
      ensures t.cancelled == SweptCount(old(Snapshot()), AllOps(listing), now)
      ensures |tasks| == |old(tasks)| + t.created && t.missing == []
    {
      t := Totals(0, 0, [], 0, []);
      ghost var db := Snapshot();
      assert listing[..0] == [];
      for i := 0 to |listing|
        invariant Snapshot() == RunOps(db, AllOps(listing[..i]), now)
        invariant t.seen == LiveCount(listing[..i]) && t.failed == AllFailed(listing[..i])
        invariant t.cancelled == SweptCount(db, AllOps(listing[..i]), now)
        invariant |tasks| == |db.tasks| + t.created && t.missing == []
      {
        t := SyncNext(listing, i, now, db, t);
      }
      assert listing[..|listing|] == listing;
    }

    /** sync_classroom: every course, then the three closing passes. The summary counts what the store shows: the tasks
        added, those that turned CANCELLED or MISSED, the reminders dropped as backlog, and the sources that failed; and
        no assignment goes without its discovery reminder. */
    method SyncClassroom(listing: seq<CourseListing>, now: Instant) returns (summary: SyncSummary)
      modifies this`courses, this`tasks, this`history, this`reminders
      ensures Snapshot() == Sync(old(Snapshot()), listing, now)
      ensures |tasks| == |old(tasks)| + summary.created
      ensures summary.missingDiscovery == []
      ensures summary.coursesSeen == LiveCount(listing) && summary.failedSources == AllFailed(listing)
      ensures summary.cancelled == |Newly(old(Snapshot()), Snapshot(), Cancelled)|
      ensures summary.missed == |Newly(old(Snapshot()), Snapshot(), Missed)|
      ensures var ran := RunOps(old(Snapshot()), AllOps(listing), now);
              summary.suppressed == |PendingOf(ran.reminders, BacklogIds(ran.tasks))|
    {
      ghost var db := Snapshot();
      var t := SyncCourses(listing, now);
      var suppressed := CancelBacklogReminders();
      var missed := MarkOverdueTasksAsMissed(now);
      var _ := CancelStrayReminders();
      CancelledAreCounted(db, listing, now);
      MissedAreCounted(db, listing, now);
      summary := SyncSummary(t.seen, t.created, t.cancelled, suppressed, |missed|, t.missing, t.failed);
    }

    // ------------------------------------------------------------- dispatch

    /** preview_due_reminders: exactly what a dispatch at this moment would try, in order of their scheduled time, each
        once, with nothing changed. */
    method PreviewDueReminders(now: Instant) returns (previews: seq<Preview>)
      ensures forall i: nat :: Previewed(previews, i) <==> i < |reminders| && Due(Snapshot(), reminders[i], now)
      ensures forall k :: 0 <= k < |previews| ==> Previews(previews[k], reminders)
      ensures forall k, l :: 0 <= k < l < |previews| ==>
                previews[k].id != previews[l].id && previews[k].scheduledFor <= previews[l].scheduledFor
      ensures PreviewIds(previews) == DueIds(Snapshot(), now)
    {
      var ids := DueIds(Snapshot(), now);
      previews := PreviewEach(ids);
      PreviewIsDue(Snapshot(), ids, previews, now);
    }

    method PreviewEach(ids: seq<nat>) returns (previews: seq<Preview>)
      requires forall k :: 0 <= k < |ids| ==> ids[k] < |reminders|
      ensures PreviewIds(previews) == ids
      ensures forall k :: 0 <= k < |previews| ==> Previews(previews[k], reminders)
    {
      previews := [];
      for k := 0 to |ids|
        invariant PreviewIds(previews) == ids[..k]
        invariant forall j :: 0 <= j < k ==> Previews(previews[j], reminders)
      {
        var r := reminders[ids[k]];
        previews := previews + [Preview(ids[k], r.key.kind, r.scheduledFor, r.attempts)];
      }
    }

    /** One delivery round: every provider is tried, and the row is marked by what they answered. */
    method SendOne(i: nat, now: Instant, providers: nat, answer: (nat, nat) -> bool) returns (outcome: Dispatch.Outcome)
      requires i < |reminders|
      modifies this`reminders, this`rounds
      ensures outcome == Judge(old(reminders)[i], providers, true in Answers(answer, i, providers))
      ensures reminders == old(reminders)[i := Attempted(old(reminders)[i], outcome, now)]
      ensures rounds == old(rounds) + (if providers == 0 then [] else [Round(i, now, Answers(answer, i, providers))])
    {
      if providers == 0 {
        return NotConfigured;
      }
      var answers := Answers(answer, i, providers);
      rounds := rounds + [Round(i, now, answers)];
      var r := reminders[i];
      if true in answers {
        outcome := SentNow;
        reminders := reminders[i := r.(state := Sent, sentAt := Some(now))];
      } else if r.attempts + 1 >= MAX_ATTEMPTS {
        outcome := GaveUp;
        reminders := reminders[i := r.(state := Failed, attempts := r.attempts + 1)];
      } else {
        outcome := RetryLater;
        reminders := reminders[i := r.(attempts := r.attempts + 1, nextRetry := Some(now + RETRY_DELAY))];
      }
    }

    /** dispatch_due_reminders: every due reminder once, in the order previewed. */
    method DispatchDueReminders(now: Instant, providers: nat, answer: (nat, nat) -> bool) returns (summary: Summary)
      modifies this`reminders, this`rounds
      ensures Snapshot() == SendDue(old(Snapshot()), now, providers, answer)
      ensures summary == Tally(old(Snapshot()), DueIds(old(Snapshot()), now), providers, answer)
    {
      var ids := DueIds(Snapshot(), now);
      summary := SendEach(ids, now, providers, answer);
    }

    /** One round more of a pass. */
    method SendNext(ids: seq<nat>, k: nat, now: Instant, providers: nat, answer: (nat, nat) -> bool, ghost db: Db,
                    sofar: Summary)
      returns (summary: Summary)
      requires k < |ids| && forall i :: 0 <= i < |ids| ==> ids[i] < |db.reminders|
      requires forall i, j :: 0 <= i < j < |ids| ==> ids[i] != ids[j]
      requires reminders == SentRows(db, ids[..k], now, providers, answer)
      requires rounds == db.rounds + Pass(ids[..k], now, providers, answer)
      requires sofar == Tally(db, ids[..k], providers, answer)
      modifies this`reminders, this`rounds
      ensures reminders == SentRows(db, ids[..k + 1], now, providers, answer)
      ensures rounds == db.rounds + Pass(ids[..k + 1], now, providers, answer)
      ensures summary == Tally(db, ids[..k + 1], providers, answer)
    {
      SendStep(db, ids, k, reminders, rounds, sofar, now, providers, answer);
      var outcome := SendOne(ids[k], now, providers, answer);
      summary := Count(sofar, outcome);
    }

    method SendEach(ids: seq<nat>, now: Instant, providers: nat, answer: (nat, nat) -> bool) returns (summary: Summary)
      requires forall i :: 0 <= i < |ids| ==> ids[i] < |reminders|
      requires forall i, j :: 0 <= i < j < |ids| ==> ids[i] != ids[j]
      modifies this`reminders, this`rounds
      ensures Snapshot() == DispatchFirst(old(Snapshot()), ids, now, providers, answer)
      ensures summary == Tally(old(Snapshot()), ids, providers, answer)
    {
      ghost var db := Snapshot();
      summary := Summary(0, 0, 0, 0);
      NothingSent(db, ids, now, providers, answer);
      for k := 0 to |ids|
        invariant reminders == SentRows(db, ids[..k], now, providers, answer)
        invariant rounds == db.rounds + Pass(ids[..k], now, providers, answer)
        invariant summary == Tally(db, ids[..k], providers, answer)
      {
        summary := SendNext(ids, k, now, providers, answer, db, summary);
      }
      AllSent(db, ids, now, providers, answer);
    }

    // --------------------------------------------------------------- routes

    method Complete(t: nat, now: Instant)
      modifies this`tasks, this`history, this`reminders
      ensures Snapshot() == CompleteTask(old(Snapshot()), t, now)
    {
      if t < |tasks| {
        CloseEach([t], Completed, now);
      }
    }

    /** The cancel route refuses a task from Classroom. */
    method Cancel(t: nat, now: Instant) returns (refused: bool)
      modifies this`tasks, this`history, this`reminders
      ensures Snapshot() == CancelTask(old(Snapshot()), t, now)
      ensures refused <==> t >= |old(tasks)| || old(tasks)[t].source != Manual
    {
      refused := t >= |tasks| || tasks[t].source != Manual;
      if !refused {
        CloseEach([t], Cancelled, now);
      }
    }

    method Archive(t: nat, now: Instant)
      modifies this`tasks, this`history
      ensures Snapshot() == ArchiveTask(old(Snapshot()), t, now)
    {
      if t < |tasks| && tasks[t].status != Archived {
        history := history + Rows(t, [StatusSet(Some(tasks[t].status), Archived)], now);
        tasks := tasks[t := tasks[t].(status := Archived, updatedAt := now)];
      }
    }
  }

  // ------------------------------------------------------- loop step lemmas

  lemma SeeItemApplies(db: Db, name: string, course: nat, source: Source, item: Item, now: Instant)
    requires FindCourse(db.courses, name) == Some(course)
    ensures Step(db, SeeItem(name, source, item), now) == ApplyItem(db, course, source, item, now)
    ensures ApplyItem(db, course, source, item, now).courses == db.courses
    ensures |ApplyItem(db, course, source, item, now).tasks| ==
            |db.tasks| + (if FindTask(db.tasks, course, source, item.id).None? then 1 else 0)
  {
    Resync.ApplyItemWrites(db, course, source, item, now);
  }

  lemma SweepApplies(db: Db, name: string, course: nat, source: Source, seen: set<string>, now: Instant)
    requires FindCourse(db.courses, name) == Some(course)
    ensures Step(db, Sweep(name, source, seen), now) == SweepMissing(db, course, source, seen, now)
    ensures |SweepMissing(db, course, source, seen, now).tasks| == |db.tasks|
    ensures SweepMissing(db, course, source, seen, now).courses == db.courses
  {
  }

  lemma CourseAfterUpsert(db: Db, c: CourseListing, now: Instant)
    requires Live(c.state)
    ensures FindCourse(RunOps(db, [SeeCourse(c)], now).courses, c.id).Some?
  {
    RunSingle(db, SeeCourse(c), now);
    var found := FindCourse(db.courses, c.id);
    CourseAt(UpsertCourse(db.courses, c, now), c.id, if found.None? then |db.courses| else found.value);
  }

  /** The operations up to the first k sources of a live course. */
  function ItemStages(c: CourseListing, k: nat): seq<Op> {
    if k == 0 then [SeeCourse(c)]
    else if k == 1 then [SeeCourse(c)] + ItemOps(c.id, Coursework, c.coursework.items)
    else if k == 2 then [SeeCourse(c)] + ItemOps(c.id, Coursework, c.coursework.items)
                        + ItemOps(c.id, Announcement, c.announcements.items)
    else [SeeCourse(c)] + ItemOps(c.id, Coursework, c.coursework.items)
         + ItemOps(c.id, Announcement, c.announcements.items) + ItemOps(c.id, Material, c.materials.items)
  }

  function SweepStages(c: CourseListing, k: nat): seq<Op> {
    if k == 0 then []
    else if k == 1 then SweepOp(c, Coursework)
    else if k == 2 then SweepOp(c, Coursework) + SweepOp(c, Announcement)
    else Sweeps(c)
  }

  lemma NextStage(db: Db, c: CourseListing, k: nat, source: Source, now: Instant)
    requires k < 3 && source == [Coursework, Announcement, Material][k]
    ensures RunOps(db, ItemStages(c, k + 1), now) ==
            RunOps(RunOps(db, ItemStages(c, k), now), ItemOps(c.id, source, Of(c, source).items), now)
    ensures FailedFirst(c, k + 1) == FailedFirst(c, k) + (if Of(c, source).readable then [] else [(c.name, source)])
  {
    StageAdds(c, k, source);
    RunConcat(db, ItemStages(c, k), ItemOps(c.id, source, Of(c, source).items), now);
  }

  lemma StageAdds(c: CourseListing, k: nat, source: Source)
    requires k < 3 && source == [Coursework, Announcement, Material][k]
    ensures ItemStages(c, k + 1) == ItemStages(c, k) + ItemOps(c.id, source, Of(c, source).items)
    ensures FailedFirst(c, k + 1) == FailedFirst(c, k) + (if Of(c, source).readable then [] else [(c.name, source)])
  {
  }

  lemma RunSweep(db: Db, c: CourseListing, k: nat, source: Source, now: Instant)
    requires k < 3 && source == [Coursework, Announcement, Material][k]
    ensures RunOps(db, ItemStages(c, 3) + SweepStages(c, k + 1), now) ==
            var before := RunOps(db, ItemStages(c, 3) + SweepStages(c, k), now);
            if Of(c, source).readable then Step(before, Sweep(c.id, source, Ids(Of(c, source).items)), now) else before
    ensures SweptCount(db, ItemStages(c, 3) + SweepStages(c, k + 1), now) ==
            var before := RunOps(db, ItemStages(c, 3) + SweepStages(c, k), now);
            SweptCount(db, ItemStages(c, 3) + SweepStages(c, k), now)
            + if Of(c, source).readable then |SweptBy(before, Sweep(c.id, source, Ids(Of(c, source).items)))| else 0
  {
    var a, b := ItemStages(c, 3) + SweepStages(c, k), SweepOp(c, source);
    assert ItemStages(c, 3) + SweepStages(c, k + 1) == a + b;
    RunConcat(db, a, b, now);
    SweptConcat(db, a, b, now);
    if Of(c, source).readable {
      RunSingle(RunOps(db, a, now), b[0], now);
      assert [b[0]][..0] == [];
    }
  }

  lemma NothingSwept(db: Db, c: CourseListing, now: Instant)
    ensures RunOps(db, ItemStages(c, 3) + SweepStages(c, 0), now) == RunOps(db, ItemStages(c, 3), now)
    ensures SweptCount(db, ItemStages(c, 3) + SweepStages(c, 0), now) == 0
  {
    assert ItemStages(c, 3) + SweepStages(c, 0) == ItemStages(c, 3);
    NoSweepsNoCount(db, ItemStages(c, 3), now);
  }

  lemma CoursesOneMore(db: Db, listing: seq<CourseListing>, i: nat, now: Instant)
    requires i < |listing|
    ensures var c, before := listing[i], RunOps(db, AllOps(listing[..i]), now);
      && RunOps(db, AllOps(listing[..i + 1]), now) == RunOps(before, CourseOps(c), now)
      && SweptCount(db, AllOps(listing[..i + 1]), now)
         == SweptCount(db, AllOps(listing[..i]), now) + SweptCount(before, CourseOps(c), now)
      && LiveCount(listing[..i + 1]) == LiveCount(listing[..i]) + (if Live(c.state) then 1 else 0)
      && AllFailed(listing[..i + 1]) == AllFailed(listing[..i]) + FailedSources(c)
  {
    assert listing[..i + 1][..i] == listing[..i];
    RunConcat(db, AllOps(listing[..i]), CourseOps(listing[i]), now);
    SweptConcat(db, AllOps(listing[..i]), CourseOps(listing[i]), now);
  }

  /** A row as a withdrawal for one task leaves it. */
  function WithdrawnRow(r: Reminder, task: nat, spared: set<ReminderType>): Reminder {
    if r.state == Pending && r.key.task == task && r.key.kind !in spared then r.(state := Withdrawn) else r
  }

  lemma WithdrawByRow(rs: seq<Reminder>, task: nat, spared: set<ReminderType>, after: seq<Reminder>)
    requires |after| == |rs| && forall k :: 0 <= k < |rs| ==> after[k] == WithdrawnRow(rs[k], task, spared)
    ensures after == Withdraw(rs, [task], spared)
  {
  }

  predicate Stray(r: Reminder, tasks: seq<Task>) {
    r.state == Pending && r.key.task < |tasks| && Closed(tasks[r.key.task].status)
  }

  /** The pending rows of closed tasks. */
  function StrayRows(rs: seq<Reminder>, tasks: seq<Task>): (rows: seq<nat>)
    ensures forall j :: j in rows <==> 0 <= j < |rs| && Stray(rs[j], tasks)
    ensures forall k :: 0 <= k < |rows| ==> rows[k] < |rs|
    ensures forall k, l :: 0 <= k < l < |rows| ==> rows[k] < rows[l]
  {
    Sorting.Select(rs, (r: Reminder) => Stray(r, tasks))
  }

  lemma StrayRowsAre(rs: seq<Reminder>, tasks: seq<Task>, after: seq<Reminder>)
    requires |after| == |rs|
    requires forall j :: 0 <= j < |rs| ==>
               after[j] == if j in StrayRows(rs, tasks) then rs[j].(state := Withdrawn) else rs[j]
    ensures after == Withdraw(rs, ClosedIds(tasks), {})
    ensures |StrayRows(rs, tasks)| == |PendingOf(rs, ClosedIds(tasks))|
  {
    var rows, ids := StrayRows(rs, tasks), ClosedIds(tasks);
    forall j | 0 <= j < |rs| ensures Stray(rs[j], tasks) <==> rs[j].state == Pending && rs[j].key.task in ids {}
    IncreasingCount(rows);
    assert PendingOf(rs, ids) == IdSet(rows);
  }

  lemma NothingSent(db: Db, ids: seq<nat>, now: Instant, providers: nat, answer: (nat, nat) -> bool)
    requires forall i :: 0 <= i < |ids| ==> ids[i] < |db.reminders|
    ensures SentRows(db, ids[..0], now, providers, answer) == db.reminders
    ensures db.rounds + Pass(ids[..0], now, providers, answer) == db.rounds
    ensures Tally(db, ids[..0], providers, answer) == Summary(0, 0, 0, 0)
  {
    assert SentRows(db, ids[..0], now, providers, answer) == db.reminders;
  }

  lemma AllSent(db: Db, ids: seq<nat>, now: Instant, providers: nat, answer: (nat, nat) -> bool)
    requires forall i :: 0 <= i < |ids| ==> ids[i] < |db.reminders|
    ensures DispatchFirst(db, ids, now, providers, answer) ==
            db.(reminders := SentRows(db, ids[..|ids|], now, providers, answer),
                rounds := db.rounds + Pass(ids[..|ids|], now, providers, answer))
    ensures Tally(db, ids[..|ids|], providers, answer) == Tally(db, ids, providers, answer)
  {
    assert ids[..|ids|] == ids;
  }

  lemma RowsOneMore(db: Db, ids: seq<nat>, k: nat, now: Instant, providers: nat, answer: (nat, nat) -> bool)
    requires k < |ids| && ids[k] < |db.reminders| && ids[k] !in ids[..k]
    ensures
      var before := SentRows(db, ids[..k], now, providers, answer);
      && before[ids[k]] == db.reminders[ids[k]]
      && SentRows(db, ids[..k + 1], now, providers, answer) ==
           before[ids[k] := Attempted(db.reminders[ids[k]], OutcomeOf(db, ids[k], providers, answer), now)]
  {
    assert ids[..k + 1] == ids[..k] + [ids[k]];
  }

  lemma PassOneMore(ids: seq<nat>, k: nat, now: Instant, providers: nat, answer: (nat, nat) -> bool)
    requires k < |ids|
    ensures Pass(ids[..k + 1], now, providers, answer) == Pass(ids[..k], now, providers, answer)
              + (if providers == 0 then [] else [Round(ids[k], now, Answers(answer, ids[k], providers))])
  {
  }

  /** What the next round of a pass adds to the rows, the record and the summary. */
  lemma SendStep(db: Db, ids: seq<nat>, k: nat, rows: seq<Reminder>, rounds: seq<Round>, sofar: Dispatch.Summary,
                 now: Instant, providers: nat, answer: (nat, nat) -> bool)
    requires k < |ids| && forall i :: 0 <= i < |ids| ==> ids[i] < |db.reminders|
    requires forall i, j :: 0 <= i < j < |ids| ==> ids[i] != ids[j]
    requires rows == SentRows(db, ids[..k], now, providers, answer)
    requires rounds == db.rounds + Pass(ids[..k], now, providers, answer)
    requires sofar == Tally(db, ids[..k], providers, answer)
    ensures
      var outcome := Judge(rows[ids[k]], providers, true in Answers(answer, ids[k], providers));
      && SentRows(db, ids[..k + 1], now, providers, answer) == rows[ids[k] := Attempted(rows[ids[k]], outcome, now)]
      && db.rounds + Pass(ids[..k + 1], now, providers, answer)
         == rounds + (if providers == 0 then [] else [Round(ids[k], now, Answers(answer, ids[k], providers))])
      && Tally(db, ids[..k + 1], providers, answer) == Count(sofar, outcome)
  {
    assert ids[k] !in ids[..k];
    RowsOneMore(db, ids, k, now, providers, answer);
    PassOneMore(ids, k, now, providers, answer);
    TallyOneMore(db, ids, k, providers, answer);
  }

  lemma TallyOneMore(db: Db, ids: seq<nat>, k: nat, providers: nat, answer: (nat, nat) -> bool)
    requires k < |ids| && forall i :: 0 <= i < |ids| ==> ids[i] < |db.reminders|
    ensures Tally(db, ids[..k + 1], providers, answer) ==
            Count(Tally(db, ids[..k], providers, answer), OutcomeOf(db, ids[k], providers, answer))
  {
    assert ids[..k + 1][..k] == ids[..k];
  }

  lemma PlanOneMore(rs: seq<Reminder>, t: nat, deadline: Instant, plan: seq<Planned>, k: nat, now: Instant)
    requires k < |plan|
    ensures InsertPlan(rs, t, deadline, plan[..k + 1], now) ==
            Repo.Insert(InsertPlan(rs, t, deadline, plan[..k], now), KeyOf(t, plan[k].kind, deadline), plan[k].at, now)
  {
    assert plan[..k + 1][..k] == plan[..k];
  }

  lemma CloseAllNone(db: Db, to: Status, now: Instant)
    ensures CloseAll(db, [], to, now) == db
  {
    assert CloseAll(db, [], to, now).tasks == db.tasks;
    assert CloseAll(db, [], to, now).reminders == db.reminders;
  }

  lemma CloseOneMore(db: Db, ids: seq<nat>, k: nat, to: Status, now: Instant)
    requires k < |ids| && forall i :: 0 <= i < |ids| ==> ids[i] < |db.tasks|
    requires forall i, j :: 0 <= i < j < |ids| ==> ids[i] != ids[j]
    ensures
      var before, after := CloseAll(db, ids[..k], to, now), CloseAll(db, ids[..k + 1], to, now);
      && after.tasks == before.tasks[ids[k] := Close(before.tasks[ids[k]], to, now)]
      && after.history == before.history + [HistoryRow(ids[k], now, StatusSet(None, to))]
      && after.reminders == Withdraw(before.reminders, [ids[k]], {})
  {
    var before, after := CloseAll(db, ids[..k], to, now), CloseAll(db, ids[..k + 1], to, now);
    assert ids[..k + 1] == ids[..k] + [ids[k]];
    assert ids[k] !in ids[..k];
    assert after.tasks == before.tasks[ids[k] := Close(before.tasks[ids[k]], to, now)];
    WithdrawConcat(db.reminders, ids[..k], [ids[k]]);
  }

  lemma WithdrawConcat(rs: seq<Reminder>, a: seq<nat>, b: seq<nat>)
    ensures Withdraw(rs, a + b, {}) == Withdraw(Withdraw(rs, a, {}), b, {})
  {
  }

  lemma WithdrawNobody(rs: seq<Reminder>)
    ensures Withdraw(rs, [], {}) == rs && PendingOf(rs, []) == {}
  {
  }

  lemma WithdrawOneMore(rs: seq<Reminder>, ids: seq<nat>, k: nat)
    requires k < |ids| && forall i, j :: 0 <= i < j < |ids| ==> ids[i] != ids[j]
    ensures Withdraw(rs, ids[..k + 1], {}) == Withdraw(Withdraw(rs, ids[..k], {}), [ids[k]], {})
    ensures |PendingOf(rs, ids[..k + 1])| ==
            |PendingOf(rs, ids[..k])| + |PendingOf(Withdraw(rs, ids[..k], {}), [ids[k]])|
  {
    assert ids[..k + 1] == ids[..k] + [ids[k]];
    assert ids[k] !in ids[..k];
    WithdrawConcat(rs, ids[..k], [ids[k]]);
    var a, b := PendingOf(rs, ids[..k]), PendingOf(Withdraw(rs, ids[..k], {}), [ids[k]]);
    assert PendingOf(rs, ids[..k + 1]) == a + b && a !! b;
  }

  lemma WithdrawNothing(rs: seq<Reminder>, t: nat)
    requires PendingOf(rs, [t]) == {}
    ensures Withdraw(rs, [t], {}) == rs
  {
    forall j | 0 <= j < |rs| ensures !(rs[j].state == Pending && rs[j].key.task == t) {
      assert j !in PendingOf(rs, [t]);
    }
  }
}
