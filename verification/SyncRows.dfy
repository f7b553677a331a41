/** What a sync writes: every listed row says what its source says, and the task history is exactly the difference
    (ragra/db/repo.py, ragra/sync/classroom_sync.py). */
module SyncRows {
  import opened Text
  import opened Instants
  import opened ReminderPlan
  import opened Records
  import opened Repo
  import opened Classroom
  import opened Resync
  import opened Outcome
  import opened Countdown
  import opened SyncCountdown
  import Sorting

  // ------------------------------------------------------------- what a row says

  /** The title of a listing: its own, else the first 120 characters of its text, else a stand-in. */
  predicate TitleIs(title: string, item: Item) {
    var own := if item.title.Some? then item.title.value else "";
    var text := if item.text.Some? then item.text.value else "";
    && (own != "" ==> title == own)
    && (own == "" && text != "" ==> title <= text && |title| == (if |text| <= 120 then |text| else 120))
    && (own == "" && text == "" ==> title == "(untitled)")
  }

  /** The deadline of a listing: for coursework with a full date of the calendar that date, at the time given, an hour
      left out being 23 and a minute left out 59; none for anything else. */
  predicate DueIs(due: Option<Instant>, source: Source, item: Item) {
    var date := if item.dueDate.Some? then item.dueDate.value else DueDate(None, None, None);
    var hour := if item.dueTime.Some? && item.dueTime.value.hours.Some? then item.dueTime.value.hours.value else 23;
    var minute :=
      if item.dueTime.Some? && item.dueTime.value.minutes.Some? then item.dueTime.value.minutes.value else 59;
    match due
    case Some(at) =>
      var f := ToFields(at);
      source == Coursework && date == DueDate(Some(f.year), Some(f.month), Some(f.day))
      && f == Fields(f.year, f.month, f.day, f.hour, f.minute, 0, 0) && f.hour == hour && f.minute == minute
    case None =>
      source != Coursework || date.year.None? || date.month.None? || date.day.None?
      || !(1 <= date.year.value <= 9999 && 1 <= date.month.value <= 12
           && 1 <= date.day.value <= DaysInMonth(date.year.value, date.month.value)
           && 0 <= hour <= 23 && 0 <= minute <= 59)
  }

  lemma DeadlineAsListed(source: Source, item: Item)
    ensures DueIs(Deadline(source, item), source, item)
  {
    var due := Deadline(source, item);
    if due.Some? {
      var d := item.dueDate.value;
      var h := if item.dueTime.Some? && item.dueTime.value.hours.Some? then item.dueTime.value.hours.value else 23;
      var m := if item.dueTime.Some? && item.dueTime.value.minutes.Some? then item.dueTime.value.minutes.value else 59;
      FieldsReadBack(Fields(d.year.value, d.month.value, d.day.value, h, m, 0, 0));
    }
  }

  /** The row says what the listing says. */
  predicate Agrees(task: Task, source: Source, item: Item) {
    && TitleIs(task.title, item)
    && (if item.description.Some? && item.description.value != "" then task.description == item.description
        else task.description == item.text)
    && task.link == item.link && DueIs(task.deadline, source, item) && task.sourceUpdated == item.updated
  }

  /** What a sync takes from the source. */
  predicate SameContent(a: Task, b: Task) {
    && a.title == b.title && a.description == b.description && a.link == b.link && a.deadline == b.deadline
    && a.sourceUpdated == b.sourceUpdated && a.relevance == b.relevance
  }

  /** As a listing leaves the row of its item: judged as the listing is, if it is, and as before if not; the rest as it
      was if its update time says nothing changed, otherwise as listed. */
  predicate Followed(db: Db, task: Task, t: nat, source: Source, item: Item) {
    && task.relevance == (if item.verdict.Some? then item.verdict.value
                          else if t < |db.tasks| then db.tasks[t].relevance else Unjudged)
    && if t < |db.tasks| && item.updated.Some? && item.updated == db.tasks[t].sourceUpdated
       then SameContent(task.(relevance := db.tasks[t].relevance), db.tasks[t])
       else Agrees(task, source, item)
  }

  lemma RefreshedAgrees(was: Task, item: Item, now: Instant)
    ensures Agrees(Refreshed(was, item, now), was.source, item)
  {
    DeadlineAsListed(was.source, item);
  }

  lemma NewAgrees(course: nat, source: Source, item: Item, now: Instant)
    ensures Agrees(NewTask(course, source, item, now), source, item)
  {
    DeadlineAsListed(source, item);
  }

  /** The row of an item right after its listing. */
  lemma ItemFollowed(cur: Db, course: nat, source: Source, item: Item, now: Instant)
    ensures var after, t := ApplyItem(cur, course, source, item, now), Target(cur, course, source, item);
      t < |after.tasks| && Followed(cur, after.tasks[t], t, source, item)
  {
    var found := FindTask(cur.tasks, course, source, item.id);
    if found.None? {
      NewAgrees(course, source, item, now);
      DiscoverRow(cur, course, source, item, now);
    } else {
      RefreshedAgrees(cur.tasks[found.value], item, now);
      UpdateRow(cur, found.value, item, now);
    }
  }

  lemma DiscoverRow(db: Db, course: nat, source: Source, item: Item, now: Instant)
    ensures var after, t := Discover(db, course, source, item, now), |db.tasks|;
      && |after.tasks| == t + 1 && after.tasks[..t] == db.tasks
      && after.tasks[t] == NewTask(course, source, item, now).(relevance := after.tasks[t].relevance)
      && after.tasks[t].relevance == (if item.verdict.Some? then item.verdict.value else Unjudged)
      && after.history == db.history + [HistoryRow(t, now, Created(after.tasks[t].title))]
                          + (if after.tasks[t].relevance == Unjudged then []
                             else [HistoryRow(t, now, RelevanceSet(Unjudged, after.tasks[t].relevance))])
  {
    var task := NewTask(course, source, item, now);
    var added := AddTask(db, task, now);
    var judged := SetRelevance(added, |db.tasks|, item.verdict, now);
    assert Discover(db, course, source, item, now).tasks == judged.tasks;
    assert Discover(db, course, source, item, now).history == judged.history;
    RelevanceRow(added, |db.tasks|, item.verdict, now);
  }

  lemma RelevanceRow(db: Db, t: nat, verdict: Option<Relevance>, now: Instant)
    requires t < |db.tasks|
    ensures var after, was := SetRelevance(db, t, verdict, now), db.tasks[t];
      && |after.tasks| == |db.tasks|
      && (forall i :: 0 <= i < |db.tasks| && i != t ==> after.tasks[i] == db.tasks[i])
      && after.tasks[t] == was.(relevance := if verdict.Some? then verdict.value else was.relevance)
      && after.history == db.history
                          + (if after.tasks[t].relevance == was.relevance then []
                             else [HistoryRow(t, now, RelevanceSet(was.relevance, after.tasks[t].relevance))])
  {
  }

  lemma UpdateRow(db: Db, t: nat, item: Item, now: Instant)
    requires t < |db.tasks|
    ensures
      var after, was := Update(db, t, item, now), db.tasks[t];
      var task := if UpToDate(was, item) then was else Refreshed(was, item, now);
      && |after.tasks| == |db.tasks|
      && (forall i :: 0 <= i < |db.tasks| && i != t ==> after.tasks[i] == db.tasks[i])
      && after.tasks[t] == task.(relevance := if item.verdict.Some? then item.verdict.value else was.relevance)
      && after.history == db.history + Rows(t, Changes(was, task), now)
                          + (if after.tasks[t].relevance == was.relevance then []
                             else [HistoryRow(t, now, RelevanceSet(was.relevance, after.tasks[t].relevance))])
  {
    var was := db.tasks[t];
    var task := Refreshed(was, item, now);
    if UpToDate(was, item) {
      assert Rows(t, Changes(was, was), now) == [];
      RelevanceRow(db, t, item.verdict, now);
    } else {
      RelevanceRow(SetTask(db, t, task, Changes(was, task), now), t, item.verdict, now);
    }
  }

  // ----------------------------------------------------------- what the history gains

  /** The change is one of the four tracked columns, from the one row to the other. */
  predicate TrackedChange(was: Task, task: Task, c: Change) {
    match c
    case TitleChanged(a, b) => a == was.title && b == task.title && a != b
    case DescriptionChanged(a, b) => a == was.description && b == task.description && a != b
    case LinkChanged(a, b) => a == was.link && b == task.link && a != b
    case DeadlineMoved(a, b) => a == was.deadline && b == task.deadline && a != b
    case _ => false
  }

  function OldStatus(db: Db, cur: Db, t: nat): Status
    requires t < |cur.tasks|
  {
    if t < |db.tasks| then db.tasks[t].status else FirstStatus(cur.tasks[t].source)
  }

  function OldRelevance(db: Db, t: nat): Relevance {
    if t < |db.tasks| then db.tasks[t].relevance else Unjudged
  }

  /** The change tells how task t differs between two states: that it was created, a tracked column that is not what it
      was, its status, its relevance. */
  predicate Difference(db: Db, cur: Db, t: nat, c: Change)
    requires t < |cur.tasks|
  {
    var task := cur.tasks[t];
    match c
    case Created(title) => t >= |db.tasks| && title == task.title
    case StatusSet(a, b) => a == None && b == task.status && b != OldStatus(db, cur, t)
    case RelevanceSet(a, b) => a == OldRelevance(db, t) && b == task.relevance && a != b
    case PersonalSet(_, _) => false
    case _ => t < |db.tasks| && TrackedChange(db.tasks[t], task, c)
  }

  predicate Gained(db: Db, cur: Db, h: HistoryRow, now: Instant) {
    h.at == now && h.task < |cur.tasks| && Difference(db, cur, h.task, h.change)
  }

  /** The history is that of before and one row for each difference. */
  ghost predicate HistoryIsDifference(db: Db, cur: Db, h: HistoryRow, now: Instant) {
    multiset(cur.history)[h] == multiset(db.history)[h] + if Gained(db, cur, h, now) then 1 else 0
  }

  lemma {:induction false} RowsCount(t: nat, changes: seq<Change>, now: Instant, h: HistoryRow)
    ensures multiset(Rows(t, changes, now))[h] == if h.task == t && h.at == now then multiset(changes)[h.change] else 0
  {
    if changes == [] {
      assert Rows(t, changes, now) == [];
    } else {
      var front, last := changes[..|changes| - 1], changes[|changes| - 1];
      RowsCount(t, front, now, h);
      assert changes == front + [last];
      assert Rows(t, changes, now) == Rows(t, front, now) + [HistoryRow(t, now, last)];
    }
  }

  lemma IfCount(wanted: bool, x: Change, c: Change)
    ensures multiset(Classroom.If(wanted, x))[c] == if wanted && c == x then 1 else 0
  {
  }

  lemma FourCount(a: seq<Change>, b: seq<Change>, d: seq<Change>, e: seq<Change>, c: Change)
    ensures multiset(a + b + d + e)[c] == multiset(a)[c] + multiset(b)[c] + multiset(d)[c] + multiset(e)[c]
  {
    assert multiset(a + b + d + e) == multiset(a) + multiset(b) + multiset(d) + multiset(e);
  }

  lemma ChangesCount(was: Task, task: Task, c: Change)
    ensures multiset(Changes(was, task))[c] == if TrackedChange(was, task, c) then 1 else 0
  {
    var title, link := TitleChanged(was.title, task.title), LinkChanged(was.link, task.link);
    var text := DescriptionChanged(was.description, task.description);
    var moved := DeadlineMoved(was.deadline, task.deadline);
    IfCount(was.title != task.title, title, c);
    IfCount(was.description != task.description, text, c);
    IfCount(was.link != task.link, link, c);
    IfCount(was.deadline != task.deadline, moved, c);
    FourCount(Classroom.If(was.title != task.title, title), Classroom.If(was.description != task.description, text),
              Classroom.If(was.link != task.link, link), Classroom.If(was.deadline != task.deadline, moved), c);
    TrackedAre(was, task, c);
  }

  lemma TrackedAre(was: Task, task: Task, c: Change)
    ensures TrackedChange(was, task, c) <==>
            || (was.title != task.title && c == TitleChanged(was.title, task.title))
            || (was.description != task.description && c == DescriptionChanged(was.description, task.description))
            || (was.link != task.link && c == LinkChanged(was.link, task.link))
            || (was.deadline != task.deadline && c == DeadlineMoved(was.deadline, task.deadline))
  {
  }

  lemma ConcatCount(a: seq<HistoryRow>, b: seq<HistoryRow>, h: HistoryRow)
    ensures multiset(a + b)[h] == multiset(a)[h] + multiset(b)[h]
  {
    assert multiset(a + b) == multiset(a) + multiset(b);
  }

  /** One row is rewritten: its tracked columns, then its relevance. */
  lemma RewriteHistory(db: Db, after: Db, t: nat, task: Task, now: Instant, h: HistoryRow)
    requires t < |db.tasks| && |after.tasks| == |db.tasks|
    requires after.tasks[t] == task && task.status == db.tasks[t].status
    requires forall i :: 0 <= i < |db.tasks| && i != t ==> after.tasks[i] == db.tasks[i]
    requires after.history == db.history + Rows(t, Changes(db.tasks[t], task), now)
                              + (if task.relevance == db.tasks[t].relevance then []
                                 else [HistoryRow(t, now, RelevanceSet(db.tasks[t].relevance, task.relevance))])
    ensures HistoryIsDifference(db, after, h, now)
  {
    var was := db.tasks[t];
    var tracked := Rows(t, Changes(was, task), now);
    var judged := if task.relevance == was.relevance then []
                  else [HistoryRow(t, now, RelevanceSet(was.relevance, task.relevance))];
    ConcatCount(db.history + tracked, judged, h);
    ConcatCount(db.history, tracked, h);
    RowsCount(t, Changes(was, task), now, h);
    ChangesCount(was, task, h.change);
    RewriteDifference(db, after, t, h, now);
  }

  /** The differences of a rewritten task. */
  lemma RewriteDifference(db: Db, after: Db, t: nat, h: HistoryRow, now: Instant)
    requires t < |db.tasks| && |after.tasks| == |db.tasks| && after.tasks[t].status == db.tasks[t].status
    requires forall i :: 0 <= i < |db.tasks| && i != t ==> after.tasks[i] == db.tasks[i]
    ensures var was, task := db.tasks[t], after.tasks[t];
      Gained(db, after, h, now) <==>
        && h.at == now && h.task == t
        && (TrackedChange(was, task, h.change)
            || (h.change == RelevanceSet(was.relevance, task.relevance) && task.relevance != was.relevance))
  {
  }

  lemma DiscoveryHistory(db: Db, course: nat, source: Source, item: Item, now: Instant, h: HistoryRow)
    ensures HistoryIsDifference(db, Discover(db, course, source, item, now), h, now)
  {
    var after, t := Discover(db, course, source, item, now), |db.tasks|;
    DiscoverRow(db, course, source, item, now);
    var created := [HistoryRow(t, now, Created(after.tasks[t].title))];
    var judged := if after.tasks[t].relevance == Unjudged then []
                  else [HistoryRow(t, now, RelevanceSet(Unjudged, after.tasks[t].relevance))];
    ConcatCount(db.history + created, judged, h);
    ConcatCount(db.history, created, h);
    FoundDifference(db, after, h, now);
  }

  /** The differences of a new task. */
  lemma FoundDifference(db: Db, after: Db, h: HistoryRow, now: Instant)
    requires var t := |db.tasks|;
      && |after.tasks| == t + 1 && after.tasks[..t] == db.tasks
      && after.tasks[t].status == FirstStatus(after.tasks[t].source)
    ensures var t, task := |db.tasks|, after.tasks[|db.tasks|];
      Gained(db, after, h, now) <==>
        && h.at == now && h.task == t
        && (h.change == Created(task.title)
            || (h.change == RelevanceSet(Unjudged, task.relevance) && task.relevance != Unjudged))
  {
    assert forall i :: 0 <= i < |db.tasks| ==> after.tasks[i] == after.tasks[..|db.tasks|][i];
  }

  lemma {:induction false} ClosingRowsCount(which: seq<nat>, to: Status, now: Instant, h: HistoryRow)
    ensures var rows := seq(|which|, i requires 0 <= i < |which| => HistoryRow(which[i], now, StatusSet(None, to)));
      multiset(rows)[h] == if h.at == now && h.change == StatusSet(None, to) then multiset(which)[h.task] else 0
  {
    var rows := seq(|which|, i requires 0 <= i < |which| => HistoryRow(which[i], now, StatusSet(None, to)));
    if which == [] {
      assert rows == [];
    } else {
      var front, last := which[..|which| - 1], which[|which| - 1];
      ClosingRowsCount(front, to, now, h);
      var before := seq(|front|, i requires 0 <= i < |front| => HistoryRow(front[i], now, StatusSet(None, to)));
      assert rows == before + [HistoryRow(last, now, StatusSet(None, to))];
      assert which == front + [last];
    }
  }

  /** Closing distinct tasks that did not have that status. */
  lemma CloseHistory(db: Db, which: seq<nat>, to: Status, now: Instant, h: HistoryRow)
    requires Sorting.NoDuplicates(which) && to in {Missed, Cancelled}
    requires forall i :: 0 <= i < |which| ==> which[i] < |db.tasks| && db.tasks[which[i]].status != to
    ensures HistoryIsDifference(db, CloseAll(db, which, to, now), h, now)
  {
    var rows := seq(|which|, i requires 0 <= i < |which| => HistoryRow(which[i], now, StatusSet(None, to)));
    ConcatCount(db.history, rows, h);
    ClosingRowsCount(which, to, now, h);
    Sorting.NoDuplicatesByCount(which);
    ClosedDifference(db, CloseAll(db, which, to, now), which, to, h, now);
  }

  lemma ClosedDifference(db: Db, after: Db, which: seq<nat>, to: Status, h: HistoryRow, now: Instant)
    requires to in {Missed, Cancelled} && |after.tasks| == |db.tasks|
    requires forall i :: 0 <= i < |which| ==> which[i] < |db.tasks| && db.tasks[which[i]].status != to
    requires forall i :: 0 <= i < |db.tasks| ==>
               after.tasks[i] == if i in which then Close(db.tasks[i], to, now) else db.tasks[i]
    ensures Gained(db, after, h, now) <==> h.at == now && h.change == StatusSet(None, to) && h.task in which
  {
  }

  /** The history of one operation is the difference it makes. */
  lemma StepHistory(cur: Db, op: Op, now: Instant, h: HistoryRow)
    ensures HistoryIsDifference(cur, Step(cur, op, now), h, now)
  {
    match op
    case SeeCourse(c) =>
    case SeeItem(course, source, item) =>
      var c := FindCourse(cur.courses, course);
      if c.Some? { ItemHistory(cur, c.value, source, item, now, h); }
    case Sweep(course, source, seen) =>
      var c := FindCourse(cur.courses, course);
      if c.Some? { SweepHistory(cur, c.value, source, seen, now, h); }
  }

  lemma ItemHistory(cur: Db, c: nat, source: Source, item: Item, now: Instant, h: HistoryRow)
    ensures HistoryIsDifference(cur, ApplyItem(cur, c, source, item, now), h, now)
  {
    var found := FindTask(cur.tasks, c, source, item.id);
    if found.None? {
      DiscoveryHistory(cur, c, source, item, now, h);
    } else {
      var t := found.value;
      UpdateRow(cur, t, item, now);
      var after := Update(cur, t, item, now);
      RewriteHistory(cur, after, t, after.tasks[t], now, h);
    }
  }

  lemma SweepHistory(cur: Db, c: nat, source: Source, seen: set<string>, now: Instant, h: HistoryRow)
    ensures HistoryIsDifference(cur, SweepMissing(cur, c, source, seen, now), h, now)
  {
    var ids := UnlistedIds(cur.tasks, c, source, seen);
    assert forall i :: 0 <= i < |ids| ==> ids[i] in ids;
    CloseHistory(cur, ids, Cancelled, now, h);
  }

  // ------------------------------------------------------------------ over a whole sync

  /** A step that does not list the task keeps its content, and can only change a status that is still the old one. */
  predicate Passed(db: Db, cur: Db, after: Db, t: nat)
    requires t < |cur.tasks| && t < |after.tasks|
  {
    SameContent(after.tasks[t], cur.tasks[t])
    && (after.tasks[t].status == cur.tasks[t].status || cur.tasks[t].status == OldStatus(db, cur, t))
  }

  /** The step that lists a stored task finds it with its old content and keeps its status. */
  predicate JustListed(db: Db, cur: Db, after: Db, t: nat)
    requires t < |cur.tasks| && t < |after.tasks|
  {
    t < |db.tasks| && SameContent(cur.tasks[t], db.tasks[t]) && after.tasks[t].status == cur.tasks[t].status
  }

  lemma HistoriesCompose(db: Db, cur: Db, after: Db, h: HistoryRow, now: Instant)
    requires HistoryIsDifference(db, cur, h, now) && HistoryIsDifference(cur, after, h, now)
    requires |db.tasks| <= |cur.tasks| <= |after.tasks|
    requires h.task < |cur.tasks| ==> after.tasks[h.task].source == cur.tasks[h.task].source
    requires h.task < |cur.tasks| ==> Passed(db, cur, after, h.task) || JustListed(db, cur, after, h.task)
    ensures HistoryIsDifference(db, after, h, now)
  {
    if h.at == now && h.task < |cur.tasks| {
      if Passed(db, cur, after, h.task) {
        PassedComposes(db, cur, after, h.task, h.change);
      } else {
        ListedComposes(db, cur, after, h.task, h.change);
      }
    }
  }

  lemma PassedComposes(db: Db, cur: Db, after: Db, t: nat, c: Change)
    requires |db.tasks| <= |cur.tasks| <= |after.tasks| && t < |cur.tasks|
    requires after.tasks[t].source == cur.tasks[t].source && Passed(db, cur, after, t)
    ensures Difference(db, after, t, c) <==> Difference(db, cur, t, c) || Difference(cur, after, t, c)
    ensures !(Difference(db, cur, t, c) && Difference(cur, after, t, c))
  {
  }

  lemma ListedComposes(db: Db, cur: Db, after: Db, t: nat, c: Change)
    requires |db.tasks| <= |cur.tasks| <= |after.tasks| && t < |cur.tasks|
    requires after.tasks[t].source == cur.tasks[t].source && JustListed(db, cur, after, t)
    ensures Difference(db, after, t, c) <==> Difference(db, cur, t, c) || Difference(cur, after, t, c)
    ensures !(Difference(db, cur, t, c) && Difference(cur, after, t, c))
  {
  }

  /** A task in the middle of a sync: listed, or with its old content; with its old status, or cancelled; and as each
      listing of it said. */
  predicate RowState(db: Db, cur: Db, ops: seq<Op>, t: nat) {
    && t < |cur.tasks| && cur.tasks[t].course < |cur.courses|
    && (Listed(ops, CourseIdOf(cur, t), cur.tasks[t])
        || (t < |db.tasks| && SameContent(cur.tasks[t], db.tasks[t])))
    && (cur.tasks[t].status == OldStatus(db, cur, t) || cur.tasks[t].status == Cancelled)
    && (forall j :: 0 <= j < |ops| && OwnedBy(ops[j], CourseIdOf(cur, t), cur.tasks[t]) ==>
          Followed(db, cur.tasks[t], t, cur.tasks[t].source, ops[j].item))
  }

  /** Any operation but the task's own listing. */
  lemma OtherOpPasses(db: Db, cur: Db, op: Op, t: nat, now: Instant)
    requires Sound(cur) && t < |cur.tasks| && |db.tasks| <= |cur.tasks|
    requires op.SeeItem? && FindCourse(cur.courses, op.course).Some? ==>
               t != Target(cur, FindCourse(cur.courses, op.course).value, op.source, op.item)
    requires cur.tasks[t].status == OldStatus(db, cur, t) || cur.tasks[t].status == Cancelled
    ensures var after := Step(cur, op, now);
      && Kept(cur, after, t) && Passed(db, cur, after, t)
      && (after.tasks[t].status == cur.tasks[t].status || after.tasks[t].status == Cancelled)
  {
    StepStatus(cur, op, t, now);
    OtherOpKeepsContent(cur, op, t, now);
  }

  lemma OtherOpKeepsContent(cur: Db, op: Op, t: nat, now: Instant)
    requires Sound(cur) && t < |cur.tasks|
    requires op.SeeItem? && FindCourse(cur.courses, op.course).Some? ==>
               t != Target(cur, FindCourse(cur.courses, op.course).value, op.source, op.item)
    ensures t < |Step(cur, op, now).tasks| && SameContent(Step(cur, op, now).tasks[t], cur.tasks[t])
  {
    match op
    case SeeCourse(c) =>
    case SeeItem(course, source, item) =>
      var c := FindCourse(cur.courses, course);
      if c.Some? { ItemOwns(cur, c.value, course, source, item, now); }
    case Sweep(course, source, seen) =>
      var c := FindCourse(cur.courses, course);
      if c.Some? { SweepKeepsContent(cur, c.value, source, seen, t, now); }
  }

  lemma SweepKeepsContent(cur: Db, c: nat, source: Source, seen: set<string>, t: nat, now: Instant)
    requires t < |cur.tasks|
    ensures var after := SweepMissing(cur, c, source, seen, now);
      t < |after.tasks| && SameContent(after.tasks[t], cur.tasks[t])
  {
    SweepRow(cur, c, source, seen, t, now);
  }

  lemma FollowedStays(db: Db, was: Task, task: Task, t: nat, source: Source, item: Item)
    requires SameContent(task, was) && Followed(db, was, t, source, item)
    ensures Followed(db, task, t, source, item)
  {
  }

  lemma OtherOpKeepsRow(db: Db, cur: Db, after: Db, ops: seq<Op>, op: Op, t: nat)
    requires RowState(db, cur, ops, t) && |db.tasks| <= |cur.tasks| && Kept(cur, after, t)
    requires Passed(db, cur, after, t)
    requires after.tasks[t].status == cur.tasks[t].status || after.tasks[t].status == Cancelled
    requires !OwnedBy(op, CourseIdOf(cur, t), cur.tasks[t])
    ensures RowState(db, after, ops + [op], t)
  {
    var course := CourseIdOf(cur, t);
    if Listed(ops, course, cur.tasks[t]) { ListedStays(ops, op, course, cur.tasks[t], after.tasks[t]); }
    forall j | 0 <= j < |ops + [op]| && OwnedBy((ops + [op])[j], course, after.tasks[t])
      ensures Followed(db, after.tasks[t], t, after.tasks[t].source, (ops + [op])[j].item)
    {
      assert OwnedBy((ops + [op])[j], course, cur.tasks[t]);
      assert j < |ops|;
      FollowedStays(db, cur.tasks[t], after.tasks[t], t, cur.tasks[t].source, ops[j].item);
    }
  }

  /** The task's own listing. */
  lemma OwnItemKeepsRow(db: Db, cur: Db, ops: seq<Op>, c: nat, course: string, source: Source, item: Item, t: nat,
                        now: Instant)
    requires Sound(cur) && FindCourse(cur.courses, course) == Some(c) && |db.tasks| <= |cur.tasks|
    requires t == Target(cur, c, source, item)
    requires t < |cur.tasks| ==> t < |db.tasks| && RowState(db, cur, ops, t) && SameContent(cur.tasks[t], db.tasks[t])
    requires forall j :: 0 <= j < |ops| ==> Apart(ops[j], SeeItem(course, source, item))
    ensures RowState(db, ApplyItem(cur, c, source, item, now), ops + [SeeItem(course, source, item)], t)
  {
    var after, op := ApplyItem(cur, c, source, item, now), SeeItem(course, source, item);
    ItemOwns(cur, c, course, source, item, now);
    ApplyItemWrites(cur, c, source, item, now);
    ItemFollowed(cur, c, source, item, now);
    ListedNow(ops, op, course, after.tasks[t]);
    if t >= |cur.tasks| { DiscoveredDeadline(cur, c, source, item, now); }
    forall j | 0 <= j < |ops| ensures !OwnedBy(ops[j], course, after.tasks[t]) { assert Apart(ops[j], op); }
    assert forall j :: 0 <= j < |ops| ==> (ops + [op])[j] == ops[j];
  }

  lemma StepKeepsRow(db: Db, cur: Db, ops: seq<Op>, op: Op, t: nat, now: Instant)
    requires Sound(cur) && |db.tasks| <= |cur.tasks| && AllApart(ops + [op])
    requires t < |cur.tasks| ==> RowState(db, cur, ops, t)
    requires t < |Step(cur, op, now).tasks|
    ensures RowState(db, Step(cur, op, now), ops + [op], t)
    ensures t < |cur.tasks| ==>
              && Kept(cur, Step(cur, op, now), t)
              && (Passed(db, cur, Step(cur, op, now), t) || JustListed(db, cur, Step(cur, op, now), t))
  {
    if op.SeeItem? && FindCourse(cur.courses, op.course).Some?
       && t == Target(cur, FindCourse(cur.courses, op.course).value, op.source, op.item) {
      var c := FindCourse(cur.courses, op.course).value;
      if t < |cur.tasks| {
        TargetIsOwned(cur, c, op.course, op.source, op.item);
        ListedOnce(ops, op, CourseIdOf(cur, t), cur.tasks[t]);
        StepStatus(cur, op, t, now);
      }
      forall j | 0 <= j < |ops| ensures Apart(ops[j], op) { assert Apart((ops + [op])[j], (ops + [op])[|ops|]); }
      OwnItemKeepsRow(db, cur, ops, c, op.course, op.source, op.item, t, now);
    } else {
      StepAddsTarget(cur, op, now, t);
      OtherOpPasses(db, cur, op, t, now);
      NotOwned(cur, op, t);
      OtherOpKeepsRow(db, cur, Step(cur, op, now), ops, op, t);
    }
  }

  /** An operation that owns a task has it as its target. */
  lemma NotOwned(cur: Db, op: Op, t: nat)
    requires Sound(cur) && t < |cur.tasks|
    requires op.SeeItem? && FindCourse(cur.courses, op.course).Some? ==>
               t != Target(cur, FindCourse(cur.courses, op.course).value, op.source, op.item)
    ensures !OwnedBy(op, CourseIdOf(cur, t), cur.tasks[t])
  {
    if OwnedBy(op, CourseIdOf(cur, t), cur.tasks[t]) {
      FoundIsOwn(cur.courses, cur.tasks[t].course, op.course);
      var c := cur.tasks[t].course;
      var f := FindTask(cur.tasks, c, op.source, op.item.id).value;
      assert SameItem(cur.tasks[f], cur.tasks[t]) && SameItem(cur.tasks[t], cur.tasks[f]);
    }
  }

  lemma {:induction false} RunKeepsRow(db: Db, ops: seq<Op>, t: nat, now: Instant)
    requires Sound(db) && AllApart(ops) && forall i :: 0 <= i < |ops| ==> Proper(ops[i])
    requires t < |RunOps(db, ops, now).tasks|
    ensures RowState(db, RunOps(db, ops, now), ops, t)
  {
    if ops != [] {
      var front := ops[..|ops| - 1];
      RunKeepsSound(db, front, now);
      RunGrows(db, front, now);
      if t < |RunOps(db, front, now).tasks| { RunKeepsRow(db, front, t, now); }
      RowStateLast(db, RunOps(db, front, now), RunOps(db, ops, now), ops, t, now);
    }
  }

  lemma RowStateLast(db: Db, cur: Db, after: Db, ops: seq<Op>, t: nat, now: Instant)
    requires ops != [] && after == Step(cur, ops[|ops| - 1], now) && t < |after.tasks|
    requires Sound(cur) && |db.tasks| <= |cur.tasks| && AllApart(ops)
    requires t < |cur.tasks| ==> RowState(db, cur, ops[..|ops| - 1], t)
    ensures RowState(db, after, ops, t)
  {
    var front, last := ops[..|ops| - 1], ops[|ops| - 1];
    assert ops == front + [last];
    StepKeepsRow(db, cur, front, last, t, now);
  }

  lemma {:induction false} RunHistory(db: Db, ops: seq<Op>, now: Instant, h: HistoryRow)
    requires Sound(db) && AllApart(ops) && forall i :: 0 <= i < |ops| ==> Proper(ops[i])
    ensures HistoryIsDifference(db, RunOps(db, ops, now), h, now)
  {
    if ops != [] {
      var front, last := ops[..|ops| - 1], ops[|ops| - 1];
      assert ops == front + [last];
      RunKeepsSound(db, front, now);
      RunGrows(db, front, now);
      RunHistory(db, front, now, h);
      if h.task < |RunOps(db, front, now).tasks| { RunKeepsRow(db, front, h.task, now); }
      StepHistoryOn(db, RunOps(db, front, now), front, last, now, h);
    }
  }

  lemma StepHistoryOn(db: Db, cur: Db, ops: seq<Op>, op: Op, now: Instant, h: HistoryRow)
    requires Sound(db) && Sound(cur) && |db.tasks| <= |cur.tasks| && AllApart(ops + [op])
    requires h.task < |cur.tasks| ==> RowState(db, cur, ops, h.task)
    requires HistoryIsDifference(db, cur, h, now)
    ensures HistoryIsDifference(db, Step(cur, op, now), h, now)
  {
    StepHistory(cur, op, now, h);
    StepGrows(cur, op, now);
    if h.task < |cur.tasks| { StepKeepsRow(db, cur, ops, op, h.task, now); }
    HistoriesCompose(db, cur, Step(cur, op, now), h, now);
  }

  // -------------------------------------------------------------- at the end of a sync

  lemma FinishKeepsContent(ran: Db, t: nat, now: Instant)
    requires t < |Finish(ran, now).tasks|
    ensures |Finish(ran, now).tasks| == |ran.tasks|
    ensures SameContent(Finish(ran, now).tasks[t], ran.tasks[t])
  {
    FinishRowIs(ran, t, now);
    MissedKeepsContent(ran.tasks[t], Finish(ran, now).tasks[t], now);
  }

  lemma MissedKeepsContent(task: Task, after: Task, now: Instant)
    requires after == if Overdue(task, now) then Close(task, Missed, now) else task
    ensures SameContent(after, task) && after.source == task.source
    ensures after.status == task.status || task.status != Cancelled
  {
  }

  /** The row of an item of a course. */
  predicate IsRowOf(db: Db, course: string, source: Source, id: string, t: nat) {
    && t < |db.tasks| && db.tasks[t].course < |db.courses| && CourseIdOf(db, t) == course
    && db.tasks[t].source == source && db.tasks[t].externalId == Some(id)
  }

  /** After a sync the row of every listed item of a live course says what the listing says - title, description, link,
      deadline, update time - unless the item carries the update time stored before, in which case its row is as it
      was; and it is judged as the sync judged the item. */
  lemma ListedRowsAgree(db: Db, courses: seq<CourseListing>, k: nat, source: Source, i: nat, now: Instant)
    requires Sound(db) && Distinct(courses)
    requires k < |courses| && Live(courses[k].state) && source != Manual && i < |Of(courses[k], source).items|
    ensures
      var done, item := Sync(db, courses, now), Of(courses[k], source).items[i];
      exists t: nat :: t < |done.tasks| && IsRowOf(done, courses[k].id, source, item.id, t)
        && Followed(db, done.tasks[t], t, source, item)
  {
    var t := RowOfItem(db, courses, k, source, i, now);
    RowFollows(db, courses, k, source, i, t, now);
  }

  lemma RowOfItem(db: Db, courses: seq<CourseListing>, k: nat, source: Source, i: nat, now: Instant) returns (t: nat)
    requires Sound(db) && Distinct(courses)
    requires k < |courses| && Live(courses[k].state) && source != Manual && i < |Of(courses[k], source).items|
    ensures IsRowOf(Sync(db, courses, now), courses[k].id, source, Of(courses[k], source).items[i].id, t)
  {
    var done, item := Sync(db, courses, now), Of(courses[k], source).items[i];
    OneRowPerListedItem(db, courses, k, source, i, now);
    var c: nat, u: nat :| OnlyRow(done, courses[k].id, c, source, item, u, now);
    t := u;
  }

  /** Of every row of the item. */
  lemma RowFollows(db: Db, courses: seq<CourseListing>, k: nat, source: Source, i: nat, t: nat, now: Instant)
    requires Sound(db) && Distinct(courses)
    requires k < |courses| && Live(courses[k].state) && source != Manual && i < |Of(courses[k], source).items|
    requires IsRowOf(Sync(db, courses, now), courses[k].id, source, Of(courses[k], source).items[i].id, t)
    ensures Followed(db, Sync(db, courses, now).tasks[t], t, source, Of(courses[k], source).items[i])
  {
    var ops, item := AllOps(courses), Of(courses[k], source).items[i];
    var ran := RunOps(db, ops, now);
    AllOpsApart(courses);
    AllOpsProper(courses);
    FinishRow(ran, t, now);
    RunKeepsRow(db, ops, t, now);
    ItemIsSeen(courses, k, source, i);
    var j :| 0 <= j < |ops| && ops[j] == SeeItem(courses[k].id, source, item);
    assert OwnedBy(ops[j], CourseIdOf(ran, t), ran.tasks[t]);
    FinishKeepsContent(ran, t, now);
    FollowedStays(db, ran.tasks[t], Sync(db, courses, now).tasks[t], t, source, item);
  }

  lemma FinishHistory(ran: Db, now: Instant, h: HistoryRow)
    ensures HistoryIsDifference(ran, Finish(ran, now), h, now)
  {
    var mid := DropBacklog(ran);
    MissedHistory(mid, now, h);
    SameRecords(ran, mid, Finish(ran, now), MarkMissed(mid, now), h, now);
  }

  lemma MissedHistory(mid: Db, now: Instant, h: HistoryRow)
    ensures HistoryIsDifference(mid, MarkMissed(mid, now), h, now)
  {
    var ids := OverdueIds(mid.tasks, now);
    assert forall i :: 0 <= i < |ids| ==> ids[i] in ids;
    CloseHistory(mid, ids, Missed, now, h);
  }

  /** Reminders do not matter here. */
  lemma SameRecords(a: Db, a': Db, b: Db, b': Db, h: HistoryRow, now: Instant)
    requires a.tasks == a'.tasks && a.history == a'.history && b.tasks == b'.tasks && b.history == b'.history
    requires HistoryIsDifference(a', b', h, now)
    ensures HistoryIsDifference(a, b, h, now)
  {
  }

  /** What a sync adds to the task history is exactly the difference it makes: for every task it created, retitled,
      redescribed, relinked, moved, judged anew, cancelled or found missed, one row for each such change, with the old
      and the new value; and no other row. */
  lemma SyncHistoryIsTheDifference(db: Db, courses: seq<CourseListing>, now: Instant, h: HistoryRow)
    requires Sound(db) && Distinct(courses)
    ensures HistoryIsDifference(db, Sync(db, courses, now), h, now)
  {
    var ops := AllOps(courses);
    var ran := RunOps(db, ops, now);
    AllOpsApart(courses);
    AllOpsProper(courses);
    RunGrows(db, ops, now);
    RunHistory(db, ops, now, h);
    FinishHistory(ran, now, h);
    FinishRows(ran, now);
    if h.task < |ran.tasks| {
      RunKeepsRow(db, ops, h.task, now);
      FinishPasses(db, ran, h.task, now);
    }
    HistoriesCompose(db, ran, Finish(ran, now), h, now);
  }

  lemma FinishPasses(db: Db, ran: Db, t: nat, now: Instant)
    requires t < |ran.tasks| && (ran.tasks[t].status == OldStatus(db, ran, t) || ran.tasks[t].status == Cancelled)
    ensures t < |Finish(ran, now).tasks| && Passed(db, ran, Finish(ran, now), t)
    ensures Finish(ran, now).tasks[t].source == ran.tasks[t].source
  {
    FinishRowIs(ran, t, now);
    MissedKeepsContent(ran.tasks[t], Finish(ran, now).tasks[t], now);
  }
}
