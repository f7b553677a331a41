/** Reconciling a Classroom account into the store (ragra/sync/classroom_sync.py): what one sync does, in
    order, and what it leaves behind. */
module Classroom {
  import opened Text
  import Sorting
  import opened Instants
  import opened ReminderPlan
  import opened Records
  import opened Repo

  // -------------------------------------------------------------- the source

  datatype DueDate = DueDate(year: Option<int>, month: Option<int>, day: Option<int>)

  datatype DueTime = DueTime(hours: Option<int>, minutes: Option<int>)

  /** One listed item. `verdict` is what the relevance engine decides for it in this run, None when there is
      no profile or the engine failed; `posted` is its creation time where that can be parsed. */
  datatype Item = Item(id: string, title: Option<string>, text: Option<string>, description: Option<string>,
                       link: Option<string>, posted: Option<Instant>, updated: Option<string>,
                       dueDate: Option<DueDate>, dueTime: Option<DueTime>, verdict: Option<Relevance>)

  /** The items of one source that were applied, and whether the source was read to its end. */
  datatype Listing = Listing(items: seq<Item>, readable: bool)

  datatype CourseListing = CourseListing(id: string, name: string, section: Option<string>, state: string,
                                         coursework: Listing, announcements: Listing, materials: Listing)

  function Of(c: CourseListing, source: Source): Listing
    requires source != Manual
  {
    match source
    case Coursework => c.coursework
    case Announcement => c.announcements
    case Material => c.materials
  }

  /** _classroom_due_to_iso: no date, an incomplete one or one that does not exist means no deadline; a
      missing time means 23:59. */
  function ClassroomDue(date: Option<DueDate>, time: Option<DueTime>): Option<Instant> {
    match date
    case None => None
    case Some(d) =>
      var h := if time.Some? && time.value.hours.Some? then time.value.hours.value else 23;
      var m := if time.Some? && time.value.minutes.Some? then time.value.minutes.value else 59;
      if d.year.Some? && d.month.Some? && d.day.Some? && d.year.value > 0 && d.month.value > 0 && d.day.value > 0
         && h >= 0 && m >= 0 && Valid(Fields(d.year.value, d.month.value, d.day.value, h, m, 0, 0))
      then Some(FromFields(Fields(d.year.value, d.month.value, d.day.value, h, m, 0, 0)))
      else None
  }

  function Deadline(source: Source, item: Item): Option<Instant> {
    if source == Coursework then ClassroomDue(item.dueDate, item.dueTime) else None
  }

  /** Python's `x or y` on optional texts. */
  function Or(x: Option<string>, y: Option<string>): Option<string> {
    if x.Some? && x.value != "" then x else y
  }

  function TitleOf(item: Item): string {
    var text := if item.text.Some? then item.text.value else "";
    var head := if |text| > 120 then text[..120] else text;
    if item.title.Some? && item.title.value != "" then item.title.value
    else if head != "" then head else "(untitled)"
  }

  // ---------------------------------------------------------------- one item

  function NewTask(course: nat, source: Source, item: Item, now: Instant): Task {
    Task(course, source, Some(item.id), TitleOf(item), Or(item.description, item.text), item.link,
         Deadline(source, item), None, item.updated,
         if source == Coursework then ActionRequired else Discovered, Unjudged, now, now, None, None, None)
  }

  /** The stored row after an update from the source. */
  function Refreshed(was: Task, item: Item, now: Instant): Task {
    was.(title := TitleOf(item), description := Or(item.description, item.text), link := item.link,
         deadline := Deadline(was.source, item), sourceUpdated := item.updated, updatedAt := now)
  }

  function If(c: bool, x: Change): seq<Change> {
    if c then [x] else []
  }

  /** The history entries of an update: one for each tracked field that differs. */
  function Changes(was: Task, new_: Task): seq<Change> {
    If(was.title != new_.title, TitleChanged(was.title, new_.title))
    + If(was.description != new_.description, DescriptionChanged(was.description, new_.description))
    + If(was.link != new_.link, LinkChanged(was.link, new_.link))
    + If(was.deadline != new_.deadline, DeadlineMoved(was.deadline, new_.deadline))
  }

  /** The source's update time says nothing changed since the stored row was written. */
  predicate UpToDate(stored: Task, item: Item) {
    item.updated.Some? && item.updated == stored.sourceUpdated
  }

  const ALERT_WINDOW: int := 3 * DAY

  function FeedKey(t: nat, source: Source): Key
    requires source in {Announcement, Material}
  {
    Key(t, if source == Announcement then NewAnnouncement else NewMaterial, WholeTask)
  }

  predicate FeedAlert(source: Source, item: Item, now: Instant) {
    source in {Announcement, Material} && item.posted.Some? && now - item.posted.value <= ALERT_WINDOW
  }

  function Schedule(db: Db, t: nat, deadline: Option<Instant>, now: Instant): Db {
    if deadline.None? then db
    else db.(reminders := InsertPlan(db.reminders, t, deadline.value, Plan(deadline.value, now), now))
  }

  /** An item seen for the first time. */
  function Discover(db: Db, course: nat, source: Source, item: Item, now: Instant): Db {
    var t := |db.tasks|;
    var added := SetRelevance(AddTask(db, NewTask(course, source, item, now), now), t, item.verdict, now);
    var alerted := if FeedAlert(source, item, now) then InsertReminder(added, FeedKey(t, source), now, now) else added;
    Schedule(alerted, t, Deadline(source, item), now)
  }

  /** An item already stored, whose row differs from the source in its deadline and perhaps elsewhere. */
  function Move(db: Db, t: nat, item: Item, now: Instant): Db
    requires t < |db.tasks|
  {
    var task := Refreshed(db.tasks[t], item, now);
    var moved := SetTask(db, t, task, Changes(db.tasks[t], task), now)
                 .(reminders := Withdraw(db.reminders, [t], {NewAssignment}));
    var judged := SetRelevance(moved, t, item.verdict, now);
    var told := InsertReminder(judged, Key(t, DeadlineChanged, ToDeadline(task.deadline)), now, now);
    Schedule(told, t, task.deadline, now)
  }

  function Update(db: Db, t: nat, item: Item, now: Instant): Db
    requires t < |db.tasks|
  {
    var was := db.tasks[t];
    var task := Refreshed(was, item, now);
    if UpToDate(was, item) then SetRelevance(db, t, item.verdict, now)
    else if task.deadline == was.deadline then
      SetRelevance(SetTask(db, t, task, Changes(was, task), now), t, item.verdict, now)
    else Move(db, t, item, now)
  }

  function ApplyItem(db: Db, course: nat, source: Source, item: Item, now: Instant): Db {
    var found := FindTask(db.tasks, course, source, item.id);
    if found.None? then Discover(db, course, source, item, now) else Update(db, found.value, item, now)
  }

  // -------------------------------------------------------------- operations

  /** The single operations a sync is made of. */
  datatype Op =
    | SeeCourse(listing: CourseListing)
    | SeeItem(course: string, source: Source, item: Item)
    | Sweep(course: string, source: Source, seen: set<string>)

  function CourseRow(c: CourseListing, createdAt: Instant, now: Instant): Course {
    Course(c.id, c.name, c.section, c.state, createdAt, now)
  }

  /** upsert_course for a live course; for any other, the state of a known row and nothing else. */
  function UpsertCourse(courses: seq<Course>, c: CourseListing, now: Instant): seq<Course> {
    var found := FindCourse(courses, c.id);
    if Live(c.state) then
      if found.None? then courses + [CourseRow(c, now, now)]
      else courses[found.value := CourseRow(c, courses[found.value].createdAt, now)]
    else if found.None? then courses
    else courses[found.value := courses[found.value].(state := c.state, updatedAt := now)]
  }

  /** A task of a readable source that the source no longer lists. */
  predicate Unlisted(task: Task, course: nat, source: Source, seen: set<string>) {
    task.course == course && task.source == source && task.status !in {Completed, Cancelled}
    && !(task.externalId.Some? && task.externalId.value in seen)
  }

  function UnlistedIds(tasks: seq<Task>, course: nat, source: Source, seen: set<string>): (r: seq<nat>)
    ensures forall i :: i in r <==> 0 <= i < |tasks| && Unlisted(tasks[i], course, source, seen)
    ensures (forall i :: 0 <= i < |tasks| ==> !Unlisted(tasks[i], course, source, seen)) ==> r == []
  {
    Sorting.Select(tasks, (task: Task) => Unlisted(task, course, source, seen))
  }

  function SweepMissing(db: Db, course: nat, source: Source, seen: set<string>, now: Instant): Db {
    CloseAll(db, UnlistedIds(db.tasks, course, source, seen), Cancelled, now)
  }

  function Step(db: Db, op: Op, now: Instant): Db {
    match op
    case SeeCourse(c) => db.(courses := UpsertCourse(db.courses, c, now))
    case SeeItem(course, source, item) =>
      var c := FindCourse(db.courses, course);
      if c.None? then db else ApplyItem(db, c.value, source, item, now)
    case Sweep(course, source, seen) =>
      var c := FindCourse(db.courses, course);
      if c.None? then db else SweepMissing(db, c.value, source, seen, now)
  }

  function RunOps(db: Db, ops: seq<Op>, now: Instant): Db {
    if ops == [] then db else Step(RunOps(db, ops[..|ops| - 1], now), ops[|ops| - 1], now)
  }

  function ItemOps(course: string, source: Source, items: seq<Item>): seq<Op> {
    seq(|items|, i requires 0 <= i < |items| => SeeItem(course, source, items[i]))
  }

  function Ids(items: seq<Item>): set<string> {
    set i | 0 <= i < |items| :: items[i].id
  }

  function SweepOp(c: CourseListing, source: Source): seq<Op>
    requires source != Manual
  {
    if Of(c, source).readable then [Sweep(c.id, source, Ids(Of(c, source).items))] else []
  }

  function Sweeps(c: CourseListing): seq<Op> {
    SweepOp(c, Coursework) + SweepOp(c, Announcement) + SweepOp(c, Material)
  }

  /** What the sync does for one course: the course row, then for a live course every item of every source,
      then the items missing from each source that could be read. */
  function CourseOps(c: CourseListing): seq<Op> {
    if !Live(c.state) then [SeeCourse(c)]
    else [SeeCourse(c)] + ItemOps(c.id, Coursework, c.coursework.items)
         + ItemOps(c.id, Announcement, c.announcements.items) + ItemOps(c.id, Material, c.materials.items) + Sweeps(c)
  }

  function AllOps(courses: seq<CourseListing>): seq<Op> {
    if courses == [] then [] else AllOps(courses[..|courses| - 1]) + CourseOps(courses[|courses| - 1])
  }

  // ------------------------------------------------------- the closing passes

  /** A task whose deadline had passed when Ragra first saw it. */
  predicate Backlog(task: Task) {
    task.deadline.Some? && task.deadline.value <= task.createdAt && task.status !in {Completed, Cancelled}
  }

  function BacklogIds(tasks: seq<Task>): (r: seq<nat>)
    ensures forall i :: i in r <==> 0 <= i < |tasks| && Backlog(tasks[i])
    ensures (forall i :: 0 <= i < |tasks| ==> !Backlog(tasks[i])) ==> r == []
  {
    Sorting.Select(tasks, (task: Task) => Backlog(task))
  }

  function DropBacklog(db: Db): Db {
    db.(reminders := Withdraw(db.reminders, BacklogIds(db.tasks), {}))
  }

  predicate Overdue(task: Task, now: Instant) {
    task.deadline.Some? && task.deadline.value < now && !Closed(task.status)
  }

  function OverdueIds(tasks: seq<Task>, now: Instant): (r: seq<nat>)
    ensures forall i :: i in r <==> 0 <= i < |tasks| && Overdue(tasks[i], now)
    ensures (forall i :: 0 <= i < |tasks| ==> !Overdue(tasks[i], now)) ==> r == []
  {
    Sorting.Select(tasks, (task: Task) => Overdue(task, now))
  }

  function MarkMissed(db: Db, now: Instant): Db {
    CloseAll(db, OverdueIds(db.tasks, now), Missed, now)
  }

  function ClosedIds(tasks: seq<Task>): (r: seq<nat>)
    ensures forall i :: i in r <==> 0 <= i < |tasks| && Closed(tasks[i].status)
    ensures (forall i :: 0 <= i < |tasks| ==> !Closed(tasks[i].status)) ==> r == []
  {
    Sorting.Select(tasks, (task: Task) => Closed(task.status))
  }

  function DropStray(db: Db): Db {
    db.(reminders := Withdraw(db.reminders, ClosedIds(db.tasks), {}))
  }

  function Finish(db: Db, now: Instant): Db {
    DropStray(MarkMissed(DropBacklog(db), now))
  }

  /** A sync that runs to its end. */
  function Sync(db: Db, courses: seq<CourseListing>, now: Instant): Db {
    Finish(RunOps(db, AllOps(courses), now), now)
  }

  // -------------------------------------------------------------- runs in parts

  lemma RunOneMore(db: Db, ops: seq<Op>, i: nat, now: Instant)
    requires i < |ops|
    ensures RunOps(db, ops[..i + 1], now) == Step(RunOps(db, ops[..i], now), ops[i], now)
  {
    assert ops[..i + 1][..i] == ops[..i];
  }

  lemma RunSingle(db: Db, op: Op, now: Instant)
    ensures RunOps(db, [op], now) == Step(db, op, now)
  {
    assert [op][..0] == [];
  }

  lemma {:induction false} RunConcat(db: Db, a: seq<Op>, b: seq<Op>, now: Instant)
    ensures RunOps(db, a + b, now) == RunOps(RunOps(db, a, now), b, now)
  {
    if b == [] {
      assert a + b == a;
    } else {
      assert (a + b)[..|a + b| - 1] == a + b[..|b| - 1];
      RunConcat(db, a, b[..|b| - 1], now);
    }
  }

  // --------------------------------------------- every operation keeps Sound

  lemma SetRelevanceKeepsSound(db: Db, t: nat, verdict: Option<Relevance>, now: Instant)
    requires Sound(db) && t < |db.tasks|
    ensures Sound(SetRelevance(db, t, verdict, now))
  {
    if verdict.Some? && db.tasks[t].relevance != verdict.value {
      SetTaskKeepsSound(db, t, db.tasks[t].(relevance := verdict.value),
                        [RelevanceSet(db.tasks[t].relevance, verdict.value)], now);
    }
  }

  lemma ScheduleKeepsSound(db: Db, t: nat, deadline: Option<Instant>, now: Instant)
    requires Sound(db) && t < |db.tasks| && db.tasks[t].source != Manual && db.tasks[t].deadline == deadline
    ensures Sound(Schedule(db, t, deadline, now))
  {
    if deadline.Some? {
      var plan := Plan(deadline.value, now);
      forall p | p in plan
        ensures p.kind !in {DeadlineChanged, NewAnnouncement, NewMaterial}
        ensures p.kind == DeadlineReached ==> p.at == deadline.value
      {
        PlannedKinds(deadline.value, now, p);
      }
      InsertPlanKeepsSound(db, t, deadline.value, plan, now);
    }
  }

  lemma DiscoverKeepsSound(db: Db, course: nat, source: Source, item: Item, now: Instant)
    requires Sound(db) && course < |db.courses| && source != Manual
    requires FindTask(db.tasks, course, source, item.id).None?
    ensures Sound(Discover(db, course, source, item, now))
  {
    var t := |db.tasks|;
    var task := NewTask(course, source, item, now);
    forall i | 0 <= i < |db.tasks| ensures !SameItem(db.tasks[i], task) {
      assert !IsItem(db.tasks[i], course, source, item.id);
    }
    AddTaskKeepsSound(db, task, now);
    SetRelevanceKeepsSound(AddTask(db, task, now), t, item.verdict, now);
    var added := SetRelevance(AddTask(db, task, now), t, item.verdict, now);
    var alerted := if FeedAlert(source, item, now) then InsertReminder(added, FeedKey(t, source), now, now) else added;
    if FeedAlert(source, item, now) { InsertKeepsSound(added, FeedKey(t, source), now, now); }
    ScheduleKeepsSound(alerted, t, Deadline(source, item), now);
  }

  lemma MoveKeepsAllSound(db: Db, t: nat, item: Item, now: Instant)
    requires Sound(db) && t < |db.tasks| && db.tasks[t].source != Manual
    requires Refreshed(db.tasks[t], item, now).deadline != db.tasks[t].deadline
    ensures Sound(Move(db, t, item, now))
  {
    var task := Refreshed(db.tasks[t], item, now);
    var changes := Changes(db.tasks[t], task);
    assert changes[|changes| - 1] == DeadlineMoved(db.tasks[t].deadline, task.deadline);
    MoveKeepsSound(db, t, task, changes, now);
    var moved := SetTask(db, t, task, changes, now).(reminders := Withdraw(db.reminders, [t], {NewAssignment}));
    SetRelevanceKeepsSound(moved, t, item.verdict, now);
    var judged := SetRelevance(moved, t, item.verdict, now);
    var key := Key(t, DeadlineChanged, ToDeadline(task.deadline));
    InsertKeepsSound(judged, key, now, now);
    ScheduleKeepsSound(InsertReminder(judged, key, now, now), t, task.deadline, now);
  }

  lemma UpdateKeepsSound(db: Db, t: nat, item: Item, now: Instant)
    requires Sound(db) && t < |db.tasks| && db.tasks[t].source != Manual
    ensures Sound(Update(db, t, item, now))
  {
    var was := db.tasks[t];
    var task := Refreshed(was, item, now);
    if UpToDate(was, item) {
      SetRelevanceKeepsSound(db, t, item.verdict, now);
    } else if task.deadline == was.deadline {
      SetTaskKeepsSound(db, t, task, Changes(was, task), now);
      SetRelevanceKeepsSound(SetTask(db, t, task, Changes(was, task), now), t, item.verdict, now);
    } else {
      MoveKeepsAllSound(db, t, item, now);
    }
  }

  /** An operation of a sync: items and sweeps never concern manual tasks. */
  predicate Proper(op: Op) {
    op.SeeCourse? || op.source != Manual
  }

  lemma UpsertCourseKeepsUnique(courses: seq<Course>, c: CourseListing, now: Instant)
    requires UniqueCourses(courses)
    ensures UniqueCourses(UpsertCourse(courses, c, now)) && |courses| <= |UpsertCourse(courses, c, now)|
  {
  }

  /** The keyed-to-the-current-deadline, unique-key and delivery invariants hold after every operation. */
  lemma StepKeepsSound(db: Db, op: Op, now: Instant)
    requires Sound(db) && Proper(op)
    ensures Sound(Step(db, op, now))
  {
    match op
    case SeeCourse(c) =>
      UpsertCourseKeepsUnique(db.courses, c, now);
      CoursesKeepSound(db, UpsertCourse(db.courses, c, now));
    case SeeItem(course, source, item) =>
      var c := FindCourse(db.courses, course);
      if c.Some? {
        var found := FindTask(db.tasks, c.value, source, item.id);
        if found.None? {
          DiscoverKeepsSound(db, c.value, source, item, now);
        } else {
          UpdateKeepsSound(db, found.value, item, now);
        }
      }
    case Sweep(course, source, seen) =>
      var c := FindCourse(db.courses, course);
      if c.Some? {
        CloseAllKeepsSound(db, UnlistedIds(db.tasks, c.value, source, seen), Cancelled, now);
      }
  }

  lemma {:induction false} RunKeepsSound(db: Db, ops: seq<Op>, now: Instant)
    requires Sound(db) && forall i :: 0 <= i < |ops| ==> Proper(ops[i])
    ensures Sound(RunOps(db, ops, now))
  {
    if ops != [] {
      RunKeepsSound(db, ops[..|ops| - 1], now);
      StepKeepsSound(RunOps(db, ops[..|ops| - 1], now), ops[|ops| - 1], now);
    }
  }

  lemma CourseOpsProper(c: CourseListing)
    ensures forall i :: 0 <= i < |CourseOps(c)| ==> Proper(CourseOps(c)[i])
  {
  }

  lemma {:induction false} AllOpsProper(courses: seq<CourseListing>)
    ensures forall i :: 0 <= i < |AllOps(courses)| ==> Proper(AllOps(courses)[i])
  {
    if courses != [] {
      AllOpsProper(courses[..|courses| - 1]);
      CourseOpsProper(courses[|courses| - 1]);
    }
  }

  lemma FinishKeepsSound(db: Db, now: Instant)
    requires Sound(db)
    ensures Sound(Finish(db, now))
  {
    WithdrawKeepsSound(db, BacklogIds(db.tasks), {});
    var a := DropBacklog(db);
    CloseAllKeepsSound(a, OverdueIds(a.tasks, now), Missed, now);
    var b := MarkMissed(a, now);
    WithdrawKeepsSound(b, ClosedIds(b.tasks), {});
  }

  lemma SyncKeepsSound(db: Db, courses: seq<CourseListing>, now: Instant)
    requires Sound(db)
    ensures Sound(Sync(db, courses, now))
  {
    AllOpsProper(courses);
    RunKeepsSound(db, AllOps(courses), now);
    FinishKeepsSound(RunOps(db, AllOps(courses), now), now);
  }
}
