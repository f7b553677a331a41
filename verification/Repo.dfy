/** What the repository functions do to the rows (ragra/db/repo.py), and the invariants that hold after
    every single one of them, in the middle of a sync included. */
module Repo {
  import opened Text
  import opened Instants
  import opened ReminderPlan
  import opened Records

  // --------------------------------------------------------------- look-ups

  function FindCourse(courses: seq<Course>, externalId: string): (r: Option<nat>)
    ensures r.Some? ==> r.value < |courses| && courses[r.value].externalId == externalId
    ensures r.None? ==> forall i :: 0 <= i < |courses| ==> courses[i].externalId != externalId
    ensures r.Some? ==> forall i :: 0 <= i < r.value ==> courses[i].externalId != externalId
  {
    if courses == [] then None
    else
      var found := FindCourse(courses[..|courses| - 1], externalId);
      if found.Some? then found
      else if courses[|courses| - 1].externalId == externalId then Some(|courses| - 1) else None
  }

  /** The (course, source, external id) a synced task is deduplicated by; manual tasks have no external id. */
  predicate IsItem(task: Task, course: nat, source: Source, externalId: string) {
    task.course == course && task.source == source && task.externalId == Some(externalId)
  }

  function FindTask(tasks: seq<Task>, course: nat, source: Source, externalId: string): (r: Option<nat>)
    ensures r.Some? ==> r.value < |tasks| && IsItem(tasks[r.value], course, source, externalId)
    ensures r.None? ==> forall i :: 0 <= i < |tasks| ==> !IsItem(tasks[i], course, source, externalId)
    ensures r.Some? ==> forall i :: 0 <= i < r.value ==> !IsItem(tasks[i], course, source, externalId)
  {
    if tasks == [] then None
    else
      var found := FindTask(tasks[..|tasks| - 1], course, source, externalId);
      if found.Some? then found
      else if IsItem(tasks[|tasks| - 1], course, source, externalId) then Some(|tasks| - 1) else None
  }

  lemma CourseAt(courses: seq<Course>, externalId: string, i: nat)
    requires i < |courses| && courses[i].externalId == externalId
    requires forall k :: 0 <= k < i ==> courses[k].externalId != externalId
    ensures FindCourse(courses, externalId) == Some(i)
  {
  }

  lemma TaskAt(tasks: seq<Task>, course: nat, source: Source, externalId: string, i: nat)
    requires i < |tasks| && IsItem(tasks[i], course, source, externalId)
    requires forall k :: 0 <= k < i ==> !IsItem(tasks[k], course, source, externalId)
    ensures FindTask(tasks, course, source, externalId) == Some(i)
  {
  }

  // -------------------------------------------------------------- reminders

  predicate Taken(rs: seq<Reminder>, key: Key) {
    exists i :: 0 <= i < |rs| && rs[i].key == key
  }

  function Fresh(key: Key, at: int, now: Instant): Reminder {
    Reminder(key, at, Pending, 0, None, None, now)
  }

  /** insert_reminder_if_absent: a key that exists in any state is left alone. */
  function Insert(rs: seq<Reminder>, key: Key, at: int, now: Instant): seq<Reminder> {
    if Taken(rs, key) then rs else rs + [Fresh(key, at, now)]
  }

  /** cancel_pending_reminders for the given tasks, sparing some types. */
  function Withdraw(rs: seq<Reminder>, tasks: seq<nat>, spared: set<ReminderType>): (r: seq<Reminder>)
    ensures |r| == |rs|
  {
    seq(|rs|, i requires 0 <= i < |rs| =>
      if rs[i].state == Pending && rs[i].key.task in tasks && rs[i].key.kind !in spared
      then rs[i].(state := Withdrawn) else rs[i])
  }

  /** The discovery ping is keyed to the task; every other planned reminder to the deadline it counts down to. */
  function KeyOf(task: nat, kind: ReminderType, deadline: Instant): Key {
    Key(task, kind, if kind == NewAssignment then WholeTask else ToDeadline(Some(deadline)))
  }

  /** The rows of a plan, inserted in plan order. */
  function InsertPlan(rs: seq<Reminder>, task: nat, deadline: Instant, plan: seq<Planned>,
                      now: Instant): seq<Reminder>
  {
    if plan == [] then rs
    else
      var last := plan[|plan| - 1];
      Insert(InsertPlan(rs, task, deadline, plan[..|plan| - 1], now), KeyOf(task, last.kind, deadline), last.at, now)
  }

  // ------------------------------------------------------------ single steps

  function InsertReminder(db: Db, key: Key, at: int, now: Instant): Db {
    db.(reminders := Insert(db.reminders, key, at, now))
  }

  /** A new task row with its history entry. */
  function AddTask(db: Db, task: Task, now: Instant): Db {
    db.(tasks := db.tasks + [task], history := db.history + [HistoryRow(|db.tasks|, now, Created(task.title))])
  }

  /** A changed task row with the history entries of the change. */
  function SetTask(db: Db, t: nat, task: Task, changes: seq<Change>, now: Instant): Db
    requires t < |db.tasks|
  {
    db.(tasks := db.tasks[t := task], history := db.history + Rows(t, changes, now))
  }

  function Rows(t: nat, changes: seq<Change>, now: Instant): seq<HistoryRow> {
    seq(|changes|, i requires 0 <= i < |changes| => HistoryRow(t, now, changes[i]))
  }

  /** set_task_relevance: a decision equal to the stored one writes nothing. */
  function SetRelevance(db: Db, t: nat, verdict: Option<Relevance>, now: Instant): Db
    requires t < |db.tasks|
  {
    if verdict.None? || db.tasks[t].relevance == verdict.value then db
    else SetTask(db, t, db.tasks[t].(relevance := verdict.value),
                 [RelevanceSet(db.tasks[t].relevance, verdict.value)], now)
  }

  /** The row of a task that turns to a closing status. */
  function Close(task: Task, to: Status, now: Instant): Task {
    match to
    case Completed => task.(status := to, completedAt := Some(now), updatedAt := now)
    case Missed => task.(status := to, missedAt := Some(now), updatedAt := now)
    case Cancelled => task.(status := to, cancelledAt := Some(now), updatedAt := now)
    case _ => task.(status := to, updatedAt := now)
  }

  /** Each listed task closes, gets one history entry, and loses its pending reminders. */
  function CloseAll(db: Db, which: seq<nat>, to: Status, now: Instant): Db {
    db.(tasks := seq(|db.tasks|, i requires 0 <= i < |db.tasks| =>
                       if i in which then Close(db.tasks[i], to, now) else db.tasks[i]),
        history := db.history + seq(|which|, i requires 0 <= i < |which| =>
                                      HistoryRow(which[i], now, StatusSet(None, to))),
        reminders := Withdraw(db.reminders, which, {}))
  }

  // ------------------------------------------------------------- invariants

  predicate UniqueCourses(courses: seq<Course>) {
    forall i, j :: 0 <= i < j < |courses| ==> courses[i].externalId != courses[j].externalId
  }

  predicate SameItem(a: Task, b: Task) {
    a.externalId.Some? && a.course == b.course && a.source == b.source && a.externalId == b.externalId
  }

  predicate UniqueTasks(tasks: seq<Task>) {
    forall i, j :: 0 <= i < j < |tasks| ==> !SameItem(tasks[i], tasks[j])
  }

  predicate UniqueKeys(rs: seq<Reminder>) {
    forall i, j :: 0 <= i < j < |rs| ==> rs[i].key != rs[j].key
  }

  /** A deadline the task has now, or one its history says it had. */
  predicate HeldBy(db: Db, t: nat, deadline: Option<Instant>)
    requires t < |db.tasks|
  {
    db.tasks[t].deadline == deadline
    || exists h :: h in db.history && h.task == t && h.change.DeadlineMoved?
                   && (h.change.oldDeadline == deadline || h.change.newDeadline == deadline)
  }

  predicate KeyShape(key: Key) {
    && (key.anchor.WholeTask? <==> key.kind in {NewAssignment, NewAnnouncement, NewMaterial})
    && (key.anchor == ToDeadline(None) ==> key.kind == DeadlineChanged)
  }

  /** A reminder belongs to a synced task; its deadline was held by that task, and while it is pending it
      is the task's current one; the last reminder of a countdown is scheduled at its deadline. */
  predicate Anchored(db: Db, r: Reminder) {
    && r.key.task < |db.tasks| && db.tasks[r.key.task].source != Manual && KeyShape(r.key)
    && (r.key.anchor.ToDeadline? ==> HeldBy(db, r.key.task, r.key.anchor.deadline))
    && (r.key.anchor.ToDeadline? && r.state == Pending ==> db.tasks[r.key.task].deadline == r.key.anchor.deadline)
    && (r.key.kind == DeadlineReached ==> r.key.anchor.deadline.Some? && r.key.anchor.deadline.value == r.scheduledFor)
  }

  const MAX_ATTEMPTS: nat := 3
  const RETRY_DELAY: int := 15 * MINUTE

  /** The rounds of one reminder, in the order they happened. */
  function RoundsOf(rounds: seq<Round>, reminder: nat): seq<Round> {
    if rounds == [] then []
    else
      var last := rounds[|rounds| - 1];
      RoundsOf(rounds[..|rounds| - 1], reminder) + (if last.reminder == reminder then [last] else [])
  }

  predicate Delivered(round: Round) {
    exists p :: 0 <= p < |round.answers| && round.answers[p]
  }

  /** The delivery record of a reminder agrees with its row: no round came before its time, rounds are at least a retry
      delay apart, only the last can have succeeded, and it has exactly if the row is SENT; the counter counts
      failures. */
  predicate Accounted(r: Reminder, rounds: seq<Round>) {
    && (forall k :: 0 <= k < |rounds| ==> r.scheduledFor <= rounds[k].at)
    && (forall k :: 0 <= k < |rounds| - 1 ==> !Delivered(rounds[k]) && rounds[k].at + RETRY_DELAY <= rounds[k + 1].at)
    && (r.state == Sent <==> |rounds| > 0 && Delivered(rounds[|rounds| - 1]))
    && r.sentAt == (if r.state == Sent then Some(rounds[|rounds| - 1].at) else None)
    && |rounds| == r.attempts + (if r.state == Sent then 1 else 0) <= MAX_ATTEMPTS
    && (r.state == Failed <==> r.attempts == MAX_ATTEMPTS)
    && (r.state == Pending ==>
          r.nextRetry == if r.attempts == 0 then None else Some(rounds[r.attempts - 1].at + RETRY_DELAY))
  }

  /** What holds between any two repository operations. */
  predicate Sound(db: Db) {
    && (forall i :: 0 <= i < |db.tasks| ==> db.tasks[i].course < |db.courses|)
    && (forall i :: 0 <= i < |db.rounds| ==> db.rounds[i].reminder < |db.reminders|)
    && UniqueCourses(db.courses) && UniqueTasks(db.tasks) && UniqueKeys(db.reminders)
    && (forall j :: 0 <= j < |db.reminders| ==> Anchored(db, db.reminders[j]))
    && (forall j :: 0 <= j < |db.reminders| ==> Accounted(db.reminders[j], RoundsOf(db.rounds, j)))
  }

  /** What holds between steps: a completed, cancelled or missed task has nothing left to send. */
  predicate Quiet(db: Db) {
    forall j :: 0 <= j < |db.reminders| && db.reminders[j].state == Pending && db.reminders[j].key.task < |db.tasks| ==>
      !Closed(db.tasks[db.reminders[j].key.task].status)
  }

  // --------------------------------------------------- every step keeps them

  lemma {:induction false} NoRoundsYet(rounds: seq<Round>, j: nat)
    requires forall i :: 0 <= i < |rounds| ==> rounds[i].reminder < j
    ensures RoundsOf(rounds, j) == []
  {
    if rounds != [] { NoRoundsYet(rounds[..|rounds| - 1], j); }
  }

  /** History only grows, and a task keeps its deadline or the history records the move: nothing held is forgotten. */
  predicate Remembers(db: Db, db': Db) {
    && |db.tasks| <= |db'.tasks|
    && (forall h :: h in db.history ==> h in db'.history)
    && forall t :: 0 <= t < |db.tasks| ==> HeldBy(db', t, db.tasks[t].deadline)
  }

  lemma HeldStays(db: Db, db': Db, t: nat, deadline: Option<Instant>)
    requires Remembers(db, db') && t < |db.tasks| && HeldBy(db, t, deadline)
    ensures HeldBy(db', t, deadline)
  {
    if db.tasks[t].deadline != deadline {
      var h :| h in db.history && h.task == t && h.change.DeadlineMoved?
               && (h.change.oldDeadline == deadline || h.change.newDeadline == deadline);
      assert h in db'.history;
    }
  }

  /** A reminder stays anchored when its task keeps its source, nothing held is forgotten, and the row is
      unchanged or withdrawn; pending ones need their deadline to be still the current one. */
  lemma AnchoredStays(db: Db, db': Db, r: Reminder, r': Reminder)
    requires Anchored(db, r) && Remembers(db, db')
    requires r' == r || r' == r.(state := Withdrawn)
    requires db'.tasks[r.key.task].source == db.tasks[r.key.task].source
    requires r'.state == Pending && r.key.anchor.ToDeadline? ==>
               db'.tasks[r.key.task].deadline == db.tasks[r.key.task].deadline
    ensures Anchored(db', r')
  {
    if r.key.anchor.ToDeadline? { HeldStays(db, db', r.key.task, r.key.anchor.deadline); }
  }

  /** Two states of the reminder table around steps that do not deliver: rows stay or pending ones are
      withdrawn, and new rows have never been tried. */
  predicate Evolves(rs: seq<Reminder>, rs': seq<Reminder>) {
    && |rs| <= |rs'|
    && (forall j :: 0 <= j < |rs| ==>
          rs'[j] == rs[j] || (rs[j].state == Pending && rs'[j] == rs[j].(state := Withdrawn)))
    && (forall j :: |rs| <= j < |rs'| ==>
          rs'[j].state in {Pending, Withdrawn} && rs'[j].attempts == 0 && rs'[j].nextRetry == None
          && rs'[j].sentAt == None)
  }

  lemma AccountsStay(db: Db, db': Db)
    requires Sound(db) && Evolves(db.reminders, db'.reminders) && db'.rounds == db.rounds
    ensures forall j :: 0 <= j < |db'.reminders| ==> Accounted(db'.reminders[j], RoundsOf(db'.rounds, j))
    ensures forall i :: 0 <= i < |db'.rounds| ==> db'.rounds[i].reminder < |db'.reminders|
  {
    forall j | 0 <= j < |db'.reminders| ensures Accounted(db'.reminders[j], RoundsOf(db'.rounds, j)) {
      if j < |db.reminders| {
        assert Accounted(db.reminders[j], RoundsOf(db.rounds, j));
      } else {
        NoRoundsYet(db.rounds, j);
      }
    }
  }

  lemma InsertKeepsSound(db: Db, key: Key, at: int, now: Instant)
    requires Sound(db)
    requires Anchored(db, Fresh(key, at, now))
    ensures Sound(InsertReminder(db, key, at, now))
  {
    var db' := InsertReminder(db, key, at, now);
    InsertKeepsAccounts(db, key, at, now);
    forall j | 0 <= j < |db'.reminders| ensures Anchored(db', db'.reminders[j]) {
      if j < |db.reminders| { SameTasksAnchor(db, db', db.reminders[j]); }
      else { SameTasksAnchor(db, db', Fresh(key, at, now)); }
    }
  }

  /** Anchoring looks at the tasks and their history alone. */
  lemma SameTasksAnchor(db: Db, db': Db, r: Reminder)
    requires Anchored(db, r) && db'.tasks == db.tasks && db'.history == db.history
    ensures Anchored(db', r)
  {
  }

  lemma InsertKeepsAccounts(db: Db, key: Key, at: int, now: Instant)
    requires Sound(db)
    ensures var db' := InsertReminder(db, key, at, now);
      && UniqueKeys(db'.reminders)
      && (forall j :: 0 <= j < |db'.reminders| ==> Accounted(db'.reminders[j], RoundsOf(db'.rounds, j)))
      && (forall i :: 0 <= i < |db'.rounds| ==> db'.rounds[i].reminder < |db'.reminders|)
  {
    AccountsStay(db, InsertReminder(db, key, at, now));
  }

  lemma AddTaskKeepsSound(db: Db, task: Task, now: Instant)
    requires Sound(db) && task.course < |db.courses|
    requires forall i :: 0 <= i < |db.tasks| ==> !SameItem(db.tasks[i], task)
    ensures Sound(AddTask(db, task, now))
  {
    var db' := AddTask(db, task, now);
    AccountsStay(db, db');
    forall j | 0 <= j < |db'.reminders| ensures Anchored(db', db'.reminders[j]) {
      AnchoredStays(db, db', db.reminders[j], db'.reminders[j]);
    }
  }

  predicate SameIdentity(a: Task, b: Task) {
    a.course == b.course && a.source == b.source && a.externalId == b.externalId
  }

  /** Rewriting a task that keeps its deadline. */
  lemma SetTaskKeepsSound(db: Db, t: nat, task: Task, changes: seq<Change>, now: Instant)
    requires Sound(db) && t < |db.tasks|
    requires SameIdentity(db.tasks[t], task) && db.tasks[t].deadline == task.deadline
    ensures Sound(SetTask(db, t, task, changes, now))
  {
    var db' := SetTask(db, t, task, changes, now);
    AccountsStay(db, db');
    forall j | 0 <= j < |db'.reminders| ensures Anchored(db', db'.reminders[j]) {
      AnchoredStays(db, db', db.reminders[j], db'.reminders[j]);
    }
  }

  /** Moving a deadline, when the move is in the history and the old countdown is withdrawn with it. */
  lemma MoveKeepsSound(db: Db, t: nat, task: Task, changes: seq<Change>, now: Instant)
    requires Sound(db) && t < |db.tasks| && SameIdentity(db.tasks[t], task)
    requires DeadlineMoved(db.tasks[t].deadline, task.deadline) in changes
    ensures
      var db' := SetTask(db, t, task, changes, now);
      Sound(db'.(reminders := Withdraw(db.reminders, [t], {NewAssignment})))
  {
    var moved := SetTask(db, t, task, changes, now);
    var db' := moved.(reminders := Withdraw(db.reminders, [t], {NewAssignment}));
    var k :| 0 <= k < |changes| && changes[k] == DeadlineMoved(db.tasks[t].deadline, task.deadline);
    var row := HistoryRow(t, now, changes[k]);
    assert db'.history[|db.history| + k] == row;
    assert row in db'.history;
    AccountsStay(db, db');
    forall j | 0 <= j < |db'.reminders| ensures Anchored(db', db'.reminders[j]) {
      AnchoredStays(db, db', db.reminders[j], db'.reminders[j]);
    }
  }

  lemma CloseAllRemembers(db: Db, which: seq<nat>, to: Status, now: Instant)
    ensures Remembers(db, CloseAll(db, which, to, now))
    ensures forall i :: 0 <= i < |db.tasks| ==>
              SameIdentity(db.tasks[i], CloseAll(db, which, to, now).tasks[i])
              && CloseAll(db, which, to, now).tasks[i].deadline == db.tasks[i].deadline
  {
  }

  lemma CloseAllKeepsSound(db: Db, which: seq<nat>, to: Status, now: Instant)
    requires Sound(db)
    ensures Sound(CloseAll(db, which, to, now))
  {
    var db' := CloseAll(db, which, to, now);
    CloseAllRemembers(db, which, to, now);
    AccountsStay(db, db');
    forall j | 0 <= j < |db'.reminders| ensures Anchored(db', db'.reminders[j]) {
      AnchoredStays(db, db', db.reminders[j], db'.reminders[j]);
    }
  }

  lemma WithdrawKeepsSound(db: Db, which: seq<nat>, spared: set<ReminderType>)
    requires Sound(db)
    ensures Sound(db.(reminders := Withdraw(db.reminders, which, spared)))
  {
    var db' := db.(reminders := Withdraw(db.reminders, which, spared));
    AccountsStay(db, db');
    forall j | 0 <= j < |db'.reminders| ensures Anchored(db', db'.reminders[j]) {
      AnchoredStays(db, db', db.reminders[j], db'.reminders[j]);
    }
  }

  /** New or rewritten course rows, no external id twice and none lost. */
  lemma CoursesKeepSound(db: Db, courses: seq<Course>)
    requires Sound(db) && UniqueCourses(courses) && |db.courses| <= |courses|
    ensures Sound(db.(courses := courses))
  {
    var db' := db.(courses := courses);
    AccountsStay(db, db');
    forall j | 0 <= j < |db'.reminders| ensures Anchored(db', db'.reminders[j]) {
      AnchoredStays(db, db', db.reminders[j], db'.reminders[j]);
    }
  }

  // ------------------------------------------------------- inserting a plan

  lemma {:induction false} InsertPlanKeepsSound(db: Db, t: nat, deadline: Instant, plan: seq<Planned>, now: Instant)
    requires Sound(db) && t < |db.tasks|
    requires db.tasks[t].source != Manual && db.tasks[t].deadline == Some(deadline)
    requires forall p :: p in plan ==> p.kind !in {DeadlineChanged, NewAnnouncement, NewMaterial}
    requires forall p :: p in plan && p.kind == DeadlineReached ==> p.at == deadline
    ensures Sound(db.(reminders := InsertPlan(db.reminders, t, deadline, plan, now)))
  {
    if plan == [] {
      assert db.(reminders := InsertPlan(db.reminders, t, deadline, plan, now)) == db;
    } else {
      var last := plan[|plan| - 1];
      var before := db.(reminders := InsertPlan(db.reminders, t, deadline, plan[..|plan| - 1], now));
      InsertPlanKeepsSound(db, t, deadline, plan[..|plan| - 1], now);
      InsertKeepsSound(before, KeyOf(t, last.kind, deadline), last.at, now);
    }
  }

  predicate Added(rs: seq<Reminder>, after: seq<Reminder>, key: Key) {
    exists j :: |rs| <= j < |after| && after[j].key == key
  }

  /** Inserting a plan keeps every old row and adds one for every key of the plan that was free; each new
      row is pending and comes from an entry of the plan. */
  lemma {:induction false} InsertPlanAdds(rs: seq<Reminder>, t: nat, deadline: Instant, plan: seq<Planned>,
                                          now: Instant)
    ensures rs <= InsertPlan(rs, t, deadline, plan, now)
    ensures forall p :: p in plan ==>
              Taken(rs, KeyOf(t, p.kind, deadline))
              || Added(rs, InsertPlan(rs, t, deadline, plan, now), KeyOf(t, p.kind, deadline))
    ensures forall j :: |rs| <= j < |InsertPlan(rs, t, deadline, plan, now)| ==>
              var r := InsertPlan(rs, t, deadline, plan, now)[j];
              r == Fresh(r.key, r.scheduledFor, now) && Planned(r.key.kind, r.scheduledFor) in plan
              && r.key == KeyOf(t, r.key.kind, deadline) && !Taken(rs, r.key)
  {
    if plan != [] {
      InsertPlanAdds(rs, t, deadline, plan[..|plan| - 1], now);
      var before := InsertPlan(rs, t, deadline, plan[..|plan| - 1], now);
      var after := InsertPlan(rs, t, deadline, plan, now);
      var last := plan[|plan| - 1];
      var lastKey := KeyOf(t, last.kind, deadline);
      assert plan == plan[..|plan| - 1] + [last];
      assert before <= after;
      if Taken(before, lastKey) {
        var i :| 0 <= i < |before| && before[i].key == lastKey;
        if i < |rs| { assert rs[i].key == lastKey; }
        assert Taken(rs, lastKey) || Added(rs, after, lastKey);
      } else {
        assert after[|before|].key == lastKey;
        assert forall i :: 0 <= i < |rs| ==> before[i] == rs[i];
      }
      forall p | p in plan[..|plan| - 1] && !Taken(rs, KeyOf(t, p.kind, deadline))
        ensures Added(rs, after, KeyOf(t, p.kind, deadline))
      {
        var i :| |rs| <= i < |before| && before[i].key == KeyOf(t, p.kind, deadline);
        assert after[i].key == KeyOf(t, p.kind, deadline);
      }
    }
  }
}
