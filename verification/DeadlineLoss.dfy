/** A run in which the last reminder of a countdown is lost (ragra/db/repo.py, ragra/sync/classroom_sync.py). */
module DeadlineLoss {
  import opened Text
  import opened Instants
  import opened ReminderPlan
  import opened Records
  import opened Repo
  import opened Classroom
  import opened Resync
  import opened Outcome
  import opened Countdown
  import opened SyncCountdown
  import opened Dispatch
  import opened Pipeline

  /** An account with one course and one assignment. */
  function OneAssignment(item: Item): seq<CourseListing> {
    [CourseListing("course-1", "OOP", None, "ACTIVE", Listing([item], true), Listing([], true), Listing([], true))]
  }

  predicate PlainAssignment(item: Item, a: Instant) {
    Deadline(Coursework, item) == Some(a) && item.updated.None? && item.verdict == Some(Judged(Relevant, None))
  }

  /** The one task of the account. */
  predicate IsTheTask(db: Db, item: Item, t: nat) {
    && t < |db.tasks| && db.tasks[t].course < |db.courses| && CourseIdOf(db, t) == "course-1"
    && IsItem(db.tasks[t], db.tasks[t].course, Coursework, item.id)
  }

  /** Its only row, in the course's own row. */
  predicate OnlyRow(done: Db, item: Item, now: Instant, c: nat, t: nat) {
    && c < |done.courses| && done.courses[c].externalId == "course-1"
    && t < |done.tasks| && IsItem(done.tasks[t], c, Coursework, item.id) && RowSettled(done.tasks[t], item, now)
    && forall u: nat :: u < |done.tasks| && IsItem(done.tasks[u], c, Coursework, item.id) ==> u == t
  }

  lemma ListedOnce(db: Db, courses: seq<CourseListing>, item: Item, now: Instant) returns (c: nat, t: nat)
    requires Sound(db) && courses == OneAssignment(item)
    ensures OnlyRow(Sync(db, courses, now), item, now, c, t)
  {
    OneRowPerListedItem(db, courses, 0, Coursework, 0, now);
    var done := Sync(db, courses, now);
    c, t :| 0 <= c < |done.courses| && done.courses[c].externalId == courses[0].id
      && 0 <= t < |done.tasks| && IsItem(done.tasks[t], c, Coursework, item.id) && RowSettled(done.tasks[t], item, now)
      && forall u :: 0 <= u < |done.tasks| && IsItem(done.tasks[u], c, Coursework, item.id) ==> u == t;
  }

  /** What the sync stored for the assignment. */
  predicate StoredTask(done: Db, item: Item, a: Instant, t: nat) {
    && IsTheTask(done, item, t) && done.tasks[t].deadline == Some(a)
    && Live(done.courses[done.tasks[t].course].state) && done.tasks[t].relevance == Judged(Relevant, None)
    && forall u: nat :: u < |done.tasks| && IsTheTask(done, item, u) ==> u == t
  }

  lemma RowIsTheTask(done: Db, item: Item, a: Instant, now: Instant, c: nat, t: nat)
    requires UniqueCourses(done.courses) && PlainAssignment(item, a) && OnlyRow(done, item, now, c, t)
    requires Live(done.courses[c].state)
    ensures StoredTask(done, item, a, t)
  {
    forall u: nat | IsTheTask(done, item, u) ensures u == t {
      FoundIsOwn(done.courses, done.tasks[u].course, "course-1");
      FoundIsOwn(done.courses, c, "course-1");
    }
  }

  lemma TheTask(db: Db, courses: seq<CourseListing>, item: Item, a: Instant, now: Instant) returns (t: nat)
    requires Sound(db) && PlainAssignment(item, a) && courses == OneAssignment(item)
    ensures StoredTask(Sync(db, courses, now), item, a, t)
  {
    var c: nat;
    c, t := ListedOnce(db, courses, item, now);
    SyncKeepsSound(db, courses, now);
    CourseIsLive(db, courses, 0, c, now);
    RowIsTheTask(Sync(db, courses, now), item, a, now, c, t);
  }

  lemma NoRoundsNoResult(db: Db, j: nat)
    requires Sound(db) && db.rounds == [] && j < |db.reminders|
    ensures db.reminders[j].state in {Pending, Withdrawn}
    ensures db.reminders[j].state == Pending ==> db.reminders[j].nextRetry.None?
  {
    assert RoundsOf(db.rounds, j) == [];
    assert Accounted(db.reminders[j], RoundsOf(db.rounds, j));
  }

  /** A reminder of the task that is pending at its deadline and due at `now`. */
  predicate DueAt(db: Db, t: nat, a: Instant, now: Instant, j: nat) {
    j < |db.reminders| && db.reminders[j].key == KeyOf(t, DeadlineReached, a) && Due(db, db.reminders[j], now)
  }

  lemma PendingIsDue(db: Db, item: Item, t: nat, a: Instant, now: Instant) returns (j: nat)
    requires Sound(db) && db.rounds == [] && StoredTask(db, item, a, t) && !Closed(db.tasks[t].status)
    requires PendingAt(db.reminders, KeyOf(t, DeadlineReached, a), a) && a <= now <= a + 30 * MINUTE
    ensures DueAt(db, t, a, now, j)
  {
    j :| 0 <= j < |db.reminders| && db.reminders[j].state == Pending
         && db.reminders[j].key == KeyOf(t, DeadlineReached, a) && db.reminders[j].scheduledFor == a;
    NoRoundsNoResult(db, j);
  }

  lemma OneIsDistinct(item: Item)
    ensures Distinct(OneAssignment(item))
  {
  }

  lemma OpenWhenFound(db: Db, courses: seq<CourseListing>, t: nat, a: Instant, found: Instant)
    requires Sound(db) && Distinct(courses) && found < a
    requires |db.tasks| <= t < |Sync(db, courses, found).tasks|
    requires Sync(db, courses, found).tasks[t].deadline == Some(a)
             && Sync(db, courses, found).tasks[t].source == Coursework
    ensures var task := Sync(db, courses, found).tasks[t]; task.status == ActionRequired && task.createdAt == found
  {
    SyncDecidesNewStatus(db, courses, t, found);
  }

  lemma PendingWhenFound(db: Db, courses: seq<CourseListing>, t: nat, a: Instant, found: Instant)
    requires Sound(db) && Distinct(courses) && found < a
    requires |db.tasks| <= t < |Sync(db, courses, found).tasks|
    requires var task := Sync(db, courses, found).tasks[t];
      task.deadline == Some(a) && task.status == ActionRequired && task.createdAt == found
    ensures PendingAt(Sync(db, courses, found).reminders, KeyOf(t, DeadlineReached, a), a)
  {
    FreshCountdownAfterSync(db, courses, found, KeyOf(t, DeadlineReached, a), a);
    EndIsPromised(Sync(db, courses, found).tasks[t], t, a, found);
  }

  lemma EndIsPromised(task: Task, t: nat, a: Instant, found: Instant)
    requires found < a && task.deadline == Some(a) && task.status == ActionRequired && task.createdAt == found
    ensures Promised(task.deadline, KeyOf(t, DeadlineReached, a), a, found) && !Backlog(task) && !Closed(task.status)
  {
  }

  lemma FoundInTime(courses: seq<CourseListing>, item: Item, t: nat, a: Instant, found: Instant)
    requires courses == OneAssignment(item) && found < a && StoredTask(Sync(Start(), courses, found), item, a, t)
    ensures var first := Sync(Start(), courses, found);
      && !Closed(first.tasks[t].status) && PendingAt(first.reminders, KeyOf(t, DeadlineReached, a), a)
  {
    EveryRunIsSound([]);
    OneIsDistinct(item);
    OpenWhenFound(Start(), courses, t, a, found);
    PendingWhenFound(Start(), courses, t, a, found);
  }

  /** After the sync that finds the assignment its last reminder is pending, and due from the deadline on for half an
      hour. */
  lemma FoundAndPending(courses: seq<CourseListing>, item: Item, a: Instant, found: Instant, now: Instant)
    returns (t: nat, j: nat)
    requires PlainAssignment(item, a) && courses == OneAssignment(item) && found < a <= now <= a + 30 * MINUTE
    ensures var first := Sync(Start(), courses, found);
      && Sound(first) && first.rounds == [] && StoredTask(first, item, a, t) && !Closed(first.tasks[t].status)
      && DueAt(first, t, a, now, j)
  {
    EveryRunIsSound([]);
    t := TheTask(Start(), courses, item, a, found);
    FoundInTime(courses, item, t, a, found);
    SyncKeepsSound(Start(), courses, found);
    SyncCarriesOver(Start(), courses, KeyOf(t, DeadlineReached, a), found);
    j := PendingIsDue(Sync(Start(), courses, found), item, t, a, now);
  }

  lemma NotMissing(item: Item, task: Task)
    requires task.source == Coursework && task.externalId == Some(item.id)
    ensures !MissingFrom(OneAssignment(item), "course-1", task)
  {
    assert [item][0].id in Ids([item]);
  }

  lemma EndsMissed(first: Db, courses: seq<CourseListing>, item: Item, a: Instant, now: Instant, t: nat)
    requires Sound(first) && PlainAssignment(item, a) && courses == OneAssignment(item) && a < now
    requires StoredTask(first, item, a, t) && !Closed(first.tasks[t].status)
    ensures StoredTask(Sync(first, courses, now), item, a, t) && Sync(first, courses, now).tasks[t].status == Missed
  {
    var last := Sync(first, courses, now);
    var s := TheTask(first, courses, item, a, now);
    SyncKeepsSound(first, courses, now);
    SyncKeepsIdentity(first, courses, t, now);
    assert IsTheTask(last, item, t);
    SyncDecidesStatus(first, courses, t, now);
    NotMissing(item, first.tasks[t]);
  }

  /** A reminder of the task for its deadline that is cancelled. */
  predicate WithdrawnAt(db: Db, t: nat, a: Instant, i: nat) {
    i < |db.reminders| && db.reminders[i].key == KeyOf(t, DeadlineReached, a) && db.reminders[i].state == Withdrawn
  }

  /** The next sync after the deadline takes the reminder away for good. */
  lemma EndsWithdrawn(first: Db, courses: seq<CourseListing>, a: Instant, now: Instant, t: nat) returns (i: nat)
    requires Sound(first) && first.rounds == [] && a < now && Taken(first.reminders, KeyOf(t, DeadlineReached, a))
    ensures WithdrawnAt(Sync(first, courses, now), t, a, i)
  {
    var key, last := KeyOf(t, DeadlineReached, a), Sync(first, courses, now);
    SyncKeepsSound(first, courses, now);
    SyncCarriesOver(first, courses, key, now);
    i :| 0 <= i < |last.reminders| && last.reminders[i].key == key;
    NoRoundsNoResult(last, i);
    DeadlineReachedIsLost(first, courses, now, i);
    assert Anchored(last, last.reminders[i]);
  }

  /** Some task had its last reminder due at `now`, and is now missed with that reminder cancelled. */
  ghost predicate Lost(first: Db, last: Db, a: Instant, now: Instant) {
    exists t: nat, j: nat, i: nat ::
      t < |last.tasks| && last.tasks[t].status == Missed && DueAt(first, t, a, now, j) && WithdrawnAt(last, t, a, i)
  }

  lemma ThenLost(first: Db, courses: seq<CourseListing>, item: Item, a: Instant, now: Instant, t: nat, j: nat)
    requires Sound(first) && first.rounds == [] && PlainAssignment(item, a) && courses == OneAssignment(item) && a < now
    requires StoredTask(first, item, a, t) && !Closed(first.tasks[t].status) && DueAt(first, t, a, now, j)
    ensures Lost(first, Sync(first, courses, now), a, now)
  {
    assert Taken(first.reminders, first.reminders[j].key);
    EndsMissed(first, courses, item, a, now, t);
    var i := EndsWithdrawn(first, courses, a, now, t);
  }

  lemma TwoSyncs(courses: seq<CourseListing>, found: Instant, now: Instant)
    ensures After([SyncFinished(courses, found)]) == Sync(Start(), courses, found)
    ensures After([SyncFinished(courses, found), SyncFinished(courses, now)]) ==
            Sync(Sync(Start(), courses, found), courses, now)
  {
    var a, b := SyncFinished(courses, found), SyncFinished(courses, now);
    assert [a][..0] == [] && [a, b][..1] == [a];
    assert After([]) == Start();
    assert After([a]) == Act(After([a][..0]), a);
    assert After([a, b]) == Act(After([a, b][..1]), b);
  }

  /** A run from the empty store: one sync finds an assignment, the next one runs within half an hour after its
      deadline. Before the second sync the reminder of the deadline is due; after it the task is missed and the
      reminder cancelled, although a missed task was meant to get it still. */
  lemma DeadlineReachedLossExample(item: Item, a: Instant, found: Instant, now: Instant)
    requires PlainAssignment(item, a) && found < a < now <= a + 30 * MINUTE
    ensures
      var sync := OneAssignment(item);
      Lost(After([SyncFinished(sync, found)]), After([SyncFinished(sync, found), SyncFinished(sync, now)]), a, now)
  {
    var courses := OneAssignment(item);
    TwoSyncs(courses, found, now);
    var t, j := FoundAndPending(courses, item, a, found, now);
    ThenLost(Sync(Start(), courses, found), courses, item, a, now, t, j);
  }

  /** Such assignments. */
  lemma PlainAssignmentExample(day: nat)
    requires 1 <= day <= 31
    ensures PlainAssignment(DueInMarch(day).(verdict := Some(Judged(Relevant, None))),
                            FromFields(Fields(2025, 3, day, 12, 0, 0, 0)))
  {
    MarchDeadline(day);
  }
}
