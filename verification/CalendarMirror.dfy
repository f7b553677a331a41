/** Mirroring tasks into calendar events (ragra/sync/calendar_sync.py): the stored task-to-event rows and the
    events that exist on the calendar. */
module CalendarMirror {
  import opened Text
  import opened Instants
  import opened Records
  import Sorting

  /** A task joined with its course. */
  datatype TaskView = TaskView(courseLabel: string, title: string, source: Source, externalId: Option<string>,
                               deadline: Option<Instant>, status: Status)

  datatype Body = Body(summary: string, source: Source, externalId: Option<string>, start: int, end: Instant)

  datatype Row = Row(task: nat, event: nat)

  /** The stored rows, the Ragra events on the calendar, and the next id the calendar will hand out. */
  datatype Mirror = Mirror(rows: seq<Row>, remote: map<nat, Body>, next: nat)

  datatype Outcome = Created | Updated | Removed | Skipped | Aborted

  predicate WantsEvent(t: TaskView) {
    t.deadline.Some? && t.status != Cancelled && t.status != Completed
  }

  function EventBody(t: TaskView): (b: Body)
    requires t.deadline.Some?
    ensures b.end == t.deadline.value && b.end - b.start == 15 * MINUTE
  {
    Body(if t.courseLabel != "" then t.courseLabel + ": " + t.title else t.title, t.source, t.externalId,
         t.deadline.value - 15 * MINUTE, t.deadline.value)
  }

  // ----------------------------------------------------------------- the rows

  /** get_calendar_event: the first row of the task. */
  function EventOf(rows: seq<Row>, t: nat): (e: Option<nat>)
    ensures e.Some? ==> Row(t, e.value) in rows
    ensures e.None? ==> forall r :: r in rows ==> r.task != t
  {
    if rows == [] then None else if rows[0].task == t then Some(rows[0].event) else EventOf(rows[1..], t)
  }

  /** record_calendar_event: one row per event id; a known event id only has its time refreshed. */
  function Record(rows: seq<Row>, t: nat, e: nat): seq<Row> {
    if exists i :: 0 <= i < |rows| && rows[i].event == e then rows else rows + [Row(t, e)]
  }

  /** delete_calendar_event_record: every row of the task. */
  function Forget(rows: seq<Row>, t: nat): (r: seq<Row>)
    ensures forall x :: x in r <==> x in rows && x.task != t
  {
    if rows == [] then [] else (if rows[0].task == t then [] else [rows[0]]) + Forget(rows[1..], t)
  }

  predicate OneToOne(rows: seq<Row>) {
    forall i, j :: 0 <= i < j < |rows| ==> rows[i].task != rows[j].task && rows[i].event != rows[j].event
  }

  /** What every step keeps: the rows map tasks to events one to one, and their events are exactly those on the
      calendar. */
  ghost predicate Mirrored(m: Mirror) {
    && OneToOne(m.rows)
    && (forall r :: r in m.rows ==> r.event in m.remote)
    && (forall e :: e in m.remote ==> e < m.next && exists t :: Row(t, e) in m.rows)
  }

  lemma {:induction false} ForgetKeepsOneToOne(rows: seq<Row>, t: nat)
    requires OneToOne(rows)
    ensures OneToOne(Forget(rows, t))
  {
    if rows != [] {
      ForgetKeepsOneToOne(rows[1..], t);
      var rest := Forget(rows[1..], t);
      forall j | 0 <= j < |rest| ensures rest[j].task != rows[0].task && rest[j].event != rows[0].event {
        assert rest[j] in rows[1..];
        var k :| 0 <= k < |rows[1..]| && rows[1..][k] == rest[j];
        assert rows[k + 1] == rest[j];
      }
    }
  }

  lemma RowIsEventOf(rows: seq<Row>, t: nat, e: nat)
    requires OneToOne(rows) && Row(t, e) in rows
    ensures EventOf(rows, t) == Some(e)
  {
    var i :| 0 <= i < |rows| && rows[i] == Row(t, e);
    var f := EventOf(rows, t).value;
    var j :| 0 <= j < |rows| && rows[j] == Row(t, f);
    assert i == j;
  }

  // ------------------------------------------------------------- one task

  /** sync_task_event; a calendar call that fails changes nothing and ends the pass. */
  function SyncOne(tasks: seq<TaskView>, m: Mirror, t: nat, works: bool): (Mirror, Outcome) {
    if t >= |tasks| then (m, Skipped)
    else if !WantsEvent(tasks[t]) then
      match EventOf(m.rows, t)
      case None => (m, Skipped)
      case Some(e) => if works then (Mirror(Forget(m.rows, t), m.remote - {e}, m.next), Removed) else (m, Aborted)
    else if !works then (m, Aborted)
    else
      match EventOf(m.rows, t)
      case None =>
          (Mirror(Record(m.rows, t, m.next), m.remote[m.next := EventBody(tasks[t])], m.next + 1), Outcome.Created)
      case Some(e) => (Mirror(Record(m.rows, t, e), m.remote[e := EventBody(tasks[t])], m.next), Updated)
  }

  lemma SyncOneKeepsMirrored(tasks: seq<TaskView>, m: Mirror, t: nat, works: bool)
    requires Mirrored(m)
    ensures Mirrored(SyncOne(tasks, m, t, works).0)
  {
    var (after, outcome) := SyncOne(tasks, m, t, works);
    match outcome {
      case Skipped =>
      case Aborted =>
      case Removed => RemovingKeepsMirrored(m, t);
      case Created => CreatingKeepsMirrored(m, t, EventBody(tasks[t]));
      case Updated => UpdatingKeepsMirrored(m, t, EventBody(tasks[t]));
    }
  }

  lemma RemovingKeepsMirrored(m: Mirror, t: nat)
    requires Mirrored(m) && EventOf(m.rows, t).Some?
    ensures Mirrored(Mirror(Forget(m.rows, t), m.remote - {EventOf(m.rows, t).value}, m.next))
  {
    var e := EventOf(m.rows, t).value;
    var rows, remote := Forget(m.rows, t), m.remote - {e};
    ForgetKeepsOneToOne(m.rows, t);
    forall r | r in rows ensures r.event in remote { SameEventSameTask(m.rows, r, Row(t, e)); }
    forall f | f in remote ensures exists u :: Row(u, f) in rows {
      var u :| Row(u, f) in m.rows;
      RowIsEventOf(m.rows, u, f);
      assert Row(u, f) in rows;
    }
  }

  lemma SameEventSameTask(rows: seq<Row>, r: Row, s: Row)
    requires OneToOne(rows) && r in rows && s in rows
    ensures r.event == s.event <==> r.task == s.task
  {
    var i :| 0 <= i < |rows| && rows[i] == r;
    var j :| 0 <= j < |rows| && rows[j] == s;
  }

  lemma CreatingKeepsMirrored(m: Mirror, t: nat, b: Body)
    requires Mirrored(m) && EventOf(m.rows, t).None?
    ensures Record(m.rows, t, m.next) == m.rows + [Row(t, m.next)]
    ensures Mirrored(Mirror(Record(m.rows, t, m.next), m.remote[m.next := b], m.next + 1))
  {
    var rows, remote := m.rows + [Row(t, m.next)], m.remote[m.next := b];
    assert forall r :: r in m.rows ==> r.event < m.next;
    assert forall i :: 0 <= i < |m.rows| ==> m.rows[i] in m.rows;
    forall e | e in remote ensures e < m.next + 1 && exists u :: Row(u, e) in rows {
      if e == m.next {
        assert rows[|m.rows|] == Row(t, e);
      } else {
        var u :| Row(u, e) in m.rows;
        assert Row(u, e) in rows;
      }
    }
  }

  lemma UpdatingKeepsMirrored(m: Mirror, t: nat, b: Body)
    requires Mirrored(m) && EventOf(m.rows, t).Some?
    ensures Record(m.rows, t, EventOf(m.rows, t).value) == m.rows
    ensures Mirrored(Mirror(m.rows, m.remote[EventOf(m.rows, t).value := b], m.next))
  {
    var e := EventOf(m.rows, t).value;
    assert Row(t, e) in m.rows;
  }

  /** Task t's event is the mirror of the task. */
  predicate Current(tasks: seq<TaskView>, m: Mirror, t: nat)
    requires t < |tasks|
  {
    && (EventOf(m.rows, t).Some? <==> WantsEvent(tasks[t]))
    && (WantsEvent(tasks[t]) ==> HasBody(m, t, EventBody(tasks[t])))
  }

  predicate HasBody(m: Mirror, t: nat, b: Body) {
    && EventOf(m.rows, t).Some? && EventOf(m.rows, t).value in m.remote && m.remote[EventOf(m.rows, t).value] == b
  }

  /** A call that gets through leaves its task current. */
  lemma SyncOneSettles(tasks: seq<TaskView>, m: Mirror, t: nat)
    requires Mirrored(m) && t < |tasks|
    ensures Current(tasks, SyncOne(tasks, m, t, true).0, t)
  {
    var (after, outcome) := SyncOne(tasks, m, t, true);
    match outcome {
      case Skipped =>
      case Removed =>
      case Created =>
        CreatingKeepsMirrored(m, t, EventBody(tasks[t]));
        assert after.rows[|m.rows|] == Row(t, m.next);
        RowIsEventOf(after.rows, t, m.next);
      case Updated =>
        UpdatingKeepsMirrored(m, t, EventBody(tasks[t]));
    }
  }

  /** A step that changes only rows of task t and only the event e leaves the other tasks' events alone. */
  lemma OthersKeepTheirEvent(m: Mirror, after: Mirror, t: nat, u: nat, e: nat, b: Body)
    requires OneToOne(m.rows) && OneToOne(after.rows) && u != t
    requires forall r :: r in m.rows && r.task != t ==> r in after.rows && r.event != e
    requires forall r :: r in after.rows && r.task != t ==> r in m.rows
    requires forall f :: f in m.remote && f != e ==> f in after.remote && after.remote[f] == m.remote[f]
    ensures EventOf(after.rows, u) == EventOf(m.rows, u) && (HasBody(m, u, b) ==> HasBody(after, u, b))
  {
    if EventOf(m.rows, u).Some? { RowIsEventOf(after.rows, u, EventOf(m.rows, u).value); }
  }

  predicate Spared(m: Mirror, after: Mirror, u: nat, b: Body) {
    EventOf(after.rows, u) == EventOf(m.rows, u) && (HasBody(m, u, b) ==> HasBody(after, u, b))
  }

  lemma EventIsOwn(rows: seq<Row>, t: nat, e: nat)
    requires OneToOne(rows) && Row(t, e) in rows
    ensures forall r :: r in rows && r.task != t ==> r.event != e
  {
    forall r | r in rows && r.task != t ensures r.event != e { SameEventSameTask(rows, r, Row(t, e)); }
  }

  lemma RemovingSpares(m: Mirror, t: nat, u: nat, b: Body, e: nat)
    requires OneToOne(m.rows) && Row(t, e) in m.rows && u != t
    ensures Spared(m, Mirror(Forget(m.rows, t), m.remote - {e}, m.next), u, b)
  {
    ForgetKeepsOneToOne(m.rows, t);
    EventIsOwn(m.rows, t, e);
    OthersKeepTheirEvent(m, Mirror(Forget(m.rows, t), m.remote - {e}, m.next), t, u, e, b);
  }

  lemma CreatingSpares(m: Mirror, t: nat, u: nat, b: Body, body: Body)
    requires Mirrored(m) && EventOf(m.rows, t).None? && u != t
    ensures Spared(m, Mirror(Record(m.rows, t, m.next), m.remote[m.next := body], m.next + 1), u, b)
  {
    CreatingKeepsMirrored(m, t, body);
    var after := Mirror(m.rows + [Row(t, m.next)], m.remote[m.next := body], m.next + 1);
    OthersKeepTheirEvent(m, after, t, u, m.next, b);
  }

  lemma UpdatingSpares(m: Mirror, t: nat, u: nat, b: Body, body: Body, e: nat)
    requires OneToOne(m.rows) && Row(t, e) in m.rows && u != t
    ensures Spared(m, Mirror(m.rows, m.remote[e := body], m.next), u, b)
  {
    EventIsOwn(m.rows, t, e);
    OthersKeepTheirEvent(m, Mirror(m.rows, m.remote[e := body], m.next), t, u, e, b);
  }

  /** A call touches no other task's event. */
  lemma SyncOneSparesOthers(tasks: seq<TaskView>, m: Mirror, t: nat, u: nat, b: Body)
    requires Mirrored(m) && t < |tasks| && u != t
    ensures Spared(m, SyncOne(tasks, m, t, true).0, u, b)
  {
    if EventOf(m.rows, t).Some? {
      var e := EventOf(m.rows, t).value;
      if WantsEvent(tasks[t]) {
        UpdatingKeepsMirrored(m, t, EventBody(tasks[t]));
        UpdatingSpares(m, t, u, b, EventBody(tasks[t]), e);
      } else {
        RemovingSpares(m, t, u, b, e);
      }
    } else if WantsEvent(tasks[t]) {
      CreatingSpares(m, t, u, b, EventBody(tasks[t]));
    }
  }

  // ---------------------------------------------------------------- one pass

  predicate HasRow(rows: seq<Row>, t: nat) {
    exists i :: 0 <= i < |rows| && rows[i].task == t
  }

  lemma HasRowIsEvent(rows: seq<Row>, t: nat)
    ensures HasRow(rows, t) <==> EventOf(rows, t).Some?
  {
    if EventOf(rows, t).Some? {
      var i :| 0 <= i < |rows| && rows[i] == Row(t, EventOf(rows, t).value);
    }
  }

  /** The ids a pass visits, among the first n: tasks with a deadline and tasks with a stored row. */
  function ToVisit(tasks: seq<TaskView>, rows: seq<Row>, n: nat): (ids: seq<nat>)
    requires n <= |tasks|
    ensures forall t: nat :: t in ids <==> t < n && (tasks[t].deadline.Some? || HasRow(rows, t))
    ensures forall i, j :: 0 <= i < j < |ids| ==> ids[i] < ids[j]
  {
    if n == 0 then []
    else
      var front := ToVisit(tasks, rows, n - 1);
      assert forall i :: 0 <= i < |front| ==> front[i] in front;
      if tasks[n - 1].deadline.Some? || HasRow(rows, n - 1) then front + [n - 1] else front
  }

  datatype Counts = Counts(created: nat, updated: nat, removed: nat, skipped: nat)
  {
    function Add(o: Outcome): Counts {
      match o
      case Created => this.(created := created + 1)
      case Updated => this.(updated := updated + 1)
      case Removed => this.(removed := removed + 1)
      case Skipped => this.(skipped := skipped + 1)
      case Aborted => this
    }
  }

  /** How far a pass got. */
  datatype Progress = Progress(mirror: Mirror, counts: Counts, finished: bool)

  function Then(tasks: seq<TaskView>, before: Progress, t: nat, works: nat -> bool): Progress {
    if !before.finished then before
    else
      var (after, outcome) := SyncOne(tasks, before.mirror, t, works(t));
      Progress(after, before.counts.Add(outcome), outcome != Aborted)
  }

  /** The tasks in order, until a calendar call fails; works says for which tasks the calendar answers. */
  function Visit(tasks: seq<TaskView>, m: Mirror, ids: seq<nat>, works: nat -> bool): Progress {
    if ids == [] then Progress(m, Counts(0, 0, 0, 0), true)
    else
      Then(tasks, Visit(tasks, m, ids[..|ids| - 1], works), ids[|ids| - 1], works)
  }

  function SyncAll(tasks: seq<TaskView>, m: Mirror, works: nat -> bool): Progress {
    Visit(tasks, m, ToVisit(tasks, m.rows, |tasks|), works)
  }

  lemma {:induction false} VisitKeepsMirrored(tasks: seq<TaskView>, m: Mirror, ids: seq<nat>, works: nat -> bool)
    requires Mirrored(m)
    ensures Mirrored(Visit(tasks, m, ids, works).mirror)
  {
    if ids != [] {
      var before := Visit(tasks, m, ids[..|ids| - 1], works);
      VisitKeepsMirrored(tasks, m, ids[..|ids| - 1], works);
      SyncOneKeepsMirrored(tasks, before.mirror, ids[|ids| - 1], works(ids[|ids| - 1]));
    }
  }

  /** The calendar answers every call. */
  function Answering(): nat -> bool {
    t => true
  }

  function VisitAll(tasks: seq<TaskView>, m: Mirror, ids: seq<nat>): Progress {
    Visit(tasks, m, ids, Answering())
  }

  function BodyOrAny(t: TaskView): Body {
    if t.deadline.Some? then EventBody(t) else Body("", t.source, t.externalId, 0, 0)
  }

  /** Every task visited is current afterwards, and the others keep their event. */
  lemma {:induction false} VisitSettles(tasks: seq<TaskView>, m: Mirror, ids: seq<nat>, t: nat)
    requires Mirrored(m) && t < |tasks| && forall i :: 0 <= i < |ids| ==> ids[i] < |tasks|
    ensures VisitAll(tasks, m, ids).finished
    ensures t in ids ==> Current(tasks, VisitAll(tasks, m, ids).mirror, t)
    ensures t !in ids ==> EventOf(VisitAll(tasks, m, ids).mirror.rows, t) == EventOf(m.rows, t)
  {
    if ids != [] {
      var front, last := ids[..|ids| - 1], ids[|ids| - 1];
      var before := VisitAll(tasks, m, front);
      assert ids == front + [last];
      VisitSettles(tasks, m, front, t);
      VisitKeepsMirrored(tasks, m, front, Answering());
      if t == last {
        SyncOneSettles(tasks, before.mirror, t);
      } else {
        assert t in ids <==> t in front;
        SyncOneSparesOthers(tasks, before.mirror, last, t, BodyOrAny(tasks[t]));
      }
    }
  }

  /** After a pass the stored rows are exactly the tasks with a deadline that are neither completed nor cancelled - a
      missed task keeps its event - each with its present title and time, one to one with the events on the calendar. */
  lemma PassMirrorsTasks(tasks: seq<TaskView>, m: Mirror)
    requires Mirrored(m) && forall r :: r in m.rows ==> r.task < |tasks|
    ensures var after := SyncAll(tasks, m, Answering());
      && after.finished && Mirrored(after.mirror)
      && (forall t :: 0 <= t < |tasks| ==> Current(tasks, after.mirror, t))
      && (forall r :: r in after.mirror.rows ==> r.task < |tasks|)
  {
    var ids := ToVisit(tasks, m.rows, |tasks|);
    var after := VisitAll(tasks, m, ids);
    VisitKeepsMirrored(tasks, m, ids, Answering());
    VisitRowsKnown(tasks, m, ids, Answering());
    assert forall i :: 0 <= i < |ids| ==> ids[i] in ids;
    forall t | 0 <= t < |tasks| ensures Current(tasks, after.mirror, t) {
      VisitSettles(tasks, m, ids, t);
      HasRowIsEvent(m.rows, t);
    }
    if tasks == [] { assert ids == []; } else { VisitSettles(tasks, m, ids, 0); }
  }

  /** So after a pass exactly the tasks with a deadline that are neither completed nor cancelled have an event, and it
      ends at the deadline, starts a quarter of an hour before, and is headed by the course and the title. */
  lemma MirroredExactly(tasks: seq<TaskView>, m: Mirror, t: nat)
    requires Mirrored(m) && (forall r :: r in m.rows ==> r.task < |tasks|) && t < |tasks|
    ensures var after, task := SyncAll(tasks, m, Answering()).mirror, tasks[t];
      && (HasRow(after.rows, t) <==>
            task.deadline.Some? && task.status in {Discovered, ActionRequired, Targeted, Missed, Archived})
      && forall e: nat :: Row(t, e) in after.rows ==>
           && task.deadline.Some? && e in after.remote
           && after.remote[e] == Body(if task.courseLabel == "" then task.title
                                      else task.courseLabel + ": " + task.title,
                                      task.source, task.externalId, task.deadline.value - 15 * MINUTE,
                                      task.deadline.value)
  {
    PassMirrorsTasks(tasks, m);
    var after := SyncAll(tasks, m, Answering()).mirror;
    HasRowIsEvent(after.rows, t);
    assert Current(tasks, after, t);
    forall e: nat | Row(t, e) in after.rows ensures EventOf(after.rows, t) == Some(e) {
      RowIsEventOf(after.rows, t, e);
    }
  }

  lemma SyncOneRowsKnown(tasks: seq<TaskView>, m: Mirror, t: nat, works: bool)
    requires forall r :: r in m.rows ==> r.task < |tasks|
    ensures forall r :: r in SyncOne(tasks, m, t, works).0.rows ==> r.task < |tasks|
  {
  }

  lemma {:induction false} VisitRowsKnown(tasks: seq<TaskView>, m: Mirror, ids: seq<nat>, works: nat -> bool)
    requires forall r :: r in m.rows ==> r.task < |tasks|
    ensures forall r :: r in Visit(tasks, m, ids, works).mirror.rows ==> r.task < |tasks|
  {
    if ids != [] {
      var before := Visit(tasks, m, ids[..|ids| - 1], works);
      VisitRowsKnown(tasks, m, ids[..|ids| - 1], works);
      SyncOneRowsKnown(tasks, before.mirror, ids[|ids| - 1], works(ids[|ids| - 1]));
    }
  }

  // --------------------------------------------- the union is enough; idempotence

  function AllIds(n: nat): (ids: seq<nat>)
    ensures |ids| == n && forall t :: 0 <= t < n ==> ids[t] == t
  {
    if n == 0 then [] else AllIds(n - 1) + [n - 1]
  }

  /** A visit leaves alone the rows of tasks it has not come to. */
  lemma {:induction false} VisitLeavesRow(tasks: seq<TaskView>, m: Mirror, ids: seq<nat>, works: nat -> bool, t: nat)
    requires t !in ids
    ensures EventOf(m.rows, t).None? ==> EventOf(Visit(tasks, m, ids, works).mirror.rows, t).None?
  {
    if ids != [] {
      VisitLeavesRow(tasks, m, ids[..|ids| - 1], works, t);
      assert t != ids[|ids| - 1];
      var before := Visit(tasks, m, ids[..|ids| - 1], works);
      var after := Visit(tasks, m, ids, works);
      assert forall r :: r in after.mirror.rows && r.task == t ==> r in before.mirror.rows;
      if EventOf(after.mirror.rows, t).Some? {
        assert Row(t, EventOf(after.mirror.rows, t).value) in before.mirror.rows || EventOf(m.rows, t).Some?;
      }
    }
  }

  /** Equal but for the number of tasks passed over. */
  predicate SameWork(a: Progress, b: Progress) {
    a.mirror == b.mirror && a.finished == b.finished && a.counts == b.counts.(skipped := a.counts.skipped)
  }

  lemma SameWorkGoesOn(tasks: seq<TaskView>, a: Progress, b: Progress, t: nat, works: nat -> bool)
    requires SameWork(a, b)
    ensures SameWork(Then(tasks, a, t, works), Then(tasks, b, t, works))
    ensures t < |tasks| && tasks[t].deadline.None? && EventOf(b.mirror.rows, t).None? ==>
              SameWork(a, Then(tasks, b, t, works))
  {
  }

  /** Visiting the union of tasks with a deadline and tasks with a row does what visiting every task does, calendar
      failures included; only more tasks are counted as skipped. */
  lemma {:induction false} UnionIsEnough(tasks: seq<TaskView>, m: Mirror, n: nat, works: nat -> bool)
    requires n <= |tasks|
    ensures SameWork(Visit(tasks, m, ToVisit(tasks, m.rows, n), works), Visit(tasks, m, AllIds(n), works))
  {
    if n > 0 {
      UnionIsEnough(tasks, m, n - 1, works);
      var t, front := n - 1, ToVisit(tasks, m.rows, n - 1);
      assert AllIds(n)[..t] == AllIds(t);
      SameWorkGoesOn(tasks, Visit(tasks, m, front, works), Visit(tasks, m, AllIds(t), works), t, works);
      HasRowIsEvent(m.rows, t);
      if tasks[t].deadline.Some? || HasRow(m.rows, t) {
        assert ToVisit(tasks, m.rows, n) == front + [t] && (front + [t])[..|front|] == front;
      } else {
        assert t !in front;
        VisitLeavesRow(tasks, m, front, works, t);
      }
    }
  }

  // ---------------------------------------------------------------- what a pass counts

  /** What one task's outcome says of its rows. */
  lemma OutcomeIs(tasks: seq<TaskView>, m: Mirror, t: nat, works: bool)
    requires Mirrored(m) && t < |tasks|
    ensures var (after, outcome) := SyncOne(tasks, m, t, works);
      && (outcome.Created? <==> !HasRow(m.rows, t) && HasRow(after.rows, t))
      && (outcome.Removed? <==> HasRow(m.rows, t) && !HasRow(after.rows, t))
      && (outcome.Updated? ==> HasRow(m.rows, t) && HasRow(after.rows, t))
      && (outcome.Skipped? ==> !HasRow(m.rows, t) && !HasRow(after.rows, t))
  {
    var after := SyncOne(tasks, m, t, works).0;
    HasRowIsEvent(m.rows, t);
    HasRowIsEvent(after.rows, t);
    SyncOneKeepsMirrored(tasks, m, t, works);
    if WantsEvent(tasks[t]) && works {
      SyncOneSettles(tasks, m, t);
    } else if works && EventOf(m.rows, t).Some? {
      assert forall r :: r in after.rows ==> r.task != t;
    }
  }

  /** The tasks of a list by whether they had an event before and have one after. */
  function Events(ids: seq<nat>, before: seq<Row>, after: seq<Row>, had: bool, has: bool): set<nat> {
    set t | t in ids && HasRow(before, t) == had && HasRow(after, t) == has
  }

  lemma OneMoreEvent(front: seq<nat>, last: nat, before: seq<Row>, mid: seq<Row>, after: seq<Row>, had: bool, has: bool)
    requires last !in front && forall t :: t in front ==> (HasRow(mid, t) <==> HasRow(after, t))
    ensures |Events(front + [last], before, after, had, has)|
            == |Events(front, before, mid, had, has)|
               + if HasRow(before, last) == had && HasRow(after, last) == has then 1 else 0
  {
    assert Events(front + [last], before, after, had, has)
           == Events(front, before, mid, had, has)
              + if HasRow(before, last) == had && HasRow(after, last) == has then {last} else {};
  }

  /** The counters of a pass, also of one that broke off: created and removed are the tasks that gained and lost their
      event; of a finished one, updated are those that kept theirs, and every task visited is counted once. */
  predicate CountsTell(ids: seq<nat>, before: seq<Row>, p: Progress) {
    && p.counts.created == |Events(ids, before, p.mirror.rows, false, true)|
    && p.counts.removed == |Events(ids, before, p.mirror.rows, true, false)|
    && (p.finished ==> p.counts.updated == |Events(ids, before, p.mirror.rows, true, true)|)
    && (p.finished ==> p.counts.skipped == |Events(ids, before, p.mirror.rows, false, false)|)
  }

  lemma {:induction false} VisitCounts(tasks: seq<TaskView>, m: Mirror, ids: seq<nat>, works: nat -> bool)
    requires Mirrored(m) && Sorting.NoDuplicates(ids) && forall i :: 0 <= i < |ids| ==> ids[i] < |tasks|
    ensures CountsTell(ids, m.rows, Visit(tasks, m, ids, works))
  {
    if ids == [] {
      NoEvents(m.rows);
    } else {
      var front, last := ids[..|ids| - 1], ids[|ids| - 1];
      assert ids == front + [last];
      assert forall i :: 0 <= i < |front| ==> front[i] == ids[i] != ids[|ids| - 1];
      VisitCounts(tasks, m, front, works);
      VisitKeepsMirrored(tasks, m, front, works);
      VisitLeavesHasRow(tasks, m, front, works, last);
      ThenCounts(tasks, m.rows, front, Visit(tasks, m, front, works), last, works);
    }
  }

  lemma NoEvents(rows: seq<Row>)
    ensures forall had, has :: Events([], rows, rows, had, has) == {}
  {
  }

  lemma {:induction false} VisitLeavesHasRow(tasks: seq<TaskView>, m: Mirror, ids: seq<nat>, works: nat -> bool, t: nat)
    requires t !in ids
    ensures HasRow(Visit(tasks, m, ids, works).mirror.rows, t) <==> HasRow(m.rows, t)
  {
    if ids != [] {
      var front, last := ids[..|ids| - 1], ids[|ids| - 1];
      assert forall i :: 0 <= i < |front| ==> front[i] == ids[i];
      VisitLeavesHasRow(tasks, m, front, works, t);
      OthersKeepRows(tasks, Visit(tasks, m, front, works).mirror, last, works(last), t);
    }
  }

  lemma ThenCounts(tasks: seq<TaskView>, before: seq<Row>, front: seq<nat>, p: Progress, last: nat, works: nat -> bool)
    requires Mirrored(p.mirror) && last < |tasks| && last !in front
    requires HasRow(p.mirror.rows, last) <==> HasRow(before, last)
    requires CountsTell(front, before, p)
    ensures CountsTell(front + [last], before, Then(tasks, p, last, works))
  {
    var q := Then(tasks, p, last, works);
    if p.finished {
      OutcomeIs(tasks, p.mirror, last, works(last));
      forall t | t in front ensures HasRow(p.mirror.rows, t) <==> HasRow(q.mirror.rows, t) {
        OthersKeepRows(tasks, p.mirror, last, works(last), t);
      }
    }
    OneMoreEvent(front, last, before, p.mirror.rows, q.mirror.rows, false, true);
    OneMoreEvent(front, last, before, p.mirror.rows, q.mirror.rows, true, false);
    OneMoreEvent(front, last, before, p.mirror.rows, q.mirror.rows, true, true);
    OneMoreEvent(front, last, before, p.mirror.rows, q.mirror.rows, false, false);
  }

  lemma OthersKeepRows(tasks: seq<TaskView>, m: Mirror, t: nat, works: bool, u: nat)
    requires u != t
    ensures HasRow(SyncOne(tasks, m, t, works).0.rows, u) <==> HasRow(m.rows, u)
  {
    var after := SyncOne(tasks, m, t, works).0;
    if HasRow(m.rows, u) {
      var i :| 0 <= i < |m.rows| && m.rows[i].task == u;
      assert m.rows[i] in after.rows;
    }
    if HasRow(after.rows, u) {
      var i :| 0 <= i < |after.rows| && after.rows[i].task == u;
      assert after.rows[i] in m.rows;
    }
  }

  /** What the pass over all tasks returns. */
  lemma PassCounts(tasks: seq<TaskView>, m: Mirror, works: nat -> bool)
    requires Mirrored(m)
    ensures CountsTell(ToVisit(tasks, m.rows, |tasks|), m.rows, SyncAll(tasks, m, works))
  {
    var ids := ToVisit(tasks, m.rows, |tasks|);
    assert forall i :: 0 <= i < |ids| ==> ids[i] in ids;
    VisitCounts(tasks, m, ids, works);
  }

  lemma UpdateOfCurrent(m: Mirror, t: nat, body: Body)
    requires Mirrored(m) && HasBody(m, t, body)
    ensures m.remote[EventOf(m.rows, t).value := body] == m.remote
  {
  }

  /** Visiting current tasks changes nothing and only updates or skips. */
  lemma {:induction false} VisitCurrent(tasks: seq<TaskView>, m: Mirror, ids: seq<nat>)
    requires Mirrored(m) && forall i :: 0 <= i < |ids| ==> ids[i] < |tasks|
    requires forall t :: 0 <= t < |tasks| ==> Current(tasks, m, t)
    ensures var p := VisitAll(tasks, m, ids);
      p.mirror == m && p.counts.created == p.counts.removed == 0 && p.counts.updated + p.counts.skipped == |ids|
  {
    if ids != [] {
      var t := ids[|ids| - 1];
      VisitCurrent(tasks, m, ids[..|ids| - 1]);
      VisitSettles(tasks, m, ids[..|ids| - 1], t);
      assert Current(tasks, m, t);
      if WantsEvent(tasks[t]) { UpdateOfCurrent(m, t, EventBody(tasks[t])); }
    }
  }

  /** A second pass over unchanged tasks creates and removes nothing and leaves rows and calendar as they are. */
  lemma SecondPassIsQuiet(tasks: seq<TaskView>, m: Mirror)
    requires Mirrored(m) && forall r :: r in m.rows ==> r.task < |tasks|
    ensures var first := SyncAll(tasks, m, Answering());
            var second := SyncAll(tasks, first.mirror, Answering());
            second.mirror == first.mirror && second.counts.created == second.counts.removed == 0
  {
    PassMirrorsTasks(tasks, m);
    var first := SyncAll(tasks, m, Answering());
    var ids := ToVisit(tasks, first.mirror.rows, |tasks|);
    assert forall i :: 0 <= i < |ids| ==> ids[i] in ids;
    VisitCurrent(tasks, first.mirror, ids);
  }

  // -------------------------------------------------------------------- runs

  datatype Step =
    | TasksBecome(tasks: seq<TaskView>)
    | OneTask(task: nat, works: bool)
    | Pass(answers: nat -> bool)

  datatype World = World(tasks: seq<TaskView>, mirror: Mirror)

  function Act(w: World, s: Step): World {
    match s
    case TasksBecome(tasks) => if |w.tasks| <= |tasks| then w.(tasks := tasks) else w
    case OneTask(t, works) => w.(mirror := SyncOne(w.tasks, w.mirror, t, works).0)
    case Pass(answers) => w.(mirror := SyncAll(w.tasks, w.mirror, answers).mirror)
  }

  function Run(steps: seq<Step>): World {
    if steps == [] then World([], Mirror([], map[], 0)) else Act(Run(steps[..|steps| - 1]), steps[|steps| - 1])
  }

  ghost predicate Sound(w: World) {
    Mirrored(w.mirror) && forall r :: r in w.mirror.rows ==> r.task < |w.tasks|
  }

  lemma PassKeepsSound(w: World, answers: nat -> bool)
    requires Sound(w)
    ensures Sound(w.(mirror := SyncAll(w.tasks, w.mirror, answers).mirror))
  {
    var ids := ToVisit(w.tasks, w.mirror.rows, |w.tasks|);
    VisitKeepsMirrored(w.tasks, w.mirror, ids, answers);
    VisitRowsKnown(w.tasks, w.mirror, ids, answers);
  }

  lemma ActKeepsSound(w: World, s: Step)
    requires Sound(w)
    ensures Sound(Act(w, s))
  {
    match s {
      case TasksBecome(tasks) =>
      case OneTask(t, works) =>
        SyncOneKeepsMirrored(w.tasks, w.mirror, t, works);
        SyncOneRowsKnown(w.tasks, w.mirror, t, works);
      case Pass(answers) => PassKeepsSound(w, answers);
    }
  }

  /** Over every run of task changes, single calls and passes, failed calls included, tasks and events stay one to one
      and the rows name exactly the Ragra events on the calendar. */
  lemma {:induction false} EveryRunIsMirrored(steps: seq<Step>)
    ensures Sound(Run(steps))
  {
    if steps != [] {
      EveryRunIsMirrored(steps[..|steps| - 1]);
      ActKeepsSound(Run(steps[..|steps| - 1]), steps[|steps| - 1]);
    }
  }

  // ------------------------------------------------------- the stored mapping

  class CalendarSync {
    var rows: seq<Row>
    var remote: map<nat, Body>
    var next: nat

    function View(): Mirror
      reads this
    {
      Mirror(rows, remote, next)
    }

    constructor ()
      ensures View() == Mirror([], map[], 0)
    {
      rows, remote, next := [], map[], 0;
    }

    method RecordCalendarEvent(t: nat, e: nat)
      modifies this`rows
      ensures rows == Record(old(rows), t, e)
    {
      for i := 0 to |rows|
        invariant rows == old(rows)
        invariant forall k :: 0 <= k < i ==> rows[k].event != e
      {
        if rows[i].event == e { return; }
      }
      rows := rows + [Row(t, e)];
    }

    /** sync_task_event. */
    method SyncTaskEvent(tasks: seq<TaskView>, t: nat, works: bool) returns (outcome: Outcome)
      modifies this
      ensures (View(), outcome) == SyncOne(tasks, old(View()), t, works)
    {
      if t >= |tasks| { return Skipped; }
      var existing := EventOf(rows, t);
      if !WantsEvent(tasks[t]) {
        if existing.None? { return Skipped; }
        if !works { return Aborted; }
        remote := remote - {existing.value};
        rows := Forget(rows, t);
        return Removed;
      }
      if !works { return Aborted; }
      var body := EventBody(tasks[t]);
      if existing.None? {
        var event := next;
        remote, next := remote[event := body], next + 1;
        RecordCalendarEvent(t, event);
        return Outcome.Created;
      }
      remote := remote[existing.value := body];
      RecordCalendarEvent(t, existing.value);
      return Updated;
    }

    /** sync_all_task_events. */
    method SyncAllTaskEvents(tasks: seq<TaskView>, works: nat -> bool) returns (counts: Counts, finished: bool)
      modifies this
      ensures Progress(View(), counts, finished) == SyncAll(tasks, old(View()), works)
    {
      ghost var start := View();
      var ids := ToVisit(tasks, rows, |tasks|);
      counts := Counts(0, 0, 0, 0);
      for k := 0 to |ids|
        invariant Progress(View(), counts, true) == Visit(tasks, start, ids[..k], works)
      {
        VisitOneMore(tasks, start, ids, k, works);
        var outcome := SyncTaskEvent(tasks, ids[k], works(ids[k]));
        if outcome == Aborted {
          VisitEnded(tasks, start, ids, k + 1, works);
          return counts, false;
        }
        counts := counts.Add(outcome);
      }
      assert ids[..|ids|] == ids;
      return counts, true;
    }
  }

  lemma VisitOneMore(tasks: seq<TaskView>, m: Mirror, ids: seq<nat>, k: nat, works: nat -> bool)
    requires k < |ids|
    ensures var before := Visit(tasks, m, ids[..k], works);
            Visit(tasks, m, ids[..k + 1], works) == Then(tasks, before, ids[k], works)
  {
    assert ids[..k + 1][..k] == ids[..k];
  }

  lemma {:induction false} VisitEnded(tasks: seq<TaskView>, m: Mirror, ids: seq<nat>, k: nat, works: nat -> bool)
    requires k <= |ids| && !Visit(tasks, m, ids[..k], works).finished
    ensures Visit(tasks, m, ids, works) == Visit(tasks, m, ids[..k], works)
    decreases |ids|
  {
    if k < |ids| {
      var front := ids[..|ids| - 1];
      assert front[..k] == ids[..k];
      VisitEnded(tasks, m, front, k, works);
    } else {
      assert ids[..k] == ids;
    }
  }
}
