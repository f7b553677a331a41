/** What the summary of a class pass counts (ragra/reminders/class_reminders.py:156-179): each number, read off the
    table before and after. */
module ClassCounts {
  import opened Text
  import opened Instants
  import opened WallClock
  import opened Schedule
  import opened ClassReminders
  import Sorting

  function Counter(s: Summary, o: Outcome): nat {
    match o
    case Delivered => s.sent
    case Retry => s.retrying
    case Expired => s.expired
    case NotConfigured => s.skipped
  }

  function HasOutcome(rows: seq<Row>, now: int, providers: nat, answer: (nat, nat) -> bool, o: Outcome): nat -> bool {
    (i: nat) => i < |rows| && Judge(rows[i], now, providers, Accepted(answer, i, providers)) == o
  }

  lemma CountOne(s: Summary, got: Outcome, o: Outcome)
    ensures Counter(Count(s, got), o) == Counter(s, o) + if got == o then 1 else 0
  {
  }

  lemma {:induction false} TallyIsSize(rows: seq<Row>, ids: seq<nat>, now: int, providers: nat,
                                       answer: (nat, nat) -> bool, o: Outcome)
    requires Sorting.NoDuplicates(ids) && forall k :: 0 <= k < |ids| ==> ids[k] < |rows|
    ensures Counter(Tally(rows, ids, now, providers, answer), o)
            == |Sorting.Where(ids, HasOutcome(rows, now, providers, answer, o))|
  {
    var has := HasOutcome(rows, now, providers, answer, o);
    if ids == [] {
      assert Sorting.Where(ids, has) == {};
    } else {
      var front, last := ids[..|ids| - 1], ids[|ids| - 1];
      assert ids == front + [last];
      assert forall i :: 0 <= i < |front| ==> front[i] == ids[i] != last;
      TallyIsSize(rows, front, now, providers, answer, o);
      CountOne(Tally(rows, front, now, providers, answer),
               Judge(rows[last], now, providers, Accepted(answer, last, providers)), o);
      Sorting.WhereOneMore(front, last, has);
    }
  }

  /** The pending rows whose class has started. */
  function Stale(rows: seq<Row>, now: int): set<nat> {
    set i: nat | i < |rows| && rows[i].state == Pending && rows[i].startsAt <= now
  }

  lemma {:induction false} StaleIsSize(rows: seq<Row>, now: int)
    ensures StaleCount(rows, now) == |Stale(rows, now)|
  {
    if rows == [] {
      assert Stale(rows, now) == {};
    } else {
      var front, last := rows[..|rows| - 1], rows[|rows| - 1];
      StaleIsSize(front, now);
      assert Stale(rows, now) == Stale(front, now)
                                 + if last.state == Pending && last.startsAt <= now then {|rows| - 1} else {};
    }
  }

  // ------------------------------------------------------------- a whole pass

  /** The rows that have a state after and did not before, new ones included. */
  function Became(before: seq<Row>, after: seq<Row>, state: State): set<nat> {
    set i: nat | i < |after| && after[i].state == state && !(i < |before| && before[i].state == state)
  }

  /** The rows left pending, tried so many times in between. */
  function Left(before: seq<Row>, after: seq<Row>, tries: nat): set<nat> {
    set i: nat | i < |after| && after[i].state == Pending
      && after[i].attempts == tries + if i < |before| then before[i].attempts else 0
  }

  /** A row between the claiming and the delivery. */
  predicate Between(before: seq<Row>, mid: seq<Row>, i: nat, now: int) {
    i < |mid| && mid[i] == if i < |before| then ExpireRow(before[i], now) else mid[i].(state := Pending, attempts := 0)
  }

  lemma PreparedIs(t: Table, z: Zone, classes: seq<WeeklyClass>, now: int, i: nat)
    requires UniqueRows(t.rows) && AllReadable(classes)
    ensures var mid := Prepared(t, z, classes, now).rows;
      |t.rows| <= |mid| && (i < |mid| ==> Between(t.rows, mid, i, now))
  {
    ClaimsAreExact(Expire(t.rows, now), Upcoming(z, classes, now));
  }

  lemma PassIs(t: Table, z: Zone, classes: seq<WeeklyClass>, now: int, providers: nat, answer: (nat, nat) -> bool,
               i: nat)
    requires AllReadable(classes)
    ensures
      var mid, after := Prepared(t, z, classes, now).rows, Pass(t, z, classes, now, providers, answer).rows;
      && |after| == |mid|
      && (i < |mid| ==>
            after[i] == if mid[i].state == Pending
                        then Attempted(mid[i], Judge(mid[i], now, providers, Accepted(answer, i, providers)))
                        else mid[i])
  {
    var p := Prepared(t, z, classes, now);
    if i < |p.rows| { DispatchRow(p, now, providers, answer, i); }
  }

  /** What a row's attempt makes of it. */
  lemma AttemptIs(before: seq<Row>, mid: seq<Row>, after: seq<Row>, i: nat, now: int, o: Outcome)
    requires Between(before, mid, i, now) && |after| == |mid| && |before| <= |mid|
    requires after[i] == if mid[i].state == Pending then Attempted(mid[i], o) else mid[i]
    ensures i in Became(before, after, Sent) <==> mid[i].state == Pending && o == Delivered
    ensures i in Became(before, after, Failed) <==> i in Stale(before, now) || (mid[i].state == Pending && o == Expired)
    ensures i in Left(before, after, 1) <==> mid[i].state == Pending && o == Retry
    ensures i in Left(before, after, 0) <==> mid[i].state == Pending && o == NotConfigured
    ensures i in Stale(before, now) ==> mid[i].state != Pending
  {
  }

  /** The summary of a pass over a readable timetable: how many rows it claimed, how many it turned SENT and FAILED, and
      how many it left pending with one more try and without one. */
  lemma ReportCounts(t: Table, z: Zone, classes: seq<WeeklyClass>, now: int, providers: nat, answer: (nat, nat) -> bool)
    requires UniqueRows(t.rows) && AllReadable(classes)
    ensures
      var s, after := Report(t, z, classes, now, providers, answer), Pass(t, z, classes, now, providers, answer).rows;
      && |t.rows| + s.scheduled == |after|
      && s.sent == |Became(t.rows, after, Sent)| && s.expired == |Became(t.rows, after, Failed)|
      && s.retrying == |Left(t.rows, after, 1)| && s.skipped == |Left(t.rows, after, 0)|
  {
    var mid, after := Prepared(t, z, classes, now).rows, Pass(t, z, classes, now, providers, answer).rows;
    var ids := PendingIds(mid);
    PreparedIs(t, z, classes, now, 0);
    PassIs(t, z, classes, now, providers, answer, 0);
    forall i: nat | i < |mid|
      ensures Between(t.rows, mid, i, now)
      ensures after[i] == if mid[i].state == Pending
                          then Attempted(mid[i], Judge(mid[i], now, providers, Accepted(answer, i, providers)))
                          else mid[i]
    {
      PreparedIs(t, z, classes, now, i);
      PassIs(t, z, classes, now, providers, answer, i);
    }
    OutcomesAre(t.rows, mid, after, now, providers, answer);
    TallyIsSize(mid, ids, now, providers, answer, Delivered);
    TallyIsSize(mid, ids, now, providers, answer, Expired);
    TallyIsSize(mid, ids, now, providers, answer, Retry);
    TallyIsSize(mid, ids, now, providers, answer, NotConfigured);
    StaleIsSize(t.rows, now);
  }

  lemma OutcomesAre(before: seq<Row>, mid: seq<Row>, after: seq<Row>, now: int, providers: nat,
                    answer: (nat, nat) -> bool)
    requires |before| <= |mid| == |after|
    requires forall i: nat :: i < |mid| ==> Between(before, mid, i, now)
    requires forall i: nat :: i < |mid| ==>
               after[i] == if mid[i].state == Pending
                           then Attempted(mid[i], Judge(mid[i], now, providers, Accepted(answer, i, providers)))
                           else mid[i]
    ensures var ids := PendingIds(mid);
      && Became(before, after, Sent) == Sorting.Where(ids, HasOutcome(mid, now, providers, answer, Delivered))
      && Left(before, after, 1) == Sorting.Where(ids, HasOutcome(mid, now, providers, answer, Retry))
      && Left(before, after, 0) == Sorting.Where(ids, HasOutcome(mid, now, providers, answer, NotConfigured))
      && |Became(before, after, Failed)|
         == |Stale(before, now)| + |Sorting.Where(ids, HasOutcome(mid, now, providers, answer, Expired))|
  {
    var ids := PendingIds(mid);
    var expired := Sorting.Where(ids, HasOutcome(mid, now, providers, answer, Expired));
    forall i: nat | i < |mid|
      ensures i in Became(before, after, Sent)
              <==> i in Sorting.Where(ids, HasOutcome(mid, now, providers, answer, Delivered))
      ensures i in Left(before, after, 1) <==> i in Sorting.Where(ids, HasOutcome(mid, now, providers, answer, Retry))
      ensures i in Left(before, after, 0)
              <==> i in Sorting.Where(ids, HasOutcome(mid, now, providers, answer, NotConfigured))
      ensures i in Became(before, after, Failed) <==> i in Stale(before, now) || i in expired
      ensures !(i in Stale(before, now) && i in expired)
    {
      AttemptIs(before, mid, after, i, now, Judge(mid[i], now, providers, Accepted(answer, i, providers)));
    }
    assert Became(before, after, Failed) == Stale(before, now) + expired;
    assert Stale(before, now) !! expired;
  }
}
