/** Announcing classes shortly before they start (ragra/reminders/class_reminders.py). */
module ClassReminders {
  import opened Text
  import opened Instants
  import opened WallClock
  import opened Schedule
  import Sorting

  const LOOKAHEAD: int := 45 * MINUTE

  datatype State = Pending | Sent | Failed

  /** A claimed meeting: the weekly class, its local day, and the start recorded when it was claimed. */
  datatype Row = Row(event: nat, day: int, startsAt: int, state: State, attempts: nat)

  /** One attempt to deliver a row's announcement. */
  datatype Round = Round(row: nat, at: int, delivered: bool)

  datatype Table = Table(rows: seq<Row>, rounds: seq<Round>)

  // -------------------------------------------------------------------- keys

  function DayText(day: nat): string
    requires day < DAYS
  {
    var (y, m, d) := ToDate(day);
    DateText(Fields(y, m, d, 0, 0, 0, 0))
  }

  /** The text stored in the unique column. */
  function KeyText(event: nat, day: nat): string
    requires day < DAYS
  {
    IntText(event) + [':'] + (DayText(day) + [':'] + "CLASS_SOON")
  }

  lemma ThreeParts(a: string, b: string, c: string)
    requires Without(a, ':') && Without(b, ':') && Without(c, ':')
    ensures SplitOn(a + [':'] + (b + [':'] + c), ':') == [a, b, c]
  {
    SplitOnHead(a, ':', b + [':'] + c);
    SplitOnHead(b, ':', c);
    SplitOnNone(c, ':');
  }

  lemma DateTextHasNoColon(f: Fields)
    ensures Without(DateText(f), ':')
  {
    var y, m, d := Pad(f.year, 4), Pad(f.month, 2), Pad(f.day, 2);
    assert DateText(f) == y + "-" + m + "-" + d;
  }

  lemma KeyTextParts(event: nat, day: nat)
    requires day < DAYS
    ensures SplitOn(KeyText(event, day), ':') == [IntText(event), DayText(day), "CLASS_SOON"]
  {
    var (y, m, d) := ToDate(day);
    DateTextHasNoColon(Fields(y, m, d, 0, 0, 0, 0));
    ThreeParts(IntText(event), DayText(day), "CLASS_SOON");
  }

  lemma DayTextInjective(day: nat, day': nat)
    requires day < DAYS && day' < DAYS && DayText(day) == DayText(day')
    ensures day == day'
  {
    var (y, m, d) := ToDate(day);
    var (y', m', d') := ToDate(day');
    DateTextOrder(Fields(y, m, d, 0, 0, 0, 0), Fields(y', m', d', 0, 0, 0, 0));
  }

  /** Two meetings share a key text only if they are the same class on the same day, so a row per text is a row per
      meeting. */
  lemma KeyTextInjective(event: nat, day: nat, event': nat, day': nat)
    requires day < DAYS && day' < DAYS && KeyText(event, day) == KeyText(event', day')
    ensures event == event' && day == day'
  {
    KeyTextParts(event, day);
    KeyTextParts(event', day');
    assert [IntText(event), DayText(day), "CLASS_SOON"][0] == [IntText(event'), DayText(day'), "CLASS_SOON"][0];
    assert [IntText(event), DayText(day), "CLASS_SOON"][1] == [IntText(event'), DayText(day'), "CLASS_SOON"][1];
    NumberOfIntText(event);
    NumberOfIntText(event');
    DayTextInjective(day, day');
  }

  // ---------------------------------------------------------------- claiming

  predicate Claimed(rows: seq<Row>, event: nat, day: int) {
    exists i :: 0 <= i < |rows| && rows[i].event == event && rows[i].day == day
  }

  /** insert_class_reminder_if_absent, for a class that is not cancelled. */
  function Claim(rows: seq<Row>, o: Occurrence): seq<Row> {
    if o.cancelled || Claimed(rows, o.id, o.day) then rows else rows + [Row(o.id, o.day, o.startsAt, Pending, 0)]
  }

  function ClaimAll(rows: seq<Row>, os: seq<Occurrence>): (after: seq<Row>)
    ensures |after| >= |rows|
  {
    if os == [] then rows else Claim(ClaimAll(rows, os[..|os| - 1]), os[|os| - 1])
  }

  function ExpireRow(r: Row, now: int): Row {
    if r.state == Pending && r.startsAt <= now then r.(state := Failed) else r
  }

  /** expire_stale_class_reminders. */
  function Expire(rows: seq<Row>, now: int): (after: seq<Row>)
    ensures |after| == |rows| && forall i :: 0 <= i < |rows| ==> after[i] == ExpireRow(rows[i], now)
  {
    seq(|rows|, i requires 0 <= i < |rows| => ExpireRow(rows[i], now))
  }

  function StaleCount(rows: seq<Row>, now: int): nat {
    if rows == [] then 0
    else StaleCount(rows[..|rows| - 1], now) + if ExpireRow(rows[|rows| - 1], now) != rows[|rows| - 1] then 1 else 0
  }

  predicate UniqueRows(rows: seq<Row>) {
    forall i, j :: 0 <= i < j < |rows| ==> rows[i].event != rows[j].event || rows[i].day != rows[j].day
  }

  /** A newly claimed meeting of the list. */
  predicate FreshRow(r: Row, os: seq<Occurrence>) {
    exists o :: o in os && !o.cancelled && r == Row(o.id, o.day, o.startsAt, Pending, 0)
  }

  /** What claiming a list of meetings does: old rows stay as they are, new rows are pending meetings of the list that
      are not cancelled and were not claimed, and afterwards every meeting that is not cancelled is claimed - once. */
  lemma {:induction false} ClaimsAreExact(rows: seq<Row>, os: seq<Occurrence>)
    requires UniqueRows(rows)
    ensures var after := ClaimAll(rows, os);
      && rows <= after && UniqueRows(after)
      && (forall i :: |rows| <= i < |after| ==> FreshRow(after[i], os))
      && (forall event, day :: Claimed(after, event, day) <==>
            Claimed(rows, event, day) || exists o :: o in os && !o.cancelled && o.id == event && o.day == day)
  {
    if os != [] {
      var front, last := os[..|os| - 1], os[|os| - 1];
      ClaimsAreExact(rows, front);
      var before, after := ClaimAll(rows, front), ClaimAll(rows, os);
      assert os == front + [last];
      forall i | |rows| <= i < |after| ensures FreshRow(after[i], os) {
        if i < |before| {
          assert after[i] == before[i] && FreshRow(before[i], front);
          var o :| o in front && !o.cancelled && before[i] == Row(o.id, o.day, o.startsAt, Pending, 0);
          assert o in os;
        } else {
          assert last in os;
        }
      }
      forall event, day ensures Claimed(after, event, day) <==>
          Claimed(rows, event, day) || exists o :: o in os && !o.cancelled && o.id == event && o.day == day {
        ClaimOne(before, last, event, day);
      }
    }
  }

  lemma ClaimOne(rows: seq<Row>, o: Occurrence, event: nat, day: int)
    ensures Claimed(Claim(rows, o), event, day) <==>
            Claimed(rows, event, day) || (!o.cancelled && o.id == event && o.day == day)
  {
    var after := Claim(rows, o);
    if i :| 0 <= i < |rows| && rows[i].event == event && rows[i].day == day { assert after[i] == rows[i]; }
    if !o.cancelled && !Claimed(rows, o.id, o.day) { assert after[|rows|] == Row(o.id, o.day, o.startsAt, Pending, 0); }
  }

  // ------------------------------------------------------------- dispatching

  function StartAt(rows: seq<Row>, i: nat): int {
    if i < |rows| then rows[i].startsAt else 0
  }

  /** pending_class_reminders: the pending rows by recorded start. */
  function PendingIds(rows: seq<Row>): (ids: seq<nat>)
    ensures forall i :: i in ids <==> 0 <= i < |rows| && rows[i].state == Pending
    ensures forall k :: 0 <= k < |ids| ==> ids[k] < |rows|
    ensures Sorting.NoDuplicates(ids)
    ensures forall k, l :: 0 <= k < l < |ids| ==> StartAt(rows, ids[k]) <= StartAt(rows, ids[l])
  {
    Sorting.SelectBy(rows, (r: Row) => r.state == Pending, (i: nat) => StartAt(rows, i))
  }

  datatype Outcome = Delivered | Retry | Expired | NotConfigured

  function Judge(r: Row, now: int, providers: nat, delivered: bool): Outcome {
    if r.startsAt <= now then Expired
    else if providers == 0 then NotConfigured else if delivered then Delivered else Retry
  }

  /** One pending row: expired once its class has started, else sent to every provider. */
  function SendOne(t: Table, i: nat, now: int, providers: nat, answer: (nat, nat) -> bool): Table
    requires i < |t.rows|
  {
    var r, delivered := t.rows[i], Accepted(answer, i, providers);
    match Judge(r, now, providers, delivered)
    case Expired => t.(rows := t.rows[i := r.(state := Failed, attempts := r.attempts + 1)])
    case NotConfigured => t
    case Delivered =>
      Table(t.rows[i := r.(state := Sent, attempts := r.attempts + 1)], t.rounds + [Round(i, now, true)])
    case Retry => Table(t.rows[i := r.(attempts := r.attempts + 1)], t.rounds + [Round(i, now, false)])
  }

  /** Some provider took it; every provider is tried. */
  predicate Accepted(answer: (nat, nat) -> bool, i: nat, providers: nat) {
    exists p: nat :: p < providers && answer(i, p)
  }

  function SendEach(t: Table, ids: seq<nat>, now: int, providers: nat, answer: (nat, nat) -> bool): (after: Table)
    requires forall k :: 0 <= k < |ids| ==> ids[k] < |t.rows|
    ensures |after.rows| == |t.rows|
  {
    if ids == [] then t
    else SendOne(SendEach(t, ids[..|ids| - 1], now, providers, answer), ids[|ids| - 1], now, providers, answer)
  }

  function Dispatch(t: Table, now: int, providers: nat, answer: (nat, nat) -> bool): Table
  {
    SendEach(t, PendingIds(t.rows), now, providers, answer)
  }

  datatype Summary = Summary(scheduled: nat, sent: nat, retrying: nat, expired: nat, skipped: nat)

  function Count(s: Summary, o: Outcome): Summary {
    match o
    case Delivered => s.(sent := s.sent + 1)
    case Retry => s.(retrying := s.retrying + 1)
    case Expired => s.(expired := s.expired + 1)
    case NotConfigured => s.(skipped := s.skipped + 1)
  }

  function Tally(rows: seq<Row>, ids: seq<nat>, now: int, providers: nat, answer: (nat, nat) -> bool): Summary
    requires forall k :: 0 <= k < |ids| ==> ids[k] < |rows|
  {
    if ids == [] then Summary(0, 0, 0, 0, 0)
    else
      var i := ids[|ids| - 1];
      Count(Tally(rows, ids[..|ids| - 1], now, providers, answer),
            Judge(rows[i], now, providers, Accepted(answer, i, providers)))
  }

  // -------------------------------------------------------------- invariants

  function Deliveries(rounds: seq<Round>, i: nat): nat {
    if rounds == [] then 0
    else Deliveries(rounds[..|rounds| - 1], i)
         + if rounds[|rounds| - 1].row == i && rounds[|rounds| - 1].delivered then 1 else 0
  }

  /** Rows are claimed once; a row was delivered once if it is SENT and never otherwise; every attempt was made before
      the start recorded for its row. */
  predicate Sound(t: Table) {
    && UniqueRows(t.rows)
    && (forall i :: 0 <= i < |t.rows| ==> Deliveries(t.rounds, i) == if t.rows[i].state == Sent then 1 else 0)
    && (forall k :: 0 <= k < |t.rounds| ==>
          t.rounds[k].row < |t.rows| && t.rounds[k].at < t.rows[t.rounds[k].row].startsAt)
  }

  lemma RoundAdds(rounds: seq<Round>, r: Round, i: nat)
    ensures Deliveries(rounds + [r], i) == Deliveries(rounds, i) + if r.row == i && r.delivered then 1 else 0
  {
    assert (rounds + [r])[..|rounds|] == rounds;
  }

  lemma {:induction false} NoRoundsYet(rounds: seq<Round>, i: nat)
    requires forall k :: 0 <= k < |rounds| ==> rounds[k].row != i
    ensures Deliveries(rounds, i) == 0
  {
    if rounds != [] { NoRoundsYet(rounds[..|rounds| - 1], i); }
  }

  /** A round before the row's start, after which the row is SENT exactly if it was delivered. */
  lemma RoundKeepsSound(t: Table, i: nat, r: Row, round: Round)
    requires Sound(t) && i < |t.rows| && t.rows[i].state == Pending
    requires r.event == t.rows[i].event && r.day == t.rows[i].day && r.startsAt == t.rows[i].startsAt
    requires round.row == i && round.at < r.startsAt && (r.state == Sent <==> round.delivered)
    ensures Sound(Table(t.rows[i := r], t.rounds + [round]))
  {
    forall j | 0 <= j < |t.rows|
      ensures Deliveries(t.rounds + [round], j) == if t.rows[i := r][j].state == Sent then 1 else 0
    {
      RoundAdds(t.rounds, round, j);
    }
  }

  lemma FailingKeepsSound(t: Table, i: nat, attempts: nat)
    requires Sound(t) && i < |t.rows| && t.rows[i].state == Pending
    ensures Sound(t.(rows := t.rows[i := t.rows[i].(state := Failed, attempts := attempts)]))
  {
  }

  lemma AnsweredKeepsSound(t: Table, i: nat, r: Row, now: int, delivered: bool, after: Table)
    requires Sound(t) && i < |t.rows| && t.rows[i].state == Pending && now < t.rows[i].startsAt
    requires r == t.rows[i].(state := if delivered then Sent else Pending, attempts := r.attempts)
    requires after == Table(t.rows[i := r], t.rounds + [Round(i, now, delivered)])
    ensures Sound(after)
  {
    RoundKeepsSound(t, i, r, Round(i, now, delivered));
  }

  lemma SendOneKeepsSound(t: Table, i: nat, now: int, providers: nat, answer: (nat, nat) -> bool)
    requires Sound(t) && i < |t.rows| && t.rows[i].state == Pending
    ensures Sound(SendOne(t, i, now, providers, answer))
  {
    var r, delivered := t.rows[i], Accepted(answer, i, providers);
    match Judge(r, now, providers, delivered)
    case Expired => FailingKeepsSound(t, i, r.attempts + 1);
    case NotConfigured =>
    case Delivered =>
      AnsweredKeepsSound(t, i, r.(state := Sent, attempts := r.attempts + 1), now, true,
                         SendOne(t, i, now, providers, answer));
    case Retry =>
      AnsweredKeepsSound(t, i, r.(attempts := r.attempts + 1), now, false, SendOne(t, i, now, providers, answer));
  }

  /** A pass leaves alone the rows it has not come to. */
  lemma {:induction false} SendEachLeaves(t: Table, ids: seq<nat>, now: int, providers: nat, answer: (nat, nat) -> bool,
                                          i: nat)
    requires i < |t.rows| && i !in ids && forall k :: 0 <= k < |ids| ==> ids[k] < |t.rows|
    ensures SendEach(t, ids, now, providers, answer).rows[i] == t.rows[i]
  {
    if ids != [] {
      SendEachLeaves(t, ids[..|ids| - 1], now, providers, answer, i);
      assert ids[|ids| - 1] in ids;
    }
  }

  lemma {:induction false} SendEachKeepsSound(t: Table, ids: seq<nat>, now: int, providers: nat,
                                              answer: (nat, nat) -> bool)
    requires Sound(t) && Sorting.NoDuplicates(ids)
    requires forall k :: 0 <= k < |ids| ==> ids[k] < |t.rows| && t.rows[ids[k]].state == Pending
    ensures Sound(SendEach(t, ids, now, providers, answer))
  {
    if ids != [] {
      var front, last := ids[..|ids| - 1], ids[|ids| - 1];
      SendEachKeepsSound(t, front, now, providers, answer);
      SendEachLeaves(t, front, now, providers, answer, last);
      SendOneKeepsSound(SendEach(t, front, now, providers, answer), last, now, providers, answer);
    }
  }

  lemma DispatchKeepsSound(t: Table, now: int, providers: nat, answer: (nat, nat) -> bool)
    requires Sound(t)
    ensures Sound(Dispatch(t, now, providers, answer))
  {
    var ids := PendingIds(t.rows);
    assert forall k :: 0 <= k < |ids| ==> ids[k] in ids;
    SendEachKeepsSound(t, ids, now, providers, answer);
  }

  lemma ExpireKeepsSound(t: Table, now: int)
    requires Sound(t)
    ensures Sound(t.(rows := Expire(t.rows, now)))
  {
  }

  lemma ClaimKeepsSound(t: Table, os: seq<Occurrence>)
    requires Sound(t)
    ensures Sound(t.(rows := ClaimAll(t.rows, os)))
  {
    ClaimsAreExact(t.rows, os);
    var after := ClaimAll(t.rows, os);
    forall i | |t.rows| <= i < |after| ensures Deliveries(t.rounds, i) == 0 && after[i].state == Pending {
      NoRoundsYet(t.rounds, i);
      assert FreshRow(after[i], os);
    }
  }

  // ---------------------------------------------------------------- one pass

  /** The meetings starting within the lookahead, in order. */
  function Upcoming(z: Zone, classes: seq<WeeklyClass>, now: int): seq<Occurrence>
    requires forall i :: 0 <= i < |classes| ==> Readable(classes[i])
  {
    Sorting.Sort(MeetingsOfAll(z, classes, now, now + LOOKAHEAD), Earlier)
  }

  predicate AllReadable(classes: seq<WeeklyClass>) {
    forall i :: 0 <= i < |classes| ==> Readable(classes[i])
  }

  function Prepared(t: Table, z: Zone, classes: seq<WeeklyClass>, now: int): Table
    requires AllReadable(classes)
  {
    t.(rows := ClaimAll(Expire(t.rows, now), Upcoming(z, classes, now)))
  }

  /** run_class_reminders: expire, claim, deliver; an unreadable class time ends the pass after the first stage. */
  function Pass(t: Table, z: Zone, classes: seq<WeeklyClass>, now: int, providers: nat,
                answer: (nat, nat) -> bool): Table
  {
    if AllReadable(classes) then Dispatch(Prepared(t, z, classes, now), now, providers, answer)
    else t.(rows := Expire(t.rows, now))
  }

  /** The summary of a whole pass: what expired in either stage, what was newly claimed, and what came of the sends. */
  function Report(t: Table, z: Zone, classes: seq<WeeklyClass>, now: int, providers: nat, answer: (nat, nat) -> bool)
    : Summary
    requires AllReadable(classes)
  {
    var p := Prepared(t, z, classes, now);
    var sent := Tally(p.rows, PendingIds(p.rows), now, providers, answer);
    sent.(scheduled := |p.rows| - |t.rows|, expired := StaleCount(t.rows, now) + sent.expired)
  }

  lemma PassKeepsSound(t: Table, z: Zone, classes: seq<WeeklyClass>, now: int, providers: nat,
                       answer: (nat, nat) -> bool)
    requires Sound(t)
    ensures Sound(Pass(t, z, classes, now, providers, answer))
  {
    ExpireKeepsSound(t, now);
    if AllReadable(classes) {
      ClaimKeepsSound(t.(rows := Expire(t.rows, now)), Upcoming(z, classes, now));
      DispatchKeepsSound(Prepared(t, z, classes, now), now, providers, answer);
    }
  }

  lemma {:induction false} MeetingsInWindow(z: Zone, classes: seq<WeeklyClass>, from: int, until: int, o: Occurrence)
    requires AllReadable(classes) && o in MeetingsOfAll(z, classes, from, until)
    ensures from <= o.startsAt <= until
  {
    var front, c := classes[..|classes| - 1], classes[|classes| - 1];
    if o in MeetingsOfAll(z, front, from, until) {
      MeetingsInWindow(z, front, from, until, o);
    } else {
      MeetingsAreExact(z, c, FirstDay(z, from), LastDay(z, until) + 1, from, until);
    }
  }

  /** Within one pass the delivery stage meets no class that has already started before now: the only rows it expires
      itself start exactly at now. */
  lemma OnlyStartingNowExpires(t: Table, z: Zone, classes: seq<WeeklyClass>, now: int)
    requires AllReadable(classes) && Sound(t)
    ensures var p := Prepared(t, z, classes, now);
      forall i :: 0 <= i < |p.rows| && p.rows[i].state == Pending ==>
        now <= p.rows[i].startsAt
        && (forall providers: nat, delivered: bool :: Judge(p.rows[i], now, providers, delivered) == Expired <==>
              p.rows[i].startsAt == now)
  {
    var expired, os := Expire(t.rows, now), Upcoming(z, classes, now);
    ExpireKeepsSound(t, now);
    ClaimsAreExact(expired, os);
    var rows := ClaimAll(expired, os);
    forall i | 0 <= i < |rows| && rows[i].state == Pending ensures now <= rows[i].startsAt {
      if i < |expired| {
        assert rows[i] == expired[i];
      } else {
        assert FreshRow(rows[i], os);
        var o :| o in os && !o.cancelled && rows[i] == Row(o.id, o.day, o.startsAt, Pending, 0);
        Sorting.SortPermutes(MeetingsOfAll(z, classes, now, now + LOOKAHEAD), Earlier);
        MeetingsInWindow(z, classes, now, now + LOOKAHEAD, o);
      }
    }
  }

  /** A pass claims a meeting exactly when it starts within the lookahead, is not cancelled in the present timetable
      and was not claimed before. */
  lemma PassClaimsExactly(t: Table, z: Zone, classes: seq<WeeklyClass>, now: int, providers: nat,
                          answer: (nat, nat) -> bool, event: nat, day: int)
    requires AllReadable(classes) && Sound(t)
    ensures Claimed(Pass(t, z, classes, now, providers, answer).rows, event, day) <==>
            Claimed(t.rows, event, day)
            || exists o :: o in MeetingsOfAll(z, classes, now, now + 45 * MINUTE) && !o.cancelled
                 && o.id == event && o.day == day
  {
    var expired, os := Expire(t.rows, now), Upcoming(z, classes, now);
    ExpireKeepsSound(t, now);
    ClaimsAreExact(expired, os);
    SameKeysClaimed(t.rows, expired, event, day);
    Sorting.SortPermutes(MeetingsOfAll(z, classes, now, now + LOOKAHEAD), Earlier);
    var p := Prepared(t, z, classes, now);
    SendEachKeepsKeys(p, PendingIds(p.rows), now, providers, answer);
    SameKeysClaimed(p.rows, Dispatch(p, now, providers, answer).rows, event, day);
  }

  predicate SameKeys(a: seq<Row>, b: seq<Row>) {
    |a| == |b| && forall i :: 0 <= i < |a| ==> a[i].event == b[i].event && a[i].day == b[i].day
  }

  lemma SameKeysClaimed(a: seq<Row>, b: seq<Row>, event: nat, day: int)
    requires SameKeys(a, b)
    ensures Claimed(a, event, day) <==> Claimed(b, event, day)
  {
    if i :| 0 <= i < |a| && a[i].event == event && a[i].day == day { assert b[i].event == event; }
    if i :| 0 <= i < |b| && b[i].event == event && b[i].day == day { assert a[i].event == event; }
  }

  lemma {:induction false} SendEachKeepsKeys(t: Table, ids: seq<nat>, now: int, providers: nat,
                                             answer: (nat, nat) -> bool)
    requires forall k :: 0 <= k < |ids| ==> ids[k] < |t.rows|
    ensures SameKeys(t.rows, SendEach(t, ids, now, providers, answer).rows)
  {
    if ids != [] { SendEachKeepsKeys(t, ids[..|ids| - 1], now, providers, answer); }
  }

  /** Every pending row is counted once. */
  lemma {:induction false} TallyAddsUp(rows: seq<Row>, ids: seq<nat>, now: int, providers: nat,
                                       answer: (nat, nat) -> bool)
    requires forall k :: 0 <= k < |ids| ==> ids[k] < |rows|
    ensures var s := Tally(rows, ids, now, providers, answer);
      s.scheduled == 0 && s.sent + s.retrying + s.expired + s.skipped == |ids|
  {
    if ids != [] { TallyAddsUp(rows, ids[..|ids| - 1], now, providers, answer); }
  }

  // ------------------------------------------------------- what a pass delivers

  /** A row after its attempt. */
  function Attempted(r: Row, o: Outcome): Row {
    match o
    case Expired => r.(state := Failed, attempts := r.attempts + 1)
    case NotConfigured => r
    case Delivered => r.(state := Sent, attempts := r.attempts + 1)
    case Retry => r.(attempts := r.attempts + 1)
  }

  lemma {:induction false} SendEachRow(t: Table, ids: seq<nat>, now: int, providers: nat, answer: (nat, nat) -> bool,
                                       i: nat)
    requires Sorting.NoDuplicates(ids) && forall k :: 0 <= k < |ids| ==> ids[k] < |t.rows|
    requires i in ids
    ensures i < |t.rows|
    ensures SendEach(t, ids, now, providers, answer).rows[i]
            == Attempted(t.rows[i], Judge(t.rows[i], now, providers, Accepted(answer, i, providers)))
  {
    var front, last := ids[..|ids| - 1], ids[|ids| - 1];
    if i == last {
      assert last !in front;
      SendEachLeaves(t, front, now, providers, answer, i);
    } else {
      assert i in front;
      SendEachRow(t, front, now, providers, answer, i);
    }
  }

  /** The delivery stage gives every pending row the attempt its start and the providers decide, and leaves the others
      alone; the timetable has no say in it. */
  lemma DispatchRow(t: Table, now: int, providers: nat, answer: (nat, nat) -> bool, i: nat)
    requires i < |t.rows|
    ensures Dispatch(t, now, providers, answer).rows[i] ==
            if t.rows[i].state == Pending
            then Attempted(t.rows[i], Judge(t.rows[i], now, providers, Accepted(answer, i, providers)))
            else t.rows[i]
  {
    var ids := PendingIds(t.rows);
    if t.rows[i].state == Pending {
      SendEachRow(t, ids, now, providers, answer, i);
    } else {
      SendEachLeaves(t, ids, now, providers, answer, i);
    }
  }

  /** A pending row whose class is still ahead and which some provider takes. */
  predicate Deliverable(r: Row, i: nat, now: int, providers: nat, answer: (nat, nat) -> bool) {
    r.state == Pending && now < r.startsAt && Accepted(answer, i, providers)
  }

  lemma PreparedRow(t: Table, z: Zone, classes: seq<WeeklyClass>, now: int, i: nat)
    requires AllReadable(classes) && i < |t.rows| && UniqueRows(t.rows)
    ensures i < |Prepared(t, z, classes, now).rows|
    ensures Prepared(t, z, classes, now).rows[i] == ExpireRow(t.rows[i], now)
  {
    ClaimsAreExact(Expire(t.rows, now), Upcoming(z, classes, now));
  }

  /** A row through both stages that concern it. */
  function PassedRow(r: Row, now: int, providers: nat, accepted: bool): Row {
    var e := ExpireRow(r, now);
    if e.state == Pending then Attempted(e, Judge(e, now, providers, accepted)) else e
  }

  lemma PassedStates(r: Row, now: int, providers: nat, accepted: bool)
    requires accepted ==> providers > 0
    ensures var after := PassedRow(r, now, providers, accepted);
      && (after.state == Sent <==> r.state == Sent || (r.state == Pending && now < r.startsAt && accepted))
      && (after.state == Failed <==> r.state == Failed || (r.state == Pending && r.startsAt <= now))
      && after.event == r.event && after.day == r.day && after.startsAt == r.startsAt
  {
  }

  /** A row claimed by a pass comes to the delivery stage pending, with the start of a meeting inside the lookahead. */
  lemma ClaimedRow(t: Table, z: Zone, classes: seq<WeeklyClass>, now: int, i: nat)
    requires AllReadable(classes) && UniqueRows(t.rows) && |t.rows| <= i < |Prepared(t, z, classes, now).rows|
    ensures FreshRow(Prepared(t, z, classes, now).rows[i], Upcoming(z, classes, now))
    ensures now <= Prepared(t, z, classes, now).rows[i].startsAt <= now + LOOKAHEAD
  {
    var os, r := Upcoming(z, classes, now), Prepared(t, z, classes, now).rows[i];
    ClaimsAreExact(Expire(t.rows, now), os);
    assert FreshRow(r, os);
    var o :| o in os && !o.cancelled && r == Row(o.id, o.day, o.startsAt, Pending, 0);
    Sorting.SortPermutes(MeetingsOfAll(z, classes, now, now + LOOKAHEAD), Earlier);
    MeetingsInWindow(z, classes, now, now + LOOKAHEAD, o);
  }

  /** What the pass makes of a row that was there before. */
  predicate OldRowPassed(r: Row, after: Row, i: nat, readable: bool, now: int, providers: nat,
                         answer: (nat, nat) -> bool) {
    && (after.state == Sent <==> r.state == Sent || (readable && Deliverable(r, i, now, providers, answer)))
    && (after.state == Failed <==> r.state == Failed || (r.state == Pending && r.startsAt <= now))
    && after.event == r.event && after.day == r.day && after.startsAt == r.startsAt
  }

  /** What becomes of a row claimed in the pass: it is a meeting of the lookahead that is not cancelled, announced at
      once if some provider takes it, given up if it starts this very moment, and otherwise left for the next pass. */
  predicate NewRowPassed(os: seq<Occurrence>, after: Row, i: nat, now: int, providers: nat,
                         answer: (nat, nat) -> bool) {
    && FreshRow(after.(state := Pending, attempts := 0), os)
    && now <= after.startsAt <= now + 45 * MINUTE
    && (after.state == Sent <==> now < after.startsAt && Accepted(answer, i, providers))
    && (after.state == Failed <==> after.startsAt == now)
  }

  lemma PassOldRow(t: Table, z: Zone, classes: seq<WeeklyClass>, now: int, providers: nat,
                   answer: (nat, nat) -> bool, i: nat)
    requires AllReadable(classes) && UniqueRows(t.rows) && i < |t.rows|
    ensures var rows := Dispatch(Prepared(t, z, classes, now), now, providers, answer).rows;
      i < |rows| && OldRowPassed(t.rows[i], rows[i], i, true, now, providers, answer)
  {
    PreparedRow(t, z, classes, now, i);
    DispatchRow(Prepared(t, z, classes, now), now, providers, answer, i);
    PassedStates(t.rows[i], now, providers, Accepted(answer, i, providers));
  }

  lemma PassNewRow(t: Table, z: Zone, classes: seq<WeeklyClass>, now: int, providers: nat,
                   answer: (nat, nat) -> bool, i: nat)
    requires AllReadable(classes) && UniqueRows(t.rows) && |t.rows| <= i < |Prepared(t, z, classes, now).rows|
    ensures var rows := Dispatch(Prepared(t, z, classes, now), now, providers, answer).rows;
      i < |rows| && NewRowPassed(Upcoming(z, classes, now), rows[i], i, now, providers, answer)
  {
    ClaimedRow(t, z, classes, now, i);
    DispatchRow(Prepared(t, z, classes, now), now, providers, answer, i);
    PassedStates(Prepared(t, z, classes, now).rows[i], now, providers, Accepted(answer, i, providers));
  }

  /** What a whole pass makes of every row. One that was there before fails once its class has started, and is SENT
      afterwards exactly if it was before or is deliverable - whatever the timetable says of its class; only a pass over
      a readable timetable claims, and a row it claims is delivered by the same rule. */
  lemma PassRow(t: Table, z: Zone, classes: seq<WeeklyClass>, now: int, providers: nat,
                answer: (nat, nat) -> bool, i: nat)
    requires UniqueRows(t.rows) && (i < |t.rows| || i < |Pass(t, z, classes, now, providers, answer).rows|)
    ensures var after := Pass(t, z, classes, now, providers, answer);
      && i < |after.rows|
      && (i < |t.rows| ==> OldRowPassed(t.rows[i], after.rows[i], i, AllReadable(classes), now, providers, answer))
      && (i >= |t.rows| ==>
            && AllReadable(classes)
            && NewRowPassed(Upcoming(z, classes, now), after.rows[i], i, now, providers, answer))
  {
    if AllReadable(classes) {
      var p := Prepared(t, z, classes, now);
      SendEachKeepsKeys(p, PendingIds(p.rows), now, providers, answer);
      if i < |t.rows| {
        PassOldRow(t, z, classes, now, providers, answer, i);
      } else {
        PassNewRow(t, z, classes, now, providers, answer, i);
      }
    }
  }

  predicate UniqueClasses(classes: seq<WeeklyClass>) {
    forall i, j :: 0 <= i < j < |classes| ==> classes[i].id != classes[j].id
  }

  predicate CancelledClass(classes: seq<WeeklyClass>, event: nat) {
    exists k :: 0 <= k < |classes| && classes[k].id == event && classes[k].cancelled
  }

  /** A row the pass turned SENT. */
  predicate NewlySent(t: Table, after: Table, i: nat) {
    i < |after.rows| && after.rows[i].state == Sent && !(i < |t.rows| && t.rows[i].state == Sent)
  }

  lemma {:induction false} MeetingsHaveClass(z: Zone, classes: seq<WeeklyClass>, from: int, until: int, o: Occurrence)
    returns (k: nat)
    requires AllReadable(classes) && o in MeetingsOfAll(z, classes, from, until)
    ensures k < |classes| && classes[k].id == o.id && classes[k].cancelled == o.cancelled
  {
    var front, c := classes[..|classes| - 1], classes[|classes| - 1];
    if o in MeetingsOfAll(z, front, from, until) {
      k := MeetingsHaveClass(z, front, from, until, o);
    } else {
      MeetingsAreExact(z, c, FirstDay(z, from), LastDay(z, until) + 1, from, until);
      k := |classes| - 1;
    }
  }

  /** A row claimed in this very pass is not of a cancelled class. */
  lemma FreshIsNotCancelled(t: Table, z: Zone, classes: seq<WeeklyClass>, now: int, providers: nat,
                            answer: (nat, nat) -> bool, i: nat)
    requires AllReadable(classes) && UniqueRows(t.rows) && UniqueClasses(classes)
    requires |t.rows| <= i < |Pass(t, z, classes, now, providers, answer).rows|
    ensures !CancelledClass(classes, Pass(t, z, classes, now, providers, answer).rows[i].event)
  {
    var p, os := Prepared(t, z, classes, now), Upcoming(z, classes, now);
    ClaimsAreExact(Expire(t.rows, now), os);
    SendEachKeepsKeys(p, PendingIds(p.rows), now, providers, answer);
    assert FreshRow(p.rows[i], os);
    var o :| o in os && !o.cancelled && p.rows[i] == Row(o.id, o.day, o.startsAt, Pending, 0);
    Sorting.SortPermutes(MeetingsOfAll(z, classes, now, now + LOOKAHEAD), Earlier);
    var k := MeetingsHaveClass(z, classes, now, now + LOOKAHEAD, o);
  }

  /** Exactly when a pass announces a class the timetable says is cancelled: when it was claimed before the
      cancellation, is still ahead, and some provider takes it. Only claiming looks at the cancellation. */
  lemma CancelledIsDelivered(t: Table, z: Zone, classes: seq<WeeklyClass>, now: int, providers: nat,
                             answer: (nat, nat) -> bool)
    requires UniqueRows(t.rows) && UniqueClasses(classes)
    ensures var after := Pass(t, z, classes, now, providers, answer);
      (exists i: nat :: NewlySent(t, after, i) && CancelledClass(classes, after.rows[i].event)) <==>
      AllReadable(classes)
      && exists i: nat :: i < |t.rows| && Deliverable(t.rows[i], i, now, providers, answer)
           && CancelledClass(classes, t.rows[i].event)
  {
    var after := Pass(t, z, classes, now, providers, answer);
    forall i: nat | i < |t.rows|
      ensures i < |after.rows| && after.rows[i].event == t.rows[i].event
      ensures NewlySent(t, after, i) <==>
              AllReadable(classes) && Deliverable(t.rows[i], i, now, providers, answer)
    {
      PassRow(t, z, classes, now, providers, answer, i);
    }
    if AllReadable(classes) {
      forall i: nat | |t.rows| <= i < |after.rows| ensures !CancelledClass(classes, after.rows[i].event) {
        FreshIsNotCancelled(t, z, classes, now, providers, answer, i);
      }
    }
  }

  // -------------------------------------------------------------------- runs

  /** A pass over the timetable as it is then. */
  datatype Step = Step(classes: seq<WeeklyClass>, now: int, providers: nat, answer: (nat, nat) -> bool)

  function After(z: Zone, steps: seq<Step>): Table {
    if steps == [] then Table([], [])
    else
      var s := steps[|steps| - 1];
      Pass(After(z, steps[..|steps| - 1]), z, s.classes, s.now, s.providers, s.answer)
  }

  /** Over every run of passes, with any timetables and answers in between: each meeting is claimed at most once,
      delivered at most once, and never at or after its recorded start. */
  lemma {:induction false} EveryRunIsSound(z: Zone, steps: seq<Step>)
    ensures Sound(After(z, steps))
  {
    if steps != [] {
      EveryRunIsSound(z, steps[..|steps| - 1]);
      var s := steps[|steps| - 1];
      PassKeepsSound(After(z, steps[..|steps| - 1]), z, s.classes, s.now, s.providers, s.answer);
    }
  }

  function Silence(): (nat, nat) -> bool {
    (i, p) => false
  }

  function Acceptance(): (nat, nat) -> bool {
    (i, p) => true
  }

  /** Two passes: one that can only claim, for want of a provider, and one after the class was cancelled. */
  function ClaimThenCancel(c: WeeklyClass, now: int, later: int): seq<Step> {
    [Step([c], now, 0, Silence()), Step([c.(cancelled := true)], later, 1, Acceptance())]
  }

  /** The row of a meeting, as it was claimed. */
  predicate RowFor(t: Table, i: nat, o: Occurrence, state: State) {
    i < |t.rows| && t.rows[i].event == o.id && t.rows[i].day == o.day && t.rows[i].startsAt == o.startsAt
    && t.rows[i].state == state
  }

  /** The reminder of that meeting went out. */
  ghost predicate Announced(t: Table, o: Occurrence) {
    exists i: nat :: RowFor(t, i, o, Sent)
  }

  lemma OneClassMeetings(z: Zone, c: WeeklyClass, from: int, until: int, o: Occurrence)
    requires Readable(c) && o in MeetingsOfAll(z, [c], from, until)
    ensures o == Meeting(z, c, o.day)
  {
    assert [c][..0] == [];
    assert MeetingsOfAll(z, [], from, until) == [];
    MeetingsAreExact(z, c, FirstDay(z, from), LastDay(z, until) + 1, from, until);
  }

  lemma ClaimPass(z: Zone, c: WeeklyClass, now: int, o: Occurrence) returns (i: nat)
    requires Readable(c) && !c.cancelled && o in MeetingsOfAll(z, [c], now, now + LOOKAHEAD)
    ensures RowFor(Prepared(Table([], []), z, [c], now), i, o, Pending)
  {
    var os := Upcoming(z, [c], now);
    Sorting.SortPermutes(MeetingsOfAll(z, [c], now, now + LOOKAHEAD), Earlier);
    assert Expire([], now) == [];
    OneClassMeetings(z, c, now, now + LOOKAHEAD, o);
    var q;
    i, q := FirstClaim(os, o);
    OneClassMeetings(z, c, now, now + LOOKAHEAD, q);
  }

  lemma FirstClaim(os: seq<Occurrence>, o: Occurrence) returns (i: nat, q: Occurrence)
    requires o in os && !o.cancelled
    ensures var rows := ClaimAll([], os);
      && i < |rows| && rows[i] == Row(q.id, q.day, q.startsAt, Pending, 0)
      && q in os && q.id == o.id && q.day == o.day
  {
    ClaimsAreExact([], os);
    var rows := ClaimAll([], os);
    assert Claimed(rows, o.id, o.day);
    i :| 0 <= i < |rows| && rows[i].event == o.id && rows[i].day == o.day;
    assert FreshRow(rows[i], os);
    q :| q in os && !q.cancelled && rows[i] == Row(q.id, q.day, q.startsAt, Pending, 0);
  }

  lemma NoProviderKeepsRow(t: Table, now: int, o: Occurrence, i: nat)
    requires RowFor(t, i, o, Pending) && now < o.startsAt
    ensures RowFor(Dispatch(t, now, 0, Silence()), i, o, Pending)
  {
    DispatchRow(t, now, 0, Silence(), i);
  }

  lemma LastPassSends(t: Table, z: Zone, c: WeeklyClass, later: int, o: Occurrence, i: nat)
    requires Readable(c) && RowFor(t, i, o, Pending) && later < o.startsAt && UniqueRows(t.rows)
    ensures RowFor(Pass(t, z, [c], later, 1, Acceptance()), i, o, Sent)
  {
    assert Acceptance()(i, 0);
    PassRow(t, z, [c], later, 1, Acceptance(), i);
  }

  lemma TwoPasses(z: Zone, a: Step, b: Step)
    ensures After(z, [a]) == Pass(Table([], []), z, a.classes, a.now, a.providers, a.answer)
    ensures After(z, [a, b]) == Pass(After(z, [a]), z, b.classes, b.now, b.providers, b.answer)
  {
    assert [a][..0] == [] && [a, b][..1] == [a];
  }

  /** Every meeting claimed before its class was cancelled is announced all the same, if a pass runs before it
      starts. */
  lemma CancelledClassIsAnnounced(z: Zone, c: WeeklyClass, now: int, later: int, o: Occurrence)
    requires Readable(c) && !c.cancelled && o in MeetingsOfAll(z, [c], now, now + LOOKAHEAD)
    requires now <= later < o.startsAt
    ensures var steps := ClaimThenCancel(c, now, later);
      && CancelledClass(steps[1].classes, o.id)
      && Announced(After(z, steps), o)
  {
    var steps := ClaimThenCancel(c, now, later);
    TwoPasses(z, steps[0], steps[1]);
    EveryRunIsSound(z, [steps[0]]);
    OneClassMeetings(z, c, now, now + LOOKAHEAD, o);
    assert steps[1].classes[0].id == o.id;
    var i := ClaimPass(z, c, now, o);
    NoProviderKeepsRow(Prepared(Table([], []), z, [c], now), now, o, i);
    LastPassSends(After(z, [steps[0]]), z, c.(cancelled := true), later, o, i);
  }

  lemma MeetsAtOffsetZero(z: Zone, c: WeeklyClass, day: int, from: int, until: int)
    requires z.before == 0 && z.after == 0 && Readable(c) && day % 7 == c.dayOfWeek
    requires from <= WallStart(c, day) <= until
    ensures Meeting(z, c, day) in MeetingsOfAll(z, [c], from, until)
    ensures Meeting(z, c, day).startsAt == WallStart(c, day)
  {
    CombinedInstant(z, day, c.start.value);
    ExpansionIsComplete(z, c, from, until, Meeting(z, c, day));
    assert [c][..0] == [] && MeetingsOfAll(z, [], from, until) == [];
  }

  /** A class at ten on Mondays. */
  function MondayAtTen(): WeeklyClass {
    WeeklyClass(7, "DLD", 0, Some(10 * HOUR), Some(11 * HOUR), false)
  }

  lemma AnnouncedAtOffsetZero(z: Zone, c: WeeklyClass, day: int, now: int)
    requires z.before == 0 && z.after == 0 && Readable(c) && !c.cancelled && day % 7 == c.dayOfWeek
    requires now < WallStart(c, day) <= now + LOOKAHEAD
    ensures Announced(After(z, ClaimThenCancel(c, now, now)), Meeting(z, c, day))
  {
    MeetsAtOffsetZero(z, c, day, now, now + LOOKAHEAD);
    CancelledClassIsAnnounced(z, c, now, now, Meeting(z, c, day));
  }

  /** Such a meeting: that class on day zero, seen at half past nine and cancelled at once. */
  lemma CancelledClassExample(now: int)
    requires now == 9 * HOUR + HOUR / 2
    ensures Announced(After(Zone(0, 0, 0), ClaimThenCancel(MondayAtTen(), now, now)),
                      Meeting(Zone(0, 0, 0), MondayAtTen(), 0))
  {
    assert WallStart(MondayAtTen(), 0) == 10 * HOUR;
    AnnouncedAtOffsetZero(Zone(0, 0, 0), MondayAtTen(), 0, now);
  }

  // --------------------------------------------------------------- the table

  class ClassReminderTable {
    var rows: seq<Row>
    ghost var rounds: seq<Round>

    ghost function View(): Table
      reads this
    {
      Table(rows, rounds)
    }

    constructor ()
      ensures View() == Table([], [])
    {
      rows, rounds := [], [];
    }

    method ExpireStale(now: int) returns (expired: nat)
      modifies this`rows
      ensures rows == Expire(old(rows), now)
      ensures expired == StaleCount(old(rows), now)
    {
      expired := 0;
      ghost var start := rows;
      for i := 0 to |rows|
        invariant |rows| == |start|
        invariant forall k :: 0 <= k < |start| ==> rows[k] == if k < i then ExpireRow(start[k], now) else start[k]
        invariant expired == StaleCount(start[..i], now)
      {
        assert start[..i + 1][..i] == start[..i];
        if rows[i].state == Pending && rows[i].startsAt <= now {
          rows := rows[i := rows[i].(state := Failed)];
          expired := expired + 1;
        }
      }
      assert start[..|start|] == start;
    }

    method InsertIfAbsent(o: Occurrence) returns (inserted: bool)
      modifies this`rows
      ensures inserted <==> !Claimed(old(rows), o.id, o.day)
      ensures rows == if inserted then old(rows) + [Row(o.id, o.day, o.startsAt, Pending, 0)] else old(rows)
    {
      inserted := !Claimed(rows, o.id, o.day);
      if inserted { rows := rows + [Row(o.id, o.day, o.startsAt, Pending, 0)]; }
    }

    /** Claim the meetings that are not cancelled, in order. */
    method ClaimEach(os: seq<Occurrence>) returns (claimed: nat)
      modifies this`rows
      ensures rows == ClaimAll(old(rows), os) && claimed == |rows| - |old(rows)|
    {
      claimed := 0;
      for k := 0 to |os|
        invariant rows == ClaimAll(old(rows), os[..k])
        invariant claimed == |rows| - |old(rows)|
      {
        assert os[..k + 1][..k] == os[..k];
        if !os[k].cancelled {
          var inserted := InsertIfAbsent(os[k]);
          if inserted { claimed := claimed + 1; }
        }
      }
      assert os[..|os|] == os;
    }

    /** schedule_class_reminders; negative when a stored class time cannot be read. */
    method ScheduleClassReminders(z: Zone, classes: seq<WeeklyClass>, now: int) returns (claimed: int)
      modifies this`rows
      ensures claimed >= 0 <==> AllReadable(classes)
      ensures claimed < 0 ==> rows == old(rows)
      ensures claimed >= 0 ==>
                rows == ClaimAll(old(rows), Upcoming(z, classes, now)) && claimed == |rows| - |old(rows)|
    {
      var expansion := ExpandOccurrences(z, classes, now, now + LOOKAHEAD);
      if !expansion.Expanded? { return -1; }
      claimed := ClaimEach(expansion.occurrences);
    }

    /** The answers of all providers, every one tried. */
    method AskProviders(i: nat, providers: nat, answer: (nat, nat) -> bool) returns (delivered: bool)
      ensures delivered == Accepted(answer, i, providers)
    {
      delivered := false;
      for p: nat := 0 to providers
        invariant delivered <==> exists q: nat :: q < p && answer(i, q)
      {
        if answer(i, p) { delivered := true; }
      }
    }

    method SendRow(i: nat, now: int, providers: nat, answer: (nat, nat) -> bool) returns (outcome: Outcome)
      requires i < |rows|
      modifies this
      ensures View() == SendOne(old(View()), i, now, providers, answer)
      ensures outcome == Judge(old(rows)[i], now, providers, Accepted(answer, i, providers))
    {
      var r := rows[i];
      if r.startsAt <= now {
        rows := rows[i := r.(state := Failed, attempts := r.attempts + 1)];
        return Expired;
      }
      if providers == 0 { return NotConfigured; }
      var delivered := AskProviders(i, providers, answer);
      rounds := rounds + [Round(i, now, delivered)];
      if delivered {
        rows := rows[i := r.(state := Sent, attempts := r.attempts + 1)];
        return Delivered;
      }
      rows := rows[i := r.(attempts := r.attempts + 1)];
      return Retry;
    }

    /** The fetched rows, one by one. */
    method SendRows(ids: seq<nat>, now: int, providers: nat, answer: (nat, nat) -> bool) returns (summary: Summary)
      requires Sorting.NoDuplicates(ids) && forall k :: 0 <= k < |ids| ==> ids[k] < |rows|
      modifies this
      ensures View() == SendEach(old(View()), ids, now, providers, answer)
      ensures summary == Tally(old(rows), ids, now, providers, answer)
    {
      ghost var start := View();
      summary := Summary(0, 0, 0, 0, 0);
      for k := 0 to |ids|
        invariant View() == SendEach(start, ids[..k], now, providers, answer)
        invariant summary == Tally(start.rows, ids[..k], now, providers, answer)
      {
        assert ids[..k + 1][..k] == ids[..k];
        assert ids[k] !in ids[..k];
        SendEachLeaves(start, ids[..k], now, providers, answer, ids[k]);
        var outcome := SendRow(ids[k], now, providers, answer);
        summary := Count(summary, outcome);
      }
      assert ids[..|ids|] == ids;
    }

    /** dispatch_class_reminders. */
    method DispatchClassReminders(now: int, providers: nat, answer: (nat, nat) -> bool) returns (summary: Summary)
      modifies this
      ensures View() == Dispatch(old(View()), now, providers, answer)
      ensures summary == Tally(old(rows), PendingIds(old(rows)), now, providers, answer)
    {
      var ids := PendingIds(rows);
      summary := SendRows(ids, now, providers, answer);
    }

    /** run_class_reminders; false when a stored class time cannot be read. */
    method RunClassReminders(z: Zone, classes: seq<WeeklyClass>, now: int, providers: nat, answer: (nat, nat) -> bool)
      returns (finished: bool, summary: Summary)
      modifies this
      ensures View() == Pass(old(View()), z, classes, now, providers, answer)
      ensures finished <==> AllReadable(classes)
      ensures finished ==> summary == Report(old(View()), z, classes, now, providers, answer)
    {
      summary := Summary(0, 0, 0, 0, 0);
      var expired := ExpireStale(now);
      var claimed := ScheduleClassReminders(z, classes, now);
      if claimed < 0 { return false, summary; }
      var sent := DispatchClassReminders(now, providers, answer);
      return true, sent.(scheduled := claimed, expired := expired + sent.expired);
    }
  }
}
