/** Sending due reminders with bounded retry (ragra/reminders/dispatch.py). */
module Dispatch {
  import opened Text
  import opened Instants
  import opened ReminderPlan
  import opened Records
  import opened Repo
  import Sorting

  const GRACE: int := 30 * MINUTE

  /** The clause of due_pending_reminders for one row. */
  predicate Due(db: Db, r: Reminder, now: Instant) {
    && r.state == Pending && r.scheduledFor <= now && (r.nextRetry.None? || r.nextRetry.value <= now)
    && r.key.task < |db.tasks|
    && var task := db.tasks[r.key.task];
       && (!Closed(task.status) || (r.key.kind == DeadlineReached && task.status == Missed))
       && (r.key.kind == DeadlineReached ==> r.scheduledFor >= now - GRACE)
       && task.course < |db.courses| && Live(db.courses[task.course].state)
       && !(task.relevance.Judged? && task.relevance.decision == OtherSection)
  }

  function ScheduledFor(rs: seq<Reminder>, i: nat): int {
    if i < |rs| then rs[i].scheduledFor else 0
  }

  /** The due rows in order of their scheduled time. */
  function DueIds(db: Db, now: Instant): (ids: seq<nat>)
    ensures forall i :: i in ids <==> 0 <= i < |db.reminders| && Due(db, db.reminders[i], now)
    ensures forall k :: 0 <= k < |ids| ==> ids[k] < |db.reminders|
    ensures Sorting.NoDuplicates(ids)
    ensures forall k, l :: 0 <= k < l < |ids| ==>
              ScheduledFor(db.reminders, ids[k]) <= ScheduledFor(db.reminders, ids[l])
  {
    Sorting.SelectBy(db.reminders, (r: Reminder) => Due(db, r, now), (i: nat) => ScheduledFor(db.reminders, i))
  }

  datatype Outcome = SentNow | RetryLater | GaveUp | NotConfigured

  /** What one round makes of a reminder. */
  function Judge(r: Reminder, providers: nat, delivered: bool): Outcome {
    if providers == 0 then NotConfigured
    else if delivered then SentNow
    else if r.attempts + 1 >= MAX_ATTEMPTS then GaveUp
    else RetryLater
  }

  function Attempted(r: Reminder, outcome: Outcome, now: Instant): Reminder {
    match outcome
    case SentNow => r.(state := Sent, sentAt := Some(now))
    case GaveUp => r.(state := Failed, attempts := r.attempts + 1)
    case RetryLater => r.(attempts := r.attempts + 1, nextRetry := Some(now + RETRY_DELAY))
    case NotConfigured => r
  }

  /** The answers of all providers for one reminder; every provider is tried. */
  function Answers(answer: (nat, nat) -> bool, reminder: nat, providers: nat): seq<bool> {
    seq(providers, p requires 0 <= p < providers => answer(reminder, p))
  }

  function OutcomeOf(db: Db, i: nat, providers: nat, answer: (nat, nat) -> bool): Outcome
    requires i < |db.reminders|
  {
    Judge(db.reminders[i], providers, true in Answers(answer, i, providers))
  }

  /** The rounds of a pass over the given reminders. */
  function Pass(ids: seq<nat>, now: Instant, providers: nat, answer: (nat, nat) -> bool): seq<Round> {
    if providers == 0 then []
    else seq(|ids|, k requires 0 <= k < |ids| => Round(ids[k], now, Answers(answer, ids[k], providers)))
  }

  /** The rows and rounds after a pass over the given reminders. */
  function DispatchFirst(db: Db, ids: seq<nat>, now: Instant, providers: nat, answer: (nat, nat) -> bool): Db
    requires forall k :: 0 <= k < |ids| ==> ids[k] < |db.reminders|
  {
    db.(reminders := SentRows(db, ids, now, providers, answer), rounds := db.rounds + Pass(ids, now, providers, answer))
  }

  /** Every listed row as its round leaves it. */
  function SentRows(db: Db, ids: seq<nat>, now: Instant, providers: nat, answer: (nat, nat) -> bool)
    : (rows: seq<Reminder>)
    ensures |rows| == |db.reminders|
  {
    seq(|db.reminders|, i requires 0 <= i < |db.reminders| =>
      if i in ids then Attempted(db.reminders[i], OutcomeOf(db, i, providers, answer), now) else db.reminders[i])
  }

  /** dispatch_due_reminders: one round for every due reminder. */
  function SendDue(db: Db, now: Instant, providers: nat, answer: (nat, nat) -> bool): Db {
    DispatchFirst(db, DueIds(db, now), now, providers, answer)
  }

  // ----------------------------------------------------------------- summary

  datatype Summary = Summary(sent: nat, retrying: nat, failed: nat, skipped: nat)

  function Count(s: Summary, outcome: Outcome): Summary {
    match outcome
    case SentNow => s.(sent := s.sent + 1)
    case RetryLater => s.(retrying := s.retrying + 1)
    case GaveUp => s.(failed := s.failed + 1)
    case NotConfigured => s.(skipped := s.skipped + 1)
  }

  function Tally(db: Db, ids: seq<nat>, providers: nat, answer: (nat, nat) -> bool): Summary
    requires forall k :: 0 <= k < |ids| ==> ids[k] < |db.reminders|
  {
    if ids == [] then Summary(0, 0, 0, 0)
    else Count(Tally(db, ids[..|ids| - 1], providers, answer), OutcomeOf(db, ids[|ids| - 1], providers, answer))
  }

  /** Every due reminder is counted once. */
  lemma {:induction false} TallyAddsUp(db: Db, ids: seq<nat>, providers: nat, answer: (nat, nat) -> bool)
    requires forall k :: 0 <= k < |ids| ==> ids[k] < |db.reminders|
    ensures var s := Tally(db, ids, providers, answer); s.sent + s.retrying + s.failed + s.skipped == |ids|
    ensures providers == 0 ==> Tally(db, ids, providers, answer) == Summary(0, 0, 0, |ids|)
  {
    if ids != [] { TallyAddsUp(db, ids[..|ids| - 1], providers, answer); }
  }

  // ---------------------------------------------------------- bookkeeping

  lemma {:induction false} RoundsOfConcat(a: seq<Round>, b: seq<Round>, j: nat)
    ensures RoundsOf(a + b, j) == RoundsOf(a, j) + RoundsOf(b, j)
  {
    if b == [] {
      assert a + b == a;
    } else {
      var last := b[|b| - 1];
      assert (a + b)[..|a + b| - 1] == a + b[..|b| - 1];
      RoundsOfConcat(a, b[..|b| - 1], j);
    }
  }

  /** In a list of rounds of different reminders each has at most its own. */
  lemma {:induction false} RoundsOfPass(rounds: seq<Round>, j: nat)
    requires forall k, l :: 0 <= k < l < |rounds| ==> rounds[k].reminder != rounds[l].reminder
    ensures (forall k :: 0 <= k < |rounds| ==> rounds[k].reminder != j) ==> RoundsOf(rounds, j) == []
    ensures forall k :: 0 <= k < |rounds| && rounds[k].reminder == j ==> RoundsOf(rounds, j) == [rounds[k]]
  {
    if rounds != [] { RoundsOfPass(rounds[..|rounds| - 1], j); }
  }

  lemma DeliveredAnswers(answers: seq<bool>, reminder: nat, now: Instant)
    ensures Delivered(Round(reminder, now, answers)) <==> true in answers
  {
  }

  /** One more round keeps the row and the delivery record in agreement. */
  lemma RoundKeepsAccounts(db: Db, r: Reminder, rounds: seq<Round>, round: Round, now: Instant, providers: nat)
    requires Accounted(r, rounds) && Due(db, r, now) && round.at == now && providers > 0
    ensures Accounted(Attempted(r, Judge(r, providers, Delivered(round)), now), rounds + [round])
  {
    assert forall k :: 0 <= k < |rounds| ==> (rounds + [round])[k] == rounds[k];
  }

  /** The list holds every due reminder once. */
  ghost predicate AllDue(db: Db, ids: seq<nat>, now: Instant) {
    && (forall k :: 0 <= k < |ids| ==> ids[k] < |db.reminders|)
    && (forall i :: i in ids <==> 0 <= i < |db.reminders| && Due(db, db.reminders[i], now))
    && Sorting.NoDuplicates(ids)
  }

  /** A pass gives every listed reminder one round and leaves the others alone. */
  lemma PassRow(db: Db, ids: seq<nat>, j: nat, now: Instant, providers: nat, answer: (nat, nat) -> bool)
    requires AllDue(db, ids, now) && j < |db.reminders|
    ensures DispatchFirst(db, ids, now, providers, answer).reminders[j] ==
            if Due(db, db.reminders[j], now)
            then Attempted(db.reminders[j], OutcomeOf(db, j, providers, answer), now)
            else db.reminders[j]
  {
    assert j in ids <==> Due(db, db.reminders[j], now);
  }

  lemma PassWithoutProviders(db: Db, ids: seq<nat>, now: Instant, providers: nat, answer: (nat, nat) -> bool)
    requires forall k :: 0 <= k < |ids| ==> ids[k] < |db.reminders|
    requires providers == 0
    ensures DispatchFirst(db, ids, now, providers, answer) == db
  {
    assert DispatchFirst(db, ids, now, providers, answer).reminders == db.reminders;
  }

  lemma PassRound(ids: seq<nat>, j: nat, now: Instant, providers: nat, answer: (nat, nat) -> bool)
    requires Sorting.NoDuplicates(ids) && providers > 0
    ensures RoundsOf(Pass(ids, now, providers, answer), j) ==
            if j in ids then [Round(j, now, Answers(answer, j, providers))] else []
  {
    var pass := Pass(ids, now, providers, answer);
    RoundsOfPass(pass, j);
    if j in ids {
      var k :| 0 <= k < |ids| && ids[k] == j;
      assert pass[k].reminder == j;
    }
  }

  /** The delivery record of a reminder after a pass. */
  lemma PassRounds(db: Db, ids: seq<nat>, j: nat, now: Instant, providers: nat, answer: (nat, nat) -> bool)
    requires AllDue(db, ids, now) && j < |db.reminders| && providers > 0
    ensures RoundsOf(DispatchFirst(db, ids, now, providers, answer).rounds, j) ==
            RoundsOf(db.rounds, j)
            + (if Due(db, db.reminders[j], now) then [Round(j, now, Answers(answer, j, providers))] else [])
  {
    RoundsOfConcat(db.rounds, Pass(ids, now, providers, answer), j);
    PassRound(ids, j, now, providers, answer);
    assert j in ids <==> Due(db, db.reminders[j], now);
  }

  lemma PassAccounts(db: Db, ids: seq<nat>, j: nat, now: Instant, providers: nat, answer: (nat, nat) -> bool)
    requires AllDue(db, ids, now) && j < |db.reminders| && providers > 0
    requires Accounted(db.reminders[j], RoundsOf(db.rounds, j))
    ensures var after := DispatchFirst(db, ids, now, providers, answer);
            Accounted(after.reminders[j], RoundsOf(after.rounds, j))
  {
    var r, rounds := db.reminders[j], RoundsOf(db.rounds, j);
    PassRow(db, ids, j, now, providers, answer);
    PassRounds(db, ids, j, now, providers, answer);
    if Due(db, r, now) {
      var round := Round(j, now, Answers(answer, j, providers));
      DeliveredAnswers(round.answers, j, now);
      RoundKeepsAccounts(db, r, rounds, round, now, providers);
    } else {
      assert rounds + [] == rounds;
    }
  }

  /** A row that goes on, with the same key and not pending again, stays anchored. */
  lemma AttemptAnchors(db: Db, after: Db, r: Reminder, outcome: Outcome, now: Instant)
    requires Anchored(db, r) && r.state == Pending && after.tasks == db.tasks && after.history == db.history
    ensures Anchored(after, Attempted(r, outcome, now))
  {
    if r.key.anchor.ToDeadline? { HeldStays(db, after, r.key.task, r.key.anchor.deadline); }
  }

  lemma PassAnchors(db: Db, ids: seq<nat>, j: nat, now: Instant, providers: nat, answer: (nat, nat) -> bool)
    requires AllDue(db, ids, now) && j < |db.reminders| && Anchored(db, db.reminders[j])
    ensures var after := DispatchFirst(db, ids, now, providers, answer);
            Anchored(after, after.reminders[j]) && after.reminders[j].key == db.reminders[j].key
  {
    PassRow(db, ids, j, now, providers, answer);
    var after := DispatchFirst(db, ids, now, providers, answer);
    if Due(db, db.reminders[j], now) {
      AttemptAnchors(db, after, db.reminders[j], OutcomeOf(db, j, providers, answer), now);
    } else {
      AnchoredStays(db, after, db.reminders[j], after.reminders[j]);
    }
  }

  lemma SoundFrom(db: Db, after: Db)
    requires Sound(db)
    requires after.tasks == db.tasks && after.courses == db.courses && |after.reminders| == |db.reminders|
    requires forall i :: 0 <= i < |after.rounds| ==> after.rounds[i].reminder < |after.reminders|
    requires forall j :: 0 <= j < |after.reminders| ==>
               Anchored(after, after.reminders[j]) && after.reminders[j].key == db.reminders[j].key
    requires forall j :: 0 <= j < |after.reminders| ==> Accounted(after.reminders[j], RoundsOf(after.rounds, j))
    ensures Sound(after)
  {
  }

  lemma PassKeepsSound(db: Db, ids: seq<nat>, now: Instant, providers: nat, answer: (nat, nat) -> bool)
    requires Sound(db) && AllDue(db, ids, now)
    ensures Sound(DispatchFirst(db, ids, now, providers, answer))
  {
    var after := DispatchFirst(db, ids, now, providers, answer);
    if providers == 0 {
      PassWithoutProviders(db, ids, now, providers, answer);
    } else {
      forall j | 0 <= j < |after.reminders|
        ensures Anchored(after, after.reminders[j]) && after.reminders[j].key == db.reminders[j].key
        ensures Accounted(after.reminders[j], RoundsOf(after.rounds, j))
      {
        PassAnchors(db, ids, j, now, providers, answer);
        PassAccounts(db, ids, j, now, providers, answer);
      }
      SoundFrom(db, after);
    }
  }

  // -------------------------------------------------- what a whole pass does

  lemma DispatchKeepsSound(db: Db, now: Instant, providers: nat, answer: (nat, nat) -> bool)
    requires Sound(db)
    ensures Sound(SendDue(db, now, providers, answer))
  {
    PassKeepsSound(db, DueIds(db, now), now, providers, answer);
  }

  /** A pass gives every due reminder one round with the outcome of its answers and changes no other row. */
  lemma DispatchRow(db: Db, j: nat, now: Instant, providers: nat, answer: (nat, nat) -> bool)
    requires j < |db.reminders|
    ensures var after := SendDue(db, now, providers, answer);
            && |after.reminders| == |db.reminders|
            && after.reminders[j] == if Due(db, db.reminders[j], now)
                                     then Attempted(db.reminders[j], OutcomeOf(db, j, providers, answer), now)
                                     else db.reminders[j]
  {
    PassRow(db, DueIds(db, now), j, now, providers, answer);
  }

  /** What is due: a pending reminder whose time has come, with no retry to wait for; its task is open - or missed, for
      the reminder of the deadline - that reminder is at most half an hour old, the course is active or provisioned, and
      the task is not known to be of another section. */
  lemma DueExactly(db: Db, r: Reminder, now: Instant)
    requires r.key.task < |db.tasks| && db.tasks[r.key.task].course < |db.courses|
    ensures
      var task := db.tasks[r.key.task];
      Due(db, r, now) <==>
        && r.state == Pending && r.scheduledFor <= now && (r.nextRetry.Some? ==> r.nextRetry.value <= now)
        && (task.status in {Discovered, ActionRequired, Targeted, Archived}
            || (task.status == Missed && r.key.kind == DeadlineReached))
        && (r.key.kind == DeadlineReached ==> now <= r.scheduledFor + 30 * MINUTE)
        && db.courses[task.course].state in {"ACTIVE", "PROVISIONED"}
        && (task.relevance.Judged? ==> task.relevance.decision != OtherSection)
  {
  }

  /** What a round makes of a row: SENT if some provider takes it; otherwise it is tried again a quarter of an hour
      later, or given up after the third failure. */
  predicate RoundMakes(r: Reminder, row: Reminder, j: nat, now: Instant, providers: nat, answer: (nat, nat) -> bool) {
    if exists p: nat :: p < providers && answer(j, p) then row == r.(state := Sent, sentAt := Some(now))
    else if r.attempts >= 2 then row == r.(state := Failed, attempts := r.attempts + 1)
    else row == r.(attempts := r.attempts + 1, nextRetry := Some(now + 15 * MINUTE))
  }

  /** When a pass with a provider gives a reminder a round, and what becomes of its row; any other stays as it is. */
  lemma RoundExactly(db: Db, j: nat, now: Instant, providers: nat, answer: (nat, nat) -> bool)
    requires Sound(db) && j < |db.reminders| && providers > 0
    ensures
      var r := db.reminders[j];
      && r.key.task < |db.tasks| && db.tasks[r.key.task].course < |db.courses|
      && var task, after := db.tasks[r.key.task], SendDue(db, now, providers, answer);
      && |after.reminders| == |db.reminders|
      && if && r.state == Pending && r.scheduledFor <= now && (r.nextRetry.Some? ==> r.nextRetry.value <= now)
            && (task.status in {Discovered, ActionRequired, Targeted, Archived}
                || (task.status == Missed && r.key.kind == DeadlineReached))
            && (r.key.kind == DeadlineReached ==> now <= r.scheduledFor + 30 * MINUTE)
            && db.courses[task.course].state in {"ACTIVE", "PROVISIONED"}
            && (task.relevance.Judged? ==> task.relevance.decision != OtherSection)
         then && RoundMakes(r, after.reminders[j], j, now, providers, answer)
              && RoundsOf(after.rounds, j) ==
                   RoundsOf(db.rounds, j) + [Round(j, now, Answers(answer, j, providers))]
         else after.reminders[j] == r && RoundsOf(after.rounds, j) == RoundsOf(db.rounds, j)
  {
    assert Anchored(db, db.reminders[j]);
    DueExactly(db, db.reminders[j], now);
    RoundIfDue(db, j, now, providers, answer);
  }

  lemma RoundIfDue(db: Db, j: nat, now: Instant, providers: nat, answer: (nat, nat) -> bool)
    requires j < |db.reminders| && providers > 0
    ensures
      var r, after := db.reminders[j], SendDue(db, now, providers, answer);
      && |after.reminders| == |db.reminders|
      && (Due(db, r, now) ==> RoundMakes(r, after.reminders[j], j, now, providers, answer)
                              && RoundsOf(after.rounds, j) ==
                                 RoundsOf(db.rounds, j) + [Round(j, now, Answers(answer, j, providers))])
      && (!Due(db, r, now) ==> after.reminders[j] == r && RoundsOf(after.rounds, j) == RoundsOf(db.rounds, j))
  {
    PassRounds(db, DueIds(db, now), j, now, providers, answer);
    DispatchRow(db, j, now, providers, answer);
    AttemptMakes(db.reminders[j], j, now, providers, answer);
  }

  lemma AttemptMakes(r: Reminder, j: nat, now: Instant, providers: nat, answer: (nat, nat) -> bool)
    requires providers > 0
    ensures RoundMakes(r, Attempted(r, Judge(r, providers, true in Answers(answer, j, providers)), now), j, now,
                       providers, answer)
  {
    AnswersAre(answer, j, providers);
  }

  lemma AnswersAre(answer: (nat, nat) -> bool, j: nat, providers: nat)
    ensures |Answers(answer, j, providers)| == providers
    ensures forall p: nat :: p < providers ==> Answers(answer, j, providers)[p] == answer(j, p)
    ensures true in Answers(answer, j, providers) <==> exists p: nat :: p < providers && answer(j, p)
  {
    if p: nat :| p < providers && answer(j, p) { assert Answers(answer, j, providers)[p]; }
  }

  /** The listed reminders whose round had this outcome. */
  function WithOutcome(db: Db, ids: seq<nat>, providers: nat, answer: (nat, nat) -> bool, o: Outcome): set<nat>
    requires forall k :: 0 <= k < |ids| ==> ids[k] < |db.reminders|
  {
    Sorting.Where(ids, HasOutcome(db, providers, answer, o))
  }

  function HasOutcome(db: Db, providers: nat, answer: (nat, nat) -> bool, o: Outcome): nat -> bool {
    (i: nat) => i < |db.reminders| && OutcomeOf(db, i, providers, answer) == o
  }

  function Counter(s: Summary, o: Outcome): nat {
    match o
    case SentNow => s.sent
    case RetryLater => s.retrying
    case GaveUp => s.failed
    case NotConfigured => s.skipped
  }

  lemma {:induction false} TallyIsSize(db: Db, ids: seq<nat>, providers: nat, answer: (nat, nat) -> bool, o: Outcome)
    requires Sorting.NoDuplicates(ids) && forall k :: 0 <= k < |ids| ==> ids[k] < |db.reminders|
    ensures Counter(Tally(db, ids, providers, answer), o) == |WithOutcome(db, ids, providers, answer, o)|
  {
    if ids == [] {
      assert WithOutcome(db, ids, providers, answer, o) == {};
    } else {
      var front, last := ids[..|ids| - 1], ids[|ids| - 1];
      TallyIsSize(db, front, providers, answer, o);
      CountOne(Tally(db, front, providers, answer), OutcomeOf(db, last, providers, answer), o);
      OneMoreOutcome(db, ids, providers, answer, o);
    }
  }

  lemma CountOne(s: Summary, got: Outcome, o: Outcome)
    ensures Counter(Count(s, got), o) == Counter(s, o) + if got == o then 1 else 0
  {
  }

  lemma OneMoreOutcome(db: Db, ids: seq<nat>, providers: nat, answer: (nat, nat) -> bool, o: Outcome)
    requires ids != [] && Sorting.NoDuplicates(ids) && forall k :: 0 <= k < |ids| ==> ids[k] < |db.reminders|
    ensures |WithOutcome(db, ids, providers, answer, o)|
            == |WithOutcome(db, ids[..|ids| - 1], providers, answer, o)|
               + if OutcomeOf(db, ids[|ids| - 1], providers, answer) == o then 1 else 0
  {
    var front, last := ids[..|ids| - 1], ids[|ids| - 1];
    assert ids == front + [last];
    assert forall i :: 0 <= i < |front| ==> front[i] == ids[i] != last;
    Sorting.WhereOneMore(front, last, HasOutcome(db, providers, answer, o));
  }

  /** The pending rows of before that have a status and a number of tries after. */
  function Turned(db: Db, after: Db, state: ReminderState, tries: nat): set<nat>
    requires |after.reminders| == |db.reminders|
  {
    set j: nat | j < |db.reminders| && db.reminders[j].state == Pending && after.reminders[j].state == state
      && after.reminders[j].attempts == db.reminders[j].attempts + tries
  }

  /** What a round with that outcome makes of a pending row. */
  predicate Makes(o: Outcome, state: ReminderState, tries: nat) {
    match o
    case SentNow => state == Sent && tries == 0
    case GaveUp => state == Failed && tries == 1
    case RetryLater => state == Pending && tries == 1
    case NotConfigured => false
  }

  /** What the summary of a pass with providers counts: the reminders it turned SENT, those it turned FAILED, and those
      it left for another try; without providers, the reminders that were due. */
  lemma SummaryCounts(db: Db, now: Instant, providers: nat, answer: (nat, nat) -> bool)
    ensures
      var s, after := Tally(db, DueIds(db, now), providers, answer), SendDue(db, now, providers, answer);
      && |after.reminders| == |db.reminders|
      && s.sent == |Turned(db, after, Sent, 0)| && s.failed == |Turned(db, after, Failed, 1)|
      && s.retrying == |Turned(db, after, Pending, 1)|
      && s.skipped == (if providers == 0 then |DueIds(db, now)| else 0)
  {
    SkippedCount(db, DueIds(db, now), providers, answer);
    SentCount(db, now, providers, answer);
    FailedCount(db, now, providers, answer);
    RetryingCount(db, now, providers, answer);
  }

  lemma SentCount(db: Db, now: Instant, providers: nat, answer: (nat, nat) -> bool)
    ensures |SendDue(db, now, providers, answer).reminders| == |db.reminders|
    ensures Tally(db, DueIds(db, now), providers, answer).sent
            == |Turned(db, SendDue(db, now, providers, answer), Sent, 0)|
  {
    CountTurned(db, now, providers, answer, SentNow, Sent, 0);
  }

  lemma FailedCount(db: Db, now: Instant, providers: nat, answer: (nat, nat) -> bool)
    ensures |SendDue(db, now, providers, answer).reminders| == |db.reminders|
    ensures Tally(db, DueIds(db, now), providers, answer).failed
            == |Turned(db, SendDue(db, now, providers, answer), Failed, 1)|
  {
    CountTurned(db, now, providers, answer, GaveUp, Failed, 1);
  }

  lemma RetryingCount(db: Db, now: Instant, providers: nat, answer: (nat, nat) -> bool)
    ensures |SendDue(db, now, providers, answer).reminders| == |db.reminders|
    ensures Tally(db, DueIds(db, now), providers, answer).retrying
            == |Turned(db, SendDue(db, now, providers, answer), Pending, 1)|
  {
    CountTurned(db, now, providers, answer, RetryLater, Pending, 1);
  }

  lemma CountTurned(db: Db, now: Instant, providers: nat, answer: (nat, nat) -> bool, o: Outcome,
                    state: ReminderState, tries: nat)
    requires Makes(o, state, tries)
    ensures var after := SendDue(db, now, providers, answer);
      && |after.reminders| == |db.reminders|
      && Counter(Tally(db, DueIds(db, now), providers, answer), o) == |Turned(db, after, state, tries)|
  {
    TallyIsSize(db, DueIds(db, now), providers, answer, o);
    OutcomeTurns(db, now, providers, answer, o, state, tries);
  }

  lemma {:induction false} SkippedCount(db: Db, ids: seq<nat>, providers: nat, answer: (nat, nat) -> bool)
    requires forall k :: 0 <= k < |ids| ==> ids[k] < |db.reminders|
    ensures Tally(db, ids, providers, answer).skipped == if providers == 0 then |ids| else 0
  {
    if ids != [] { SkippedCount(db, ids[..|ids| - 1], providers, answer); }
  }

  lemma OutcomeTurns(db: Db, now: Instant, providers: nat, answer: (nat, nat) -> bool, o: Outcome,
                     state: ReminderState, tries: nat)
    requires Makes(o, state, tries)
    ensures var after := SendDue(db, now, providers, answer);
      && |after.reminders| == |db.reminders|
      && WithOutcome(db, DueIds(db, now), providers, answer, o) == Turned(db, after, state, tries)
  {
    var ids, after := DueIds(db, now), SendDue(db, now, providers, answer);
    forall j: nat | j < |db.reminders|
      ensures j in WithOutcome(db, ids, providers, answer, o) <==> j in Turned(db, after, state, tries)
    {
      DispatchRow(db, j, now, providers, answer);
      if db.reminders[j].state == Pending {
        AttemptTurns(db.reminders[j], OutcomeOf(db, j, providers, answer), now, o, state, tries);
      }
    }
  }

  lemma AttemptTurns(r: Reminder, got: Outcome, now: Instant, o: Outcome, state: ReminderState, tries: nat)
    requires Makes(o, state, tries)
    requires r.state == Pending
    ensures var row := Attempted(r, got, now);
      got == o <==> row.state == state && row.attempts == r.attempts + tries
  {
  }

  /** Without providers a pass uses no retry budget and changes nothing. */
  lemma NoProvidersNoChange(db: Db, now: Instant, providers: nat, answer: (nat, nat) -> bool)
    requires providers == 0
    ensures SendDue(db, now, providers, answer) == db
  {
    PassWithoutProviders(db, DueIds(db, now), now, providers, answer);
  }

  // -------------------------------------------------------- what may be sent

  /** Between steps the clause that lets a missed task's last reminder through selects nothing: whatever is
      due belongs to an open task. */
  lemma MissedClauseSelectsNothing(db: Db, i: nat, now: Instant)
    requires Quiet(db) && i < |db.reminders| && Due(db, db.reminders[i], now)
    ensures !Closed(db.tasks[db.reminders[i].key.task].status)
  {
  }

  /** SQL compares the stored texts; for times the calendar can hold that selects the same rows. */
  lemma TextSelectsSameRows(scheduledFor: Instant, now: Instant)
    ensures scheduledFor <= now <==>
            UtcIso(scheduledFor) == UtcIso(now) || LexLess(UtcIso(scheduledFor), UtcIso(now))
  {
    TextOrderIsTimeOrder(scheduledFor, now);
    if UtcIso(scheduledFor) == UtcIso(now) { UtcIsoInjective(scheduledFor, now); }
  }
}
