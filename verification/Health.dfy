/** Failure streaks of the pipeline's components and of stored credentials (ragra/health.py,
    record_credential_attempt in ragra/db/repo.py). */
module Health {
  import opened Text
  import opened Instants

  const FAILURE_ALERT_THRESHOLD: nat := 3

  // -------------------------------------------------------- component streaks

  /** A row of pipeline_health. */
  datatype Streak = Streak(failures: nat, lastSuccess: Option<Instant>, lastFailure: Option<Instant>,
                           lastAlert: Option<Instant>)

  /** What happens to one user's components: a run of one of them, or a check with the configured providers. */
  datatype Event = Ran(component: string, success: bool, at: Instant) | Checked(answers: seq<bool>, at: Instant)

  const NO_ROW := Streak(0, None, None, None)

  function RowOf(rows: map<string, Streak>, c: string): Streak {
    if c in rows then rows[c] else NO_ROW
  }

  function Recorded(r: Streak, success: bool, at: Instant): Streak {
    if success then Streak(0, Some(at), r.lastFailure, None)
    else r.(failures := r.failures + 1, lastFailure := Some(at))
  }

  predicate NeedsAlert(r: Streak) {
    r.failures >= FAILURE_ALERT_THRESHOLD && r.lastAlert.None?
  }

  /** The components one combined alert would name. */
  function AlertSet(rows: map<string, Streak>): set<string> {
    set c | c in rows && NeedsAlert(rows[c])
  }

  function Marked(rows: map<string, Streak>, named: set<string>, at: Instant): map<string, Streak> {
    map c | c in rows :: if c in named then rows[c].(lastAlert := Some(at)) else rows[c]
  }

  /** The alert goes to every configured provider; one acceptance is enough. */
  predicate Delivered(answers: seq<bool>) {
    true in answers
  }

  function Act(rows: map<string, Streak>, e: Event): map<string, Streak> {
    match e
    case Ran(c, success, at) => rows[c := Recorded(RowOf(rows, c), success, at)]
    case Checked(answers, at) => if Delivered(answers) then Marked(rows, AlertSet(rows), at) else rows
  }

  function After(history: seq<Event>): map<string, Streak> {
    if history == [] then map[] else Act(After(history[..|history| - 1]), history[|history| - 1])
  }

  // ---- the same, read off the history

  predicate Success(e: Event, c: string) {
    e.Ran? && e.component == c && e.success
  }

  predicate Failure(e: Event, c: string) {
    e.Ran? && e.component == c && !e.success
  }

  /** Failed runs of the component since its last successful one. */
  function TrailingFailures(history: seq<Event>, c: string): nat {
    if history == [] || Success(history[|history| - 1], c) then 0
    else TrailingFailures(history[..|history| - 1], c) + if Failure(history[|history| - 1], c) then 1 else 0
  }

  /** The check at position k told someone about component c: it was delivered and named c. */
  predicate Alerts(history: seq<Event>, k: nat, c: string)
    requires k < |history|
  {
    history[k].Checked? && Delivered(history[k].answers) && c in AlertSet(After(history[..k]))
  }

  /** Position k lies in the present failure run of c: no success of c from k on. */
  predicate InPresentRun(history: seq<Event>, k: nat, c: string) {
    k <= |history| && forall j :: k <= j < |history| ==> !Success(history[j], c)
  }

  /** The present failure run of c has been alerted, at position k. */
  predicate AlertedAt(history: seq<Event>, k: nat, c: string) {
    k < |history| && InPresentRun(history, k, c) && Alerts(history, k, c)
  }

  lemma {:induction false} FailuresAreTrailing(history: seq<Event>, c: string)
    ensures RowOf(After(history), c).failures == TrailingFailures(history, c)
  {
    if history != [] { FailuresAreTrailing(history[..|history| - 1], c); }
  }

  lemma AlertsEarlier(history: seq<Event>, e: Event, k: nat, c: string)
    requires k < |history|
    ensures AlertedAt(history + [e], k, c) <==> AlertedAt(history, k, c) && !Success(e, c)
  {
    var after := history + [e];
    assert after[..k] == history[..k] && after[k] == history[k] && after[|history|] == e;
    if InPresentRun(after, k, c) {
      forall j | k <= j < |history| ensures !Success(history[j], c) { assert after[j] == history[j]; }
    }
    if InPresentRun(history, k, c) && !Success(e, c) {
      forall j | k <= j < |after| ensures !Success(after[j], c) {
        if j < |history| { assert after[j] == history[j]; }
      }
    }
  }

  lemma AlertsNow(history: seq<Event>, e: Event, c: string)
    ensures AlertedAt(history + [e], |history|, c) <==>
            e.Checked? && Delivered(e.answers) && c in AlertSet(After(history))
  {
    assert (history + [e])[..|history|] == history;
  }

  lemma {:induction false} AlertOfRun(history: seq<Event>, c: string) returns (k: int)
    ensures k < 0 ==> RowOf(After(history), c).lastAlert.None?
    ensures k >= 0 ==> AlertedAt(history, k, c) && RowOf(After(history), c).lastAlert == Some(history[k].at)
    ensures forall j: nat :: AlertedAt(history, j, c) ==> j == k
  {
    if history == [] {
      k := -1;
    } else {
      var front, e := history[..|history| - 1], history[|history| - 1];
      assert history == front + [e];
      k := AlertOfRun(front, c);
      AlertsNow(front, e, c);
      forall j: nat | j < |front| ensures AlertedAt(history, j, c) <==> AlertedAt(front, j, c) && !Success(e, c) {
        AlertsEarlier(front, e, j, c);
      }
      if AlertedAt(history, |front|, c) { k := |front|; } else if Success(e, c) { k := -1; }
    }
  }

  /** The alert mark is the time of the one alert of the present run: set exactly when an alert naming the component was
      delivered within it, and no run is alerted twice. */
  lemma MarkIsAlertOfRun(history: seq<Event>, c: string)
    ensures RowOf(After(history), c).lastAlert.Some? <==> exists k: nat :: AlertedAt(history, k, c)
    ensures forall k: nat :: AlertedAt(history, k, c) ==> RowOf(After(history), c).lastAlert == Some(history[k].at)
    ensures forall i: nat, j: nat :: AlertedAt(history, i, c) && AlertedAt(history, j, c) ==> i == j
  {
    var k := AlertOfRun(history, c);
  }

  /** A delivered check names a component exactly when its present run has reached the threshold and was not alerted
      before. */
  lemma AlertsExactlyOnce(history: seq<Event>, e: Event, c: string)
    requires e.Checked?
    ensures Alerts(history + [e], |history|, c) <==>
            && Delivered(e.answers) && TrailingFailures(history, c) >= 3
            && !exists k: nat :: AlertedAt(history, k, c)
  {
    assert (history + [e])[..|history|] == history;
    FailuresAreTrailing(history, c);
    MarkIsAlertOfRun(history, c);
  }

  // ------------------------------------------------------- credential streaks

  datatype Outcome = Worked | FailedTry | NothingToTry

  /** One use of a service's credential. */
  datatype Attempt = Attempt(service: string, outcome: Outcome, at: Instant)

  datatype Credential = Credential(lastAttempt: Instant, lastSuccess: Option<Instant>, firstFailure: Option<Instant>)

  function NotedRow(row: Option<Credential>, a: Attempt): Credential {
    var firstFailure :=
      if a.outcome != FailedTry then None
      else if row.Some? && row.value.firstFailure.Some? then row.value.firstFailure
      else Some(a.at);
    var lastSuccess :=
      if a.outcome == Worked then Some(a.at) else if row.Some? then row.value.lastSuccess else None;
    Credential(a.at, lastSuccess, firstFailure)
  }

  /** record_credential_attempt. */
  function Noted(rows: map<string, Credential>, a: Attempt): map<string, Credential> {
    rows[a.service := NotedRow(if a.service in rows then Some(rows[a.service]) else None, a)]
  }

  function NotedAll(history: seq<Attempt>): map<string, Credential> {
    if history == [] then map[] else Noted(NotedAll(history[..|history| - 1]), history[|history| - 1])
  }

  /** The uses of one service. */
  function UsesOf(history: seq<Attempt>, service: string): seq<Attempt> {
    if history == [] then []
    else
      var front, last := UsesOf(history[..|history| - 1], service), history[|history| - 1];
      if last.service == service then front + [last] else front
  }

  /** The uses from i on are the trailing run of failures: all failed, and the use before i, if any, did not. */
  predicate StartsOutage(uses: seq<Attempt>, i: nat) {
    && i < |uses| && (forall j :: i <= j < |uses| ==> uses[j].outcome == FailedTry)
    && (i > 0 ==> uses[i - 1].outcome != FailedTry)
  }

  predicate LastToWork(uses: seq<Attempt>, i: nat) {
    i < |uses| && uses[i].outcome == Worked && forall j :: i < j < |uses| ==> uses[j].outcome != Worked
  }

  /** What the row of a service says, read off its uses. */
  function Reading(uses: seq<Attempt>): Credential
    requires uses != []
  {
    Credential(uses[|uses| - 1].at, LastSuccess(uses), FirstFailure(uses))
  }

  function LastSuccess(uses: seq<Attempt>): (at: Option<Instant>)
    ensures at.None? <==> forall i :: 0 <= i < |uses| ==> uses[i].outcome != Worked
    ensures forall i: nat :: LastToWork(uses, i) ==> at == Some(uses[i].at)
  {
    if uses == [] then None
    else if uses[|uses| - 1].outcome == Worked then Some(uses[|uses| - 1].at)
    else
      var front := uses[..|uses| - 1];
      assert forall i: nat :: LastToWork(uses, i) ==> LastToWork(front, i);
      LastSuccess(front)
  }

  function FirstFailure(uses: seq<Attempt>): (at: Option<Instant>)
    ensures at.None? <==> uses == [] || uses[|uses| - 1].outcome != FailedTry
  {
    if uses == [] || uses[|uses| - 1].outcome != FailedTry then None
    else
      var earlier := FirstFailure(uses[..|uses| - 1]);
      if earlier.Some? then earlier else Some(uses[|uses| - 1].at)
  }

  lemma {:induction false} FirstFailureIsStart(uses: seq<Attempt>, i: nat)
    requires StartsOutage(uses, i)
    ensures FirstFailure(uses) == Some(uses[i].at)
  {
    var front := uses[..|uses| - 1];
    if i < |front| { FirstFailureIsStart(front, i); }
  }

  lemma {:induction false} OutageHasStart(uses: seq<Attempt>) returns (i: nat)
    requires uses != [] && uses[|uses| - 1].outcome == FailedTry
    ensures StartsOutage(uses, i)
  {
    var front := uses[..|uses| - 1];
    if front != [] && front[|front| - 1].outcome == FailedTry { i := OutageHasStart(front); } else { i := |front|; }
  }

  lemma ReadingGrows(uses: seq<Attempt>, a: Attempt)
    ensures Reading(uses + [a]) == NotedRow(if uses == [] then None else Some(Reading(uses)), a)
  {
    assert (uses + [a])[..|uses|] == uses;
  }

  lemma {:induction false} RowIsReading(history: seq<Attempt>, service: string)
    ensures service in NotedAll(history) <==> UsesOf(history, service) != []
    ensures service in NotedAll(history) ==> NotedAll(history)[service] == Reading(UsesOf(history, service))
  {
    if history != [] {
      var front, last := history[..|history| - 1], history[|history| - 1];
      RowIsReading(front, service);
      ReadingGrows(UsesOf(front, service), last);
    }
  }

  /** A service's row holds the time of its last use, the time it last worked, and the time its present outage began,
      if it is in one; a use that had nothing to try ends an outage without counting as having worked. */
  lemma CredentialIsFold(history: seq<Attempt>, service: string)
    requires service in NotedAll(history)
    ensures var uses, row := UsesOf(history, service), NotedAll(history)[service];
      && uses != [] && row.lastAttempt == uses[|uses| - 1].at
      && (row.firstFailure.Some? <==> exists i: nat :: StartsOutage(uses, i))
      && (forall i: nat :: StartsOutage(uses, i) ==> row.firstFailure == Some(uses[i].at))
      && (row.lastSuccess.None? <==> forall i :: 0 <= i < |uses| ==> uses[i].outcome != Worked)
      && (forall i: nat :: LastToWork(uses, i) ==> row.lastSuccess == Some(uses[i].at))
  {
    RowIsReading(history, service);
    var uses, row := UsesOf(history, service), NotedAll(history)[service];
    if uses[|uses| - 1].outcome == FailedTry { var i := OutageHasStart(uses); }
    forall i: nat | StartsOutage(uses, i) ensures row.firstFailure == Some(uses[i].at) { FirstFailureIsStart(uses, i); }
  }

  // ------------------------------------------------------------- the tables

  class HealthTables {
    var components: map<string, Streak>
    var credentials: map<string, Credential>

    constructor ()
      ensures components == map[] && credentials == map[]
    {
      components, credentials := map[], map[];
    }

    /** record_result: the streak after this run. */
    method RecordResult(component: string, success: bool, now: Instant) returns (failures: nat)
      modifies this`components
      ensures components == Act(old(components), Ran(component, success, now))
      ensures failures == RowOf(components, component).failures
    {
      if success {
        var lastFailure := if component in components then components[component].lastFailure else None;
        components := components[component := Streak(0, Some(now), lastFailure, None)];
        return 0;
      }
      if component in components {
        var r := components[component];
        components := components[component := r.(failures := r.failures + 1, lastFailure := Some(now))];
      } else {
        components := components[component := Streak(1, None, Some(now), None)];
      }
      failures := components[component].failures;
    }

    /** check_and_alert: one combined alert; the components it told someone about. */
    method CheckAndAlert(answers: seq<bool>, now: Instant) returns (alerted: set<string>)
      modifies this`components
      ensures components == Act(old(components), Checked(answers, now))
      ensures alerted == if Delivered(answers) then AlertSet(old(components)) else {}
    {
      if answers == [] { return {}; }
      ghost var start := components;
      var rows := AlertSet(components);
      if rows == {} {
        assert Marked(start, {}, now) == start;
        return {};
      }
      if !Delivered(answers) { return {}; }
      alerted := {};
      while alerted != rows
        invariant alerted <= rows == AlertSet(start) && components == Marked(start, alerted, now)
        decreases |rows - alerted|
      {
        var c :| c in rows && c !in alerted;
        assert rows - (alerted + {c}) == (rows - alerted) - {c};
        components := components[c := components[c].(lastAlert := Some(now))];
        alerted := alerted + {c};
        assert components == Marked(start, alerted, now);
      }
    }

    method RecordCredentialAttempt(a: Attempt)
      modifies this`credentials
      ensures credentials == Noted(old(credentials), a)
    {
      var known := a.service in credentials;
      var firstFailure: Option<Instant> := None;
      if a.outcome == FailedTry {
        if known && credentials[a.service].firstFailure.Some? {
          firstFailure := credentials[a.service].firstFailure;
        } else {
          firstFailure := Some(a.at);
        }
      }
      var lastSuccess: Option<Instant> := if known then credentials[a.service].lastSuccess else None;
      if a.outcome == Worked { lastSuccess := Some(a.at); }
      credentials := credentials[a.service := Credential(a.at, lastSuccess, firstFailure)];
    }
  }
}
