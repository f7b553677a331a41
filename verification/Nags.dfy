/** The in-app thread: alerts repeat until acknowledged, and only the newest messages are kept
    (ragra/reminders/nags.py and the chat functions of ragra/db/repo.py). */
module Nags {
  import opened Text
  import opened Instants

  const CHAT_KEEP: nat := 200
  const NAG_LIMIT: nat := 20
  const NAG_INTERVAL: int := 5 * MINUTE

  datatype Role = User | Bot | Alert

  /** A row of the thread. */
  datatype Message = Message(id: nat, role: Role, text: string, repeatOf: Option<nat>, clock: Option<int>, acked: bool,
                             nags: nat)

  /** What was once posted, and when. */
  datatype Posting = Posting(at: int, role: Role, text: string, repeatOf: Option<nat>)

  /** The rows, with everything ever posted: the posting at position i has id i + 1, and ids are not used again. */
  datatype Thread = Thread(messages: seq<Message>, log: seq<Posting>, cleared: nat)

  // ---------------------------------------------------------------- operations

  function Newest(messages: seq<Message>): seq<Message> {
    if |messages| <= CHAT_KEEP then messages else messages[|messages| - CHAT_KEEP..]
  }

  function RowOf(id: nat, p: Posting, clock: Option<int>): Message {
    Message(id, p.role, p.text, p.repeatOf, clock, false, 0)
  }

  /** add_chat_message: append, then trim to the newest. */
  function Add(t: Thread, p: Posting, clock: Option<int>): Thread {
    Thread(Newest(t.messages + [RowOf(|t.log| + 1, p, clock)]), t.log + [p], t.cleared)
  }

  function BumpRow(m: Message, id: nat, at: int): Message {
    if m.id == id then m.(clock := Some(at), nags := m.nags + 1) else m
  }

  /** bump_nag: nothing happens when the row is gone. */
  function Bump(t: Thread, id: nat, at: int): Thread {
    t.(messages := seq(|t.messages|, i requires 0 <= i < |t.messages| => BumpRow(t.messages[i], id, at)))
  }

  function Root(m: Message): nat {
    if m.repeatOf.Some? && m.repeatOf.value != 0 then m.repeatOf.value else m.id
  }

  predicate InChain(m: Message, root: nat) {
    m.id == root || m.repeatOf == Some(root)
  }

  function AckRow(m: Message, root: nat): Message {
    if InChain(m, root) && !m.acked then m.(acked := true, clock := None) else m
  }

  function AckChain(t: Thread, root: nat): Thread {
    t.(messages := seq(|t.messages|, i requires 0 <= i < |t.messages| => AckRow(t.messages[i], root)))
  }

  predicate Acknowledgeable(m: Message, id: nat) {
    m.id == id && m.role == Alert
  }

  function Find(messages: seq<Message>, id: nat): (k: nat)
    ensures k <= |messages| && (k < |messages| ==> Acknowledgeable(messages[k], id))
    ensures forall i :: 0 <= i < k ==> !Acknowledgeable(messages[i], id)
  {
    if messages == [] || Acknowledgeable(messages[0], id) then 0 else 1 + Find(messages[1..], id)
  }

  /** ack_chat_message: the whole chain of the alert. */
  function Ack(t: Thread, id: nat): Thread {
    var k := Find(t.messages, id);
    if k == |t.messages| then t else AckChain(t, Root(t.messages[k]))
  }

  function AckAlert(m: Message): Message {
    if m.role == Alert && !m.acked then m.(acked := true, clock := None) else m
  }

  function AckAll(t: Thread): Thread {
    t.(messages := seq(|t.messages|, i requires 0 <= i < |t.messages| => AckAlert(t.messages[i])))
  }

  function Clear(t: Thread): Thread {
    Thread([], t.log, |t.log|)
  }

  predicate Due(m: Message, now: int) {
    m.role == Alert && !m.acked && m.clock.Some? && m.clock.value <= now
  }

  function AllDue(messages: seq<Message>, now: int): (due: seq<Message>)
    ensures forall m :: m in due <==> m in messages && Due(m, now)
  {
    if messages == [] then [] else (if Due(messages[0], now) then [messages[0]] else []) + AllDue(messages[1..], now)
  }

  /** due_nags: the oldest of them. */
  function DueNags(messages: seq<Message>, now: int): seq<Message> {
    var due := AllDue(messages, now);
    if |due| <= NAG_LIMIT then due else due[..NAG_LIMIT]
  }

  function RepeatText(text: string): string {
    "Reminder - press Received to stop these.\n" + text
  }

  function RepeatOf(m: Message, now: int): Posting {
    Posting(now, Alert, RepeatText(m.text), Some(m.id))
  }

  /** One repeat: a new message without a clock, then the root's clock moves on. */
  function RepeatOne(t: Thread, m: Message, now: int): Thread {
    Bump(Add(t, RepeatOf(m, now), None), m.id, now + NAG_INTERVAL)
  }

  function RepeatAll(t: Thread, due: seq<Message>, now: int): Thread {
    if due == [] then t else RepeatOne(RepeatAll(t, due[..|due| - 1], now), due[|due| - 1], now)
  }

  /** run_nags: the due rows are fetched first, then repeated one by one. */
  function Pass(t: Thread, now: int): Thread {
    RepeatAll(t, DueNags(t.messages, now), now)
  }

  // --------------------------------------------------------------------- steps

  datatype Step =
    | Say(role: Role, text: string)          // a message without a clock
    | Remind(text: string)                   // an alert, with its clock started
    | Repeats
    | Received(id: nat)
    | ReceivedAll
    | Wipe

  datatype Timed = Timed(at: int, step: Step)

  function Act(t: Thread, s: Timed): Thread {
    match s.step
    case Say(role, text) => Add(t, Posting(s.at, role, text, None), None)
    case Remind(text) => Add(t, Posting(s.at, Alert, text, None), Some(s.at + NAG_INTERVAL))
    case Repeats => Pass(t, s.at)
    case Received(id) => Ack(t, id)
    case ReceivedAll => AckAll(t)
    case Wipe => Clear(t)
  }

  function After(t: Thread, steps: seq<Timed>): Thread {
    if steps == [] then t else Act(After(t, steps[..|steps| - 1]), steps[|steps| - 1])
  }

  // ---------------------------------------------------------------- invariants

  /** The rows are the newest two hundred postings since the last clear, as they were posted. */
  predicate Kept(t: Thread) {
    && t.cleared <= |t.log|
    && |t.messages| == (if |t.log| - t.cleared <= 200 then |t.log| - t.cleared else 200)
    && forall i :: 0 <= i < |t.messages| ==>
         && t.messages[i].id == |t.log| - |t.messages| + i + 1
         && AsPosted(t.messages[i], t.log[|t.log| - |t.messages| + i])
  }

  predicate AsPosted(m: Message, p: Posting) {
    m.role == p.role && m.text == p.text && m.repeatOf == p.repeatOf
  }

  predicate IsRoot(log: seq<Posting>, id: nat) {
    1 <= id <= |log| && log[id - 1].role == Alert && log[id - 1].repeatOf.None?
  }

  /** Every repeat names an alert posted before it that is not a repeat itself. */
  predicate RepeatsNameRoots(log: seq<Posting>) {
    forall i :: 0 <= i < |log| && log[i].repeatOf.Some? ==>
      log[i].role == Alert && log[i].repeatOf.value <= i && IsRoot(log, log[i].repeatOf.value)
  }

  /** All repeats of a root, and the root itself, lie at least one interval before an instant. */
  predicate QuietFor(log: seq<Posting>, root: nat, until: int) {
    && (1 <= root <= |log| ==> log[root - 1].at + 5 * MINUTE <= until)
    && forall i :: 0 <= i < |log| && log[i].repeatOf == Some(root) ==> log[i].at + 5 * MINUTE <= until
  }

  predicate Clocked(t: Thread, m: Message) {
    m.clock.Some? ==> m.role == Alert && !m.acked && m.repeatOf.None? && QuietFor(t.log, m.id, m.clock.value)
  }

  /** Repeats of one root keep their distance from each other and from the root. */
  predicate Spaced(log: seq<Posting>) {
    && (forall i, j :: 0 <= i < j < |log| && log[i].repeatOf.Some? && log[i].repeatOf == log[j].repeatOf ==>
          log[i].at + 5 * MINUTE <= log[j].at)
    && (forall j :: 0 <= j < |log| && log[j].repeatOf.Some? && IsRoot(log, log[j].repeatOf.value) ==>
          log[log[j].repeatOf.value - 1].at + 5 * MINUTE <= log[j].at)
  }

  predicate Sound(t: Thread) {
    && Kept(t) && RepeatsNameRoots(t.log) && Spaced(t.log)
    && forall m :: m in t.messages ==> Clocked(t, m)
  }

  // ------------------------------------------------------- what each step keeps

  lemma AddKeepsKept(t: Thread, p: Posting, clock: Option<int>)
    requires Kept(t)
    ensures Kept(Add(t, p, clock))
  {
    var after, all := Add(t, p, clock), t.messages + [RowOf(|t.log| + 1, p, clock)];
    var cut := |all| - |after.messages|;
    forall i | 0 <= i < |after.messages|
      ensures && after.messages[i].id == |after.log| - |after.messages| + i + 1
              && AsPosted(after.messages[i], after.log[|after.log| - |after.messages| + i])
    {
      assert after.messages[i] == all[cut + i];
    }
  }

  lemma AddedRows(t: Thread, p: Posting, clock: Option<int>)
    ensures forall m :: m in Add(t, p, clock).messages ==> m in t.messages || m == RowOf(|t.log| + 1, p, clock)
  {
  }

  /** A posting that, if it is a repeat, repeats a root that was quiet for an interval. */
  predicate Fits(log: seq<Posting>, p: Posting) {
    p.repeatOf.Some? ==> p.role == Alert && IsRoot(log, p.repeatOf.value) && QuietFor(log, p.repeatOf.value, p.at)
  }

  lemma PostingKeepsRoots(log: seq<Posting>, p: Posting)
    requires RepeatsNameRoots(log) && Fits(log, p)
    ensures RepeatsNameRoots(log + [p])
  {
  }

  lemma PostingKeepsSpaced(log: seq<Posting>, p: Posting)
    requires RepeatsNameRoots(log) && Spaced(log) && Fits(log, p)
    ensures Spaced(log + [p])
  {
    var after := log + [p];
    forall i, j | 0 <= i < j < |after| && after[i].repeatOf.Some? && after[i].repeatOf == after[j].repeatOf
      ensures after[i].at + NAG_INTERVAL <= after[j].at
    {
      assert after[i] == log[i];
      if j < |log| { assert after[j] == log[j]; }
    }
    forall j | 0 <= j < |after| && after[j].repeatOf.Some? && IsRoot(after, after[j].repeatOf.value)
      ensures after[after[j].repeatOf.value - 1].at + NAG_INTERVAL <= after[j].at
    {
      if j < |log| { assert after[j] == log[j] && IsRoot(log, log[j].repeatOf.value); }
    }
  }

  lemma PostingKeepsLog(log: seq<Posting>, p: Posting)
    requires RepeatsNameRoots(log) && Spaced(log) && Fits(log, p)
    ensures RepeatsNameRoots(log + [p]) && Spaced(log + [p])
  {
    PostingKeepsRoots(log, p);
    PostingKeepsSpaced(log, p);
  }

  /** A posting that is not a repeat. */
  lemma AddKeepsSound(t: Thread, p: Posting, clock: Option<int>)
    requires Sound(t) && p.repeatOf.None?
    requires clock.Some? ==> p.role == Alert && p.at + NAG_INTERVAL <= clock.value
    ensures Sound(Add(t, p, clock))
  {
    AddKeepsKept(t, p, clock);
    PostingKeepsLog(t.log, p);
    var after := Add(t, p, clock);
    AddedRows(t, p, clock);
    forall m | m in after.messages ensures Clocked(after, m) {
      if m in t.messages {
        RowInLog(t, m);
      } else {
        forall i | 0 <= i < |t.log| ensures t.log[i].repeatOf != Some(|t.log| + 1) {}
      }
    }
  }

  lemma RowInLog(t: Thread, m: Message)
    requires Kept(t) && m in t.messages
    ensures 1 <= m.id <= |t.log| && AsPosted(m, t.log[m.id - 1]) && |t.log| < m.id + CHAT_KEEP
  {
    var i :| 0 <= i < |t.messages| && t.messages[i] == m;
  }

  /** A fetched row that may be repeated now. */
  predicate Ready(t: Thread, m: Message, now: int) {
    && IsRoot(t.log, m.id) && QuietFor(t.log, m.id, now)
    && forall y :: y in t.messages && y.id == m.id ==> !y.acked
  }

  lemma RowOfRoot(t: Thread, y: Message)
    requires Kept(t) && y in t.messages && IsRoot(t.log, y.id)
    ensures y.role == Alert && y.repeatOf.None?
  {
    RowInLog(t, y);
  }

  lemma QuietAfterRepeat(log: seq<Posting>, m: Message, now: int, root: nat, until: int)
    requires 1 <= root <= |log| && QuietFor(log, root, until)
    ensures root != m.id ==> QuietFor(log + [RepeatOf(m, now)], root, until)
    ensures root == m.id && until == now ==> QuietFor(log + [RepeatOf(m, now)], root, now + NAG_INTERVAL)
  {
  }

  lemma RepeatRow(t: Thread, m: Message, now: int, y: Message)
    requires Sound(t) && Ready(t, m, now) && y in t.messages
    ensures Clocked(RepeatOne(t, m, now), BumpRow(y, m.id, now + NAG_INTERVAL))
  {
    RowInLog(t, y);
    if y.id == m.id {
      RowOfRoot(t, y);
      QuietAfterRepeat(t.log, m, now, m.id, now);
    } else if y.clock.Some? {
      QuietAfterRepeat(t.log, m, now, y.id, y.clock.value);
    }
  }

  lemma BumpKeepsKept(t: Thread, id: nat, at: int)
    requires Kept(t)
    ensures Kept(Bump(t, id, at))
  {
  }

  lemma RepeatKeepsClocked(t: Thread, m: Message, now: int, x: Message)
    requires Sound(t) && Ready(t, m, now) && x in RepeatOne(t, m, now).messages
    ensures Clocked(RepeatOne(t, m, now), x)
  {
    var p := RepeatOf(m, now);
    var mid, after := Add(t, p, None), RepeatOne(t, m, now);
    AddedRows(t, p, None);
    var i :| 0 <= i < |after.messages| && after.messages[i] == x;
    var y := mid.messages[i];
    assert y in mid.messages && x == BumpRow(y, m.id, now + NAG_INTERVAL);
    if y in t.messages { RepeatRow(t, m, now, y); }
  }

  lemma RepeatKeepsSound(t: Thread, m: Message, now: int)
    requires Sound(t) && Ready(t, m, now)
    ensures Sound(RepeatOne(t, m, now))
  {
    var p := RepeatOf(m, now);
    AddKeepsKept(t, p, None);
    BumpKeepsKept(Add(t, p, None), m.id, now + NAG_INTERVAL);
    PostingKeepsLog(t.log, p);
    forall x | x in RepeatOne(t, m, now).messages ensures Clocked(RepeatOne(t, m, now), x) {
      RepeatKeepsClocked(t, m, now, x);
    }
  }

  lemma ReadyStays(t: Thread, m: Message, x: Message, now: int)
    requires Ready(t, x, now) && Ready(t, m, now) && m.id != x.id && x.id <= |t.log|
    ensures Ready(RepeatOne(t, m, now), x, now)
  {
    var p, after := RepeatOf(m, now), RepeatOne(t, m, now);
    QuietAfterRepeat(t.log, m, now, x.id, now);
    AddedRows(t, p, None);
    var mid := Add(t, p, None);
    forall y | y in after.messages && y.id == x.id ensures !y.acked {
      var i :| 0 <= i < |after.messages| && after.messages[i] == y;
      assert mid.messages[i] in mid.messages && y == BumpRow(mid.messages[i], m.id, now + NAG_INTERVAL);
    }
  }

  predicate DistinctIds(due: seq<Message>) {
    forall i, j :: 0 <= i < j < |due| ==> due[i].id != due[j].id
  }

  lemma {:induction false} RepeatsKeepSound(t: Thread, due: seq<Message>, n: nat, now: int)
    requires Sound(t) && n <= |due| && DistinctIds(due) && forall i :: 0 <= i < |due| ==> Ready(t, due[i], now)
    ensures Sound(RepeatAll(t, due[..n], now))
    ensures forall i :: n <= i < |due| ==> Ready(RepeatAll(t, due[..n], now), due[i], now)
  {
    if n > 0 {
      assert due[..n][..n - 1] == due[..n - 1];
      RepeatsKeepSound(t, due, n - 1, now);
      var before := RepeatAll(t, due[..n - 1], now);
      RepeatKeepsSound(before, due[n - 1], now);
      forall i | n <= i < |due| ensures Ready(RepeatAll(t, due[..n], now), due[i], now) {
        ReadyStays(before, due[n - 1], due[i], now);
      }
    }
  }

  lemma RowsHaveDistinctIds(t: Thread, x: Message, y: Message)
    requires Kept(t) && x in t.messages && y in t.messages && x.id == y.id
    ensures x == y
  {
    var i :| 0 <= i < |t.messages| && t.messages[i] == x;
    var j :| 0 <= j < |t.messages| && t.messages[j] == y;
  }

  lemma {:induction false} DueAreDistinct(messages: seq<Message>, now: int)
    requires forall i, j :: 0 <= i < j < |messages| ==> messages[i].id != messages[j].id
    ensures DistinctIds(AllDue(messages, now))
  {
    if messages != [] {
      DueAreDistinct(messages[1..], now);
      var rest := AllDue(messages[1..], now);
      forall j | 0 <= j < |rest| ensures rest[j].id != messages[0].id {
        assert rest[j] in messages[1..];
        var k :| 0 <= k < |messages[1..]| && messages[1..][k] == rest[j];
        assert messages[k + 1] == rest[j];
      }
    }
  }

  /** What a pass fetches: rows of distinct roots, each ready. */
  lemma FetchedAreReady(t: Thread, now: int)
    requires Sound(t)
    ensures var due := DueNags(t.messages, now);
      DistinctIds(due)
      && forall i :: 0 <= i < |due| ==> due[i] in t.messages && Due(due[i], now) && Ready(t, due[i], now)
  {
    var all, due := AllDue(t.messages, now), DueNags(t.messages, now);
    DueAreDistinct(t.messages, now);
    forall i | 0 <= i < |due| ensures due[i] in t.messages && Due(due[i], now) && Ready(t, due[i], now) {
      assert due[i] == all[i] && all[i] in all;
      RowInLog(t, due[i]);
      assert Clocked(t, due[i]);
      forall y | y in t.messages && y.id == due[i].id ensures !y.acked { RowsHaveDistinctIds(t, y, due[i]); }
    }
  }

  lemma PassKeepsSound(t: Thread, now: int)
    requires Sound(t)
    ensures Sound(Pass(t, now))
  {
    var due := DueNags(t.messages, now);
    FetchedAreReady(t, now);
    RepeatsKeepSound(t, due, |due|, now);
    assert due[..|due|] == due;
  }

  /** Rows only acknowledged, one by one. */
  predicate Quieter(m: Message, x: Message) {
    x == m || x == m.(acked := true, clock := None)
  }

  lemma QuieterKeepsSound(t: Thread, after: Thread)
    requires Sound(t) && after.log == t.log && after.cleared == t.cleared && |after.messages| == |t.messages|
    requires forall i :: 0 <= i < |t.messages| ==> Quieter(t.messages[i], after.messages[i])
    ensures Sound(after)
  {
    forall x | x in after.messages ensures Clocked(after, x) {
      var i :| 0 <= i < |after.messages| && after.messages[i] == x;
      assert t.messages[i] in t.messages && Clocked(t, t.messages[i]);
    }
  }

  lemma AckIsQuieter(t: Thread, id: nat)
    ensures var after := Ack(t, id);
      && after.log == t.log && after.cleared == t.cleared && |after.messages| == |t.messages|
      && forall i :: 0 <= i < |t.messages| ==> Quieter(t.messages[i], after.messages[i])
  {
  }

  lemma AckAllIsQuieter(t: Thread)
    ensures var after := AckAll(t);
      && after.log == t.log && after.cleared == t.cleared && |after.messages| == |t.messages|
      && forall i :: 0 <= i < |t.messages| ==> Quieter(t.messages[i], after.messages[i])
  {
  }

  lemma ClearKeepsSound(t: Thread)
    requires Sound(t)
    ensures Sound(Clear(t))
  {
  }

  lemma PostKeepsSound(t: Thread, s: Timed)
    requires Sound(t) && (s.step.Say? || s.step.Remind?)
    ensures Sound(Act(t, s))
  {
    match s.step
    case Say(role, text) => AddKeepsSound(t, Posting(s.at, role, text, None), None);
    case Remind(text) => AddKeepsSound(t, Posting(s.at, Alert, text, None), Some(s.at + NAG_INTERVAL));
  }

  lemma ReceivedKeepsSound(t: Thread, s: Timed)
    requires Sound(t) && (s.step.Received? || s.step.ReceivedAll?)
    ensures Sound(Act(t, s))
  {
    if s.step.Received? { AckIsQuieter(t, s.step.id); } else { AckAllIsQuieter(t); }
    QuieterKeepsSound(t, Act(t, s));
  }

  lemma ActKeepsSound(t: Thread, s: Timed)
    requires Sound(t)
    ensures Sound(Act(t, s))
  {
    if s.step.Say? || s.step.Remind? {
      PostKeepsSound(t, s);
    } else if s.step.Received? || s.step.ReceivedAll? {
      ReceivedKeepsSound(t, s);
    } else if s.step.Repeats? {
      PassKeepsSound(t, s.at);
    } else {
      ClearKeepsSound(t);
    }
  }

  // -------------------------------------------------------------- whole runs

  /** Over every run of posts, repeats, acknowledgements and clears: the thread holds exactly the newest two hundred
      messages since the last clear, every repeat names an alert that is no repeat itself and carries no clock, and
      repeats of one alert are at least the interval apart - whatever the times of the passes. */
  lemma {:induction false} EveryRunIsSound(steps: seq<Timed>)
    ensures Sound(After(Thread([], [], 0), steps))
  {
    if steps != [] {
      EveryRunIsSound(steps[..|steps| - 1]);
      ActKeepsSound(After(Thread([], [], 0), steps[..|steps| - 1]), steps[|steps| - 1]);
    }
  }

  /** Nothing will repeat this root. */
  predicate Silent(t: Thread, root: nat) {
    root <= |t.log| && forall m :: m in t.messages && m.id == root ==> m.clock.None?
  }

  /** The repeats of a root posted so far. */
  function Repeated(log: seq<Posting>, root: nat): nat {
    if log == [] then 0 else Repeated(log[..|log| - 1], root) + if log[|log| - 1].repeatOf == Some(root) then 1 else 0
  }

  lemma RepeatedGrows(log: seq<Posting>, p: Posting, root: nat)
    ensures Repeated(log + [p], root) == Repeated(log, root) + if p.repeatOf == Some(root) then 1 else 0
  {
    assert (log + [p])[..|log|] == log;
  }

  lemma AddKeepsSilent(t: Thread, p: Posting, clock: Option<int>, root: nat)
    requires Silent(t, root) && p.repeatOf != Some(root)
    ensures Silent(Add(t, p, clock), root) && Repeated(Add(t, p, clock).log, root) == Repeated(t.log, root)
  {
    AddedRows(t, p, clock);
    RepeatedGrows(t.log, p, root);
  }

  lemma {:induction false} RepeatsKeepSilent(t: Thread, due: seq<Message>, now: int, root: nat)
    requires Silent(t, root) && forall i :: 0 <= i < |due| ==> due[i].id != root
    ensures Silent(RepeatAll(t, due, now), root) && Repeated(RepeatAll(t, due, now).log, root) == Repeated(t.log, root)
  {
    if due != [] {
      var front, last := due[..|due| - 1], due[|due| - 1];
      RepeatsKeepSilent(t, front, now, root);
      var before := RepeatAll(t, front, now);
      var mid := Add(before, RepeatOf(last, now), None);
      AddKeepsSilent(before, RepeatOf(last, now), None, root);
      var after := RepeatOne(before, last, now);
      forall m | m in after.messages && m.id == root ensures m.clock.None? {
        var i :| 0 <= i < |after.messages| && after.messages[i] == m;
        assert m == BumpRow(mid.messages[i], last.id, now + NAG_INTERVAL) && mid.messages[i] in mid.messages;
      }
    }
  }

  lemma QuieterKeepsSilent(t: Thread, after: Thread, root: nat)
    requires Silent(t, root) && after.log == t.log && |after.messages| == |t.messages|
    requires forall i :: 0 <= i < |t.messages| ==> Quieter(t.messages[i], after.messages[i])
    ensures Silent(after, root)
  {
    forall m | m in after.messages && m.id == root ensures m.clock.None? {
      var i :| 0 <= i < |after.messages| && after.messages[i] == m;
      assert t.messages[i] in t.messages;
    }
  }

  lemma ActKeepsSilent(t: Thread, s: Timed, root: nat)
    requires Silent(t, root)
    ensures Silent(Act(t, s), root) && Repeated(Act(t, s).log, root) == Repeated(t.log, root)
  {
    match s.step {
      case Say(role, text) => AddKeepsSilent(t, Posting(s.at, role, text, None), None, root);
      case Remind(text) => AddKeepsSilent(t, Posting(s.at, Alert, text, None), Some(s.at + NAG_INTERVAL), root);
      case Repeats =>
        var all, due := AllDue(t.messages, s.at), DueNags(t.messages, s.at);
        forall i | 0 <= i < |due| ensures due[i].id != root { assert due[i] == all[i] && all[i] in all; }
        RepeatsKeepSilent(t, due, s.at, root);
      case Received(id) => QuieterKeepsSilent(t, Ack(t, id), root);
      case ReceivedAll => QuieterKeepsSilent(t, AckAll(t), root);
      case Wipe =>
    }
  }

  lemma {:induction false} SilentForever(t: Thread, steps: seq<Timed>, root: nat)
    requires Silent(t, root)
    ensures Silent(After(t, steps), root) && Repeated(After(t, steps).log, root) == Repeated(t.log, root)
  {
    if steps != [] {
      SilentForever(t, steps[..|steps| - 1], root);
      ActKeepsSilent(After(t, steps[..|steps| - 1]), steps[|steps| - 1], root);
    }
  }

  /** Received on a message of the chain, Received on all, or a clear. */
  predicate EndsClock(t: Thread, s: Step, id: nat) {
    s == ReceivedAll || s == Wipe
    || (s.Received? && Reaches(t, s.id, id))
  }

  /** The message repeats the alert, or is it. */
  predicate BelongsTo(m: Message, root: nat) {
    m.repeatOf == Some(root) || (m.repeatOf.None? && m.id == root)
  }

  /** The message with that id is an alert, and belongs to the root. */
  predicate Reaches(t: Thread, id: nat, root: nat) {
    exists m :: m in t.messages && m.id == id && m.role == Alert && BelongsTo(m, root)
  }

  lemma RootIs(t: Thread, m: Message, root: nat)
    requires Sound(t) && m in t.messages
    ensures Root(m) == root <==> BelongsTo(m, root)
    ensures InChain(m, Root(m)) && 1 <= Root(m) <= |t.log|
  {
    RowInLog(t, m);
    if m.repeatOf.Some? { assert IsRoot(t.log, t.log[m.id - 1].repeatOf.value); }
  }

  /** Both repeat the same alert, or one repeats the other, or they are one message. */
  predicate SameChain(m: Message, x: Message) {
    (if m.repeatOf.Some? then m.repeatOf.value else m.id) == (if x.repeatOf.Some? then x.repeatOf.value else x.id)
  }

  lemma SameChainIs(t: Thread, m: Message, x: Message)
    requires Sound(t) && m in t.messages && x in t.messages
    ensures InChain(x, Root(m)) <==> SameChain(m, x)
  {
    RowInLog(t, m);
    RowInLog(t, x);
    if m.repeatOf.Some? { assert IsRoot(t.log, t.log[m.id - 1].repeatOf.value); }
    if x.repeatOf.Some? { assert IsRoot(t.log, t.log[x.id - 1].repeatOf.value); }
  }

  /** The row is in the chain of the alert with that id. */
  predicate Pressed(t: Thread, id: nat, x: Message) {
    exists m :: m in t.messages && m.id == id && m.role == Alert && SameChain(m, x)
  }

  /** Received acknowledges and stops every message of the alert's chain, and no other. */
  lemma ReceivedAcknowledges(t: Thread, s: Timed, i: nat)
    requires Sound(t) && s.step.Received? && i < |t.messages|
    ensures var after, x := Act(t, s), t.messages[i];
      && after.log == t.log && |after.messages| == |t.messages|
      && after.messages[i] == if Pressed(t, s.step.id, x) then x.(acked := true, clock := None) else x
  {
    var id, x := s.step.id, t.messages[i];
    var f := Find(t.messages, id);
    assert x in t.messages && Clocked(t, x);
    if f < |t.messages| {
      assert t.messages[f] in t.messages;
      PressedIs(t, id, t.messages[f], x);
    }
  }

  lemma PressedIs(t: Thread, id: nat, m: Message, x: Message)
    requires Sound(t) && m in t.messages && x in t.messages && Acknowledgeable(m, id)
    ensures Pressed(t, id, x) <==> InChain(x, Root(m))
  {
    SameChainIs(t, m, x);
    forall y | y in t.messages && y.id == id ensures y == m { RowsHaveDistinctIds(t, m, y); }
  }

  /** Received on all acknowledges every alert and nothing else; a clear takes every message and gives no id out again;
      a reminder is a new alert, last in the thread, whose clock runs five minutes. */
  lemma OtherStepsAre(t: Thread, at: int, text: string)
    requires Sound(t)
    ensures
      var all, none, more :=
        Act(t, Timed(at, ReceivedAll)), Act(t, Timed(at, Wipe)), Act(t, Timed(at, Remind(text)));
      && all.log == t.log && |all.messages| == |t.messages|
      && (forall i :: 0 <= i < |t.messages| ==>
            all.messages[i] == if t.messages[i].role == Alert then t.messages[i].(acked := true, clock := None)
                               else t.messages[i])
      && none.messages == [] && none.log == t.log
      && more.log == t.log + [Posting(at, Alert, text, None)] && more.messages != []
      && more.messages[|more.messages| - 1]
         == Message(|t.log| + 1, Alert, text, None, Some(at + 5 * MINUTE), false, 0)
  {
    forall i | 0 <= i < |t.messages| ensures Clocked(t, t.messages[i]) { assert t.messages[i] in t.messages; }
  }

  lemma ReceivedSilences(t: Thread, id: nat, m: Message)
    requires Sound(t) && m in t.messages && Acknowledgeable(m, id) && Root(m) <= |t.log|
    ensures Silent(Ack(t, id), Root(m))
  {
    var k, after := Find(t.messages, id), Ack(t, id);
    assert k < |t.messages|;
    RowsHaveDistinctIds(t, m, t.messages[k]);
    forall x | x in after.messages && x.id == Root(m) ensures x.clock.None? {
      var i :| 0 <= i < |after.messages| && after.messages[i] == x;
      assert t.messages[i] in t.messages && Clocked(t, t.messages[i]);
      assert x == AckRow(t.messages[i], Root(m));
    }
  }

  lemma ReceivedAllSilences(t: Thread, root: nat)
    requires Sound(t) && root <= |t.log|
    ensures Silent(AckAll(t), root)
  {
    var after := AckAll(t);
    forall x | x in after.messages && x.id == root ensures x.clock.None? {
      var i :| 0 <= i < |after.messages| && after.messages[i] == x;
      assert t.messages[i] in t.messages && Clocked(t, t.messages[i]);
      assert x == AckAlert(t.messages[i]);
    }
  }

  /** After Received was pressed on any message of a chain, on all of them, or the thread was cleared, no later step of
      any run repeats that chain. */
  lemma ReceivedEndsTheChain(t: Thread, s: Timed, root: nat, later: seq<Timed>)
    requires Sound(t) && 1 <= root <= |t.log| && EndsClock(t, s.step, root)
    ensures Repeated(After(Act(t, s), later).log, root) == Repeated(t.log, root)
  {
    if s.step.Received? {
      var m :| m in t.messages && m.id == s.step.id && m.role == Alert && BelongsTo(m, root);
      RootIs(t, m, root);
      ReceivedSilences(t, s.step.id, m);
    } else if s.step.ReceivedAll? {
      ReceivedAllSilences(t, root);
    }
    SilentForever(Act(t, s), later, root);
  }

  // ------------------------------------------------------- what a pass repeats

  /** The ids of the alerts in the thread that nobody acknowledged and whose clock has run down. */
  function Waiting(messages: seq<Message>, now: int): set<nat> {
    set m | m in messages && m.role == Alert && !m.acked && m.clock.Some? && m.clock.value <= now :: m.id
  }

  /** The id is among the twenty lowest of the set. */
  predicate AmongTwenty(ids: set<nat>, id: nat) {
    id in ids && |set j | j in ids && j < id| < 20
  }

  predicate Ascending(ids: seq<nat>) {
    forall i, j :: 0 <= i < j < |ids| ==> ids[i] < ids[j]
  }

  function IdsOf(messages: seq<Message>): (ids: seq<nat>)
    ensures |ids| == |messages| && forall i :: 0 <= i < |messages| ==> ids[i] == messages[i].id
  {
    seq(|messages|, i requires 0 <= i < |messages| => messages[i].id)
  }

  lemma {:induction false} AscendingBelow(ids: seq<nat>, k: nat)
    requires Ascending(ids) && k <= |ids|
    ensures |set i | 0 <= i < k :: ids[i]| == k
  {
    var below := set i | 0 <= i < k :: ids[i];
    if k == 0 {
      assert below == {};
    } else {
      AscendingBelow(ids, k - 1);
      var front := set i | 0 <= i < k - 1 :: ids[i];
      assert below == front + {ids[k - 1]} && ids[k - 1] !in front;
    }
  }

  /** In an ascending list the twenty lowest are the first twenty. */
  lemma FirstTwenty(ids: seq<nat>, all: set<nat>, id: nat)
    requires Ascending(ids) && forall x :: x in all <==> x in ids
    ensures |all| == |ids|
    ensures AmongTwenty(all, id) <==> exists k :: 0 <= k < |ids| && k < 20 && ids[k] == id
  {
    AscendingBelow(ids, |ids|);
    assert all == set i | 0 <= i < |ids| :: ids[i];
    if id in ids {
      var k :| 0 <= k < |ids| && ids[k] == id;
      AscendingBelow(ids, k);
      assert (set j | j in all && j < id) == set i | 0 <= i < k :: ids[i];
    }
  }

  lemma {:induction false} DueAscend(messages: seq<Message>, now: int)
    requires forall i, j :: 0 <= i < j < |messages| ==> messages[i].id < messages[j].id
    ensures Ascending(IdsOf(AllDue(messages, now)))
  {
    if messages != [] {
      DueAscend(messages[1..], now);
      var rest := AllDue(messages[1..], now);
      forall j | 0 <= j < |rest| ensures messages[0].id < rest[j].id {
        assert rest[j] in messages[1..];
        var k :| 0 <= k < |messages[1..]| && messages[1..][k] == rest[j];
        assert messages[k + 1] == rest[j];
      }
      assert forall j :: 0 <= j < |rest| ==> IdsOf(rest)[j] == rest[j].id;
    }
  }

  /** What is fetched is the twenty lowest of what waits. */
  lemma FetchedAreWaiting(t: Thread, now: int, id: nat)
    requires Kept(t)
    ensures var due, waiting := DueNags(t.messages, now), Waiting(t.messages, now);
      && |due| == (if |waiting| <= 20 then |waiting| else 20)
      && (id in IdsOf(due) <==> AmongTwenty(waiting, id))
  {
    var all, waiting := AllDue(t.messages, now), Waiting(t.messages, now);
    DueAscend(t.messages, now);
    forall x ensures x in waiting <==> x in IdsOf(all) {
      if x in waiting {
        var m :| m in t.messages && m.role == Alert && !m.acked && m.clock.Some? && m.clock.value <= now && m.id == x;
        assert m in all;
        var i :| 0 <= i < |all| && all[i] == m;
        assert IdsOf(all)[i] == x;
      }
      if x in IdsOf(all) {
        var i :| 0 <= i < |all| && IdsOf(all)[i] == x;
        assert all[i] in all;
      }
    }
    FirstTwenty(IdsOf(all), waiting, id);
    FetchedIds(t.messages, now, id);
  }

  lemma FetchedIds(messages: seq<Message>, now: int, id: nat)
    ensures var all := IdsOf(AllDue(messages, now));
      id in IdsOf(DueNags(messages, now)) <==> exists k :: 0 <= k < |all| && k < 20 && all[k] == id
    ensures |DueNags(messages, now)| == if |AllDue(messages, now)| <= 20 then |AllDue(messages, now)| else 20
  {
    var due, all := DueNags(messages, now), AllDue(messages, now);
    if id in IdsOf(due) {
      var k :| 0 <= k < |due| && IdsOf(due)[k] == id;
      assert IdsOf(all)[k] == id;
    }
    if k :| 0 <= k < |IdsOf(all)| && k < 20 && IdsOf(all)[k] == id { assert IdsOf(due)[k] == id; }
  }

  /** A row after repeats: one of an old message is as it was, but for the clock and the count of a repeated one. */
  predicate RowAfterRepeats(t: Thread, ids: seq<nat>, now: int, x: Message) {
    exists y :: y in t.messages && y.id == x.id
      && x == if x.id in ids then y.(clock := Some(now + 5 * MINUTE), nags := y.nags + 1) else y
  }

  /** A posting of a pass: the alert again, with the line that asks for Received. */
  predicate IsRepeatOf(p: Posting, m: Message, now: int) {
    && p.at == now && p.role == Alert && p.repeatOf == Some(m.id)
    && p.text == "Reminder - press Received to stop these.\n" + m.text
  }

  /** Fetched rows repeated one after the other: one posting for each, in order, their clocks moved on, and every other
      old row as it was. */
  predicate RepeatsDone(t: Thread, due: seq<Message>, now: int, after: Thread) {
    && |after.log| == |t.log| + |due| && after.log[..|t.log|] == t.log
    && (forall i :: 0 <= i < |due| ==> IsRepeatOf(after.log[|t.log| + i], due[i], now))
    && (forall x :: x in after.messages && x.id <= |t.log| ==> RowAfterRepeats(t, IdsOf(due), now, x))
  }

  lemma RowAfterOneMore(t: Thread, ids: seq<nat>, last: nat, now: int, y: Message)
    requires RowAfterRepeats(t, ids, now, y) && last !in ids
    ensures RowAfterRepeats(t, ids + [last], now, BumpRow(y, last, now + 5 * MINUTE))
  {
    var z :| z in t.messages && z.id == y.id
      && y == if y.id in ids then z.(clock := Some(now + 5 * MINUTE), nags := z.nags + 1) else z;
    assert z in t.messages && z.id == BumpRow(y, last, now + 5 * MINUTE).id;
  }

  lemma {:induction false} RepeatsAreDone(t: Thread, due: seq<Message>, now: int)
    requires DistinctIds(due) && forall i :: 0 <= i < |due| ==> due[i].id <= |t.log|
    requires forall m :: m in t.messages ==> m.id <= |t.log|
    ensures RepeatsDone(t, due, now, RepeatAll(t, due, now))
  {
    if due == [] {
      forall x | x in t.messages ensures RowAfterRepeats(t, IdsOf(due), now, x) {}
    } else {
      var front, last := due[..|due| - 1], due[|due| - 1];
      RepeatsAreDone(t, front, now);
      RepeatStep(t, front, last, now, RepeatAll(t, front, now));
      assert due == front + [last];
    }
  }

  lemma RepeatStep(t: Thread, front: seq<Message>, last: Message, now: int, before: Thread)
    requires RepeatsDone(t, front, now, before) && DistinctIds(front + [last]) && last.id <= |t.log|
    ensures RepeatsDone(t, front + [last], now, RepeatOne(before, last, now))
  {
    var mid, after := Add(before, RepeatOf(last, now), None), RepeatOne(before, last, now);
    forall i | 0 <= i < |front| ensures IdsOf(front)[i] != last.id {
      assert (front + [last])[i] == front[i] && (front + [last])[|front|] == last;
    }
    assert IdsOf(front + [last]) == IdsOf(front) + [last.id];
    AddedRows(before, RepeatOf(last, now), None);
    forall x | x in after.messages && x.id <= |t.log| ensures RowAfterRepeats(t, IdsOf(front + [last]), now, x) {
      var i :| 0 <= i < |after.messages| && after.messages[i] == x;
      assert mid.messages[i] in mid.messages && x == BumpRow(mid.messages[i], last.id, now + NAG_INTERVAL);
      RowAfterOneMore(t, IdsOf(front), last.id, now, mid.messages[i]);
    }
    forall i | 0 <= i < |front + [last]|
      ensures IsRepeatOf(after.log[|t.log| + i], (front + [last])[i], now)
    {
      if i < |front| { assert after.log[|t.log| + i] == before.log[|t.log| + i]; }
    }
  }

  lemma {:induction false} RepeatedByPass(log: seq<Posting>, more: seq<Posting>, ids: seq<nat>, id: nat)
    requires |more| == |ids| && forall i :: 0 <= i < |ids| ==> more[i].repeatOf == Some(ids[i])
    requires forall i, j :: 0 <= i < j < |ids| ==> ids[i] != ids[j]
    ensures Repeated(log + more, id) == Repeated(log, id) + if id in ids then 1 else 0
  {
    if more == [] {
      assert log + more == log;
    } else {
      var n := |ids| - 1;
      var front, last, earlier := more[..n], more[n], ids[..n];
      assert more == front + [last] && ids == earlier + [ids[n]];
      RepeatedByPass(log, front, earlier, id);
      NotAmong(ids, n);
      OneMoreRepeat(log, front, last, earlier, ids[n], id);
    }
  }

  lemma NotAmong(ids: seq<nat>, n: nat)
    requires n < |ids| && forall i, j :: 0 <= i < j < |ids| ==> ids[i] != ids[j]
    ensures ids[n] !in ids[..n]
  {
  }

  lemma OneMoreRepeat(log: seq<Posting>, front: seq<Posting>, last: Posting, earlier: seq<nat>, k: nat, id: nat)
    requires last.repeatOf == Some(k) && k !in earlier
    requires Repeated(log + front, id) == Repeated(log, id) + if id in earlier then 1 else 0
    ensures Repeated(log + (front + [last]), id) == Repeated(log, id) + if id in earlier + [k] then 1 else 0
  {
    RepeatedGrows(log + front, last, id);
    assert log + (front + [last]) == log + front + [last];
  }

  /** A pass repeats exactly the alerts that wait, the twenty lowest if there are more: each of them once, with its
      clock moved five minutes on, and no other; every other old row stays as it was. */
  lemma PassRepeatsExactly(t: Thread, now: int, id: nat)
    requires Sound(t)
    ensures var after, waiting := Pass(t, now), Waiting(t.messages, now);
      && |after.log| == |t.log| + (if |waiting| <= 20 then |waiting| else 20)
      && Repeated(after.log, id) == Repeated(t.log, id) + (if AmongTwenty(waiting, id) then 1 else 0)
      && forall x :: x in after.messages && x.id == id <= |t.log| ==>
           exists y :: y in t.messages && y.id == id
             && x == if AmongTwenty(waiting, id) then y.(clock := Some(now + 5 * MINUTE), nags := y.nags + 1) else y
  {
    var due := DueNags(t.messages, now);
    FetchedAreWaiting(t, now, id);
    PassIsDone(t, now);
    RepeatsCounted(t, due, now, Pass(t, now), id);
  }

  lemma PassIsDone(t: Thread, now: int)
    requires Sound(t)
    ensures RepeatsDone(t, DueNags(t.messages, now), now, Pass(t, now))
    ensures DistinctIds(DueNags(t.messages, now))
  {
    FetchedAreReady(t, now);
    forall m | m in t.messages ensures m.id <= |t.log| { RowInLog(t, m); }
    RepeatsAreDone(t, DueNags(t.messages, now), now);
  }

  lemma RepeatsCounted(t: Thread, due: seq<Message>, now: int, after: Thread, id: nat)
    requires RepeatsDone(t, due, now, after) && DistinctIds(due)
    ensures Repeated(after.log, id) == Repeated(t.log, id) + if id in IdsOf(due) then 1 else 0
  {
    var more := after.log[|t.log|..];
    assert after.log == t.log + more;
    RepeatedByPass(t.log, more, IdsOf(due), id);
  }

  /** What it posts: for each new message the alert it repeats. */
  lemma PassPostsRepeats(t: Thread, now: int, i: nat)
    requires Sound(t) && |t.log| <= i < |Pass(t, now).log|
    ensures exists m :: m in t.messages && m.id in Waiting(t.messages, now) && IsRepeatOf(Pass(t, now).log[i], m, now)
  {
    var due := DueNags(t.messages, now);
    FetchedAreReady(t, now);
    PassIsDone(t, now);
    var m := due[i - |t.log|];
    assert m in t.messages && m.id in Waiting(t.messages, now);
  }

  // ------------------------------------------------------------ how a clock ends

  /** The root's row with its clock still running. */
  predicate Running(t: Thread, id: nat) {
    exists m :: m in t.messages && m.id == id && m.clock.Some? && !m.acked
  }

  /** Two hundred newer messages have been posted. */
  predicate PushedOut(t: Thread, id: nat) {
    id + 200 <= |t.log|
  }

  lemma AddKeepsRunning(t: Thread, p: Posting, clock: Option<int>, id: nat)
    requires Kept(t) && Running(t, id)
    ensures Running(Add(t, p, clock), id) || PushedOut(Add(t, p, clock), id)
  {
    var m :| m in t.messages && m.id == id && m.clock.Some? && !m.acked;
    var i :| 0 <= i < |t.messages| && t.messages[i] == m;
    var after := Add(t, p, clock);
    var cut := |t.messages| + 1 - |after.messages|;
    if cut <= i { assert after.messages[i - cut] == m; }
  }

  lemma BumpKeepsRunning(t: Thread, id: nat, at: int, other: nat)
    requires Running(t, id)
    ensures Running(Bump(t, other, at), id)
  {
    var m :| m in t.messages && m.id == id && m.clock.Some? && !m.acked;
    var i :| 0 <= i < |t.messages| && t.messages[i] == m;
    assert Bump(t, other, at).messages[i] == BumpRow(m, other, at);
  }

  lemma {:induction false} RepeatsKeepRunning(t: Thread, due: seq<Message>, now: int, id: nat)
    requires Kept(t) && Running(t, id)
    ensures Kept(RepeatAll(t, due, now))
    ensures Running(RepeatAll(t, due, now), id) || PushedOut(RepeatAll(t, due, now), id)
  {
    if due != [] {
      var front, last := due[..|due| - 1], due[|due| - 1];
      RepeatsKeepRunning(t, front, now, id);
      var before := RepeatAll(t, front, now);
      var mid := Add(before, RepeatOf(last, now), None);
      AddKeepsKept(before, RepeatOf(last, now), None);
      BumpKeepsKept(mid, last.id, now + NAG_INTERVAL);
      if Running(before, id) {
        AddKeepsRunning(before, RepeatOf(last, now), None, id);
        if Running(mid, id) { BumpKeepsRunning(mid, id, now + NAG_INTERVAL, last.id); }
      }
    }
  }

  lemma OtherChainRunsOn(t: Thread, k: nat, id: nat)
    requires Sound(t) && Running(t, id)
    requires !Reaches(t, k, id)
    ensures Running(Ack(t, k), id)
  {
    var m :| m in t.messages && m.id == id && m.clock.Some? && !m.acked;
    var i :| 0 <= i < |t.messages| && t.messages[i] == m;
    assert Clocked(t, m);
    var f := Find(t.messages, k);
    if f < |t.messages| {
      assert t.messages[f] in t.messages;
      RootIs(t, t.messages[f], id);
      assert AckChain(t, Root(t.messages[f])).messages[i] == AckRow(m, Root(t.messages[f])) == m;
    }
  }

  /** A running clock ends only by Received on its chain or on all, by a clear, or by two hundred newer messages. */
  lemma ClockRunsOn(t: Thread, s: Timed, id: nat)
    requires Sound(t) && Running(t, id) && !EndsClock(t, s.step, id)
    ensures Running(Act(t, s), id) || PushedOut(Act(t, s), id)
  {
    match s.step {
      case Say(role, text) => AddKeepsRunning(t, Posting(s.at, role, text, None), None, id);
      case Remind(text) => AddKeepsRunning(t, Posting(s.at, Alert, text, None), Some(s.at + NAG_INTERVAL), id);
      case Repeats => RepeatsKeepRunning(t, DueNags(t.messages, s.at), s.at, id);
      case Received(k) => OtherChainRunsOn(t, k, id);
    }
  }

  // ------------------------------------------------------------- the chat table

  /** Some message of the chain was not acknowledged. */
  predicate HasOpen(messages: seq<Message>, root: nat) {
    exists k :: 0 <= k < |messages| && InChain(messages[k], root) && !messages[k].acked
  }

  lemma OpenOneMore(messages: seq<Message>, m: Message, root: nat)
    ensures HasOpen(messages + [m], root) <==> HasOpen(messages, root) || (InChain(m, root) && !m.acked)
  {
    var all := messages + [m];
    if InChain(m, root) && !m.acked { assert all[|messages|] == m; }
    if k :| 0 <= k < |messages| && InChain(messages[k], root) && !messages[k].acked { assert all[k] == messages[k]; }
  }

  /** The alerts not acknowledged yet. */
  function OpenAlerts(messages: seq<Message>): nat {
    if messages == [] then 0
    else
      var last := messages[|messages| - 1];
      OpenAlerts(messages[..|messages| - 1]) + if last.role == Alert && !last.acked then 1 else 0
  }

  class ChatThread {
    var messages: seq<Message>
    var lastId: nat
    ghost var log: seq<Posting>
    ghost var cleared: nat

    ghost function View(): Thread
      reads this
    {
      Thread(messages, log, cleared)
    }

    ghost predicate Valid()
      reads this
    {
      lastId == |log| && Sound(View())
    }

    constructor ()
      ensures Valid() && View() == Thread([], [], 0)
    {
      messages, lastId, log, cleared := [], 0, [], 0;
    }

    method AddChatMessage(role: Role, text: string, clock: Option<int>, repeatOf: Option<nat>, now: int)
      requires lastId == |log|
      modifies this
      ensures lastId == |log| && View() == Add(old(View()), Posting(now, role, text, repeatOf), clock)
    {
      lastId := lastId + 1;
      log := log + [Posting(now, role, text, repeatOf)];
      messages := messages + [Message(lastId, role, text, repeatOf, clock, false, 0)];
      if |messages| > CHAT_KEEP { messages := messages[|messages| - CHAT_KEEP..]; }
    }

    method BumpNag(id: nat, at: int)
      modifies this`messages
      ensures View() == Bump(old(View()), id, at)
    {
      ghost var start := messages;
      for i := 0 to |messages|
        invariant |messages| == |start|
        invariant forall k :: 0 <= k < |start| ==> messages[k] == if k < i then BumpRow(start[k], id, at) else start[k]
      {
        if messages[i].id == id {
          messages := messages[i := messages[i].(clock := Some(at), nags := messages[i].nags + 1)];
        }
      }
    }

    /** The rows of one chain that were not acknowledged yet. */
    method AcknowledgeChain(root: nat) returns (changed: bool)
      modifies this`messages
      ensures View() == AckChain(old(View()), root)
      ensures changed <==> HasOpen(old(messages), root)
    {
      ghost var t := View();
      changed := false;
      for i := 0 to |messages|
        invariant |messages| == |t.messages|
        invariant forall k :: 0 <= k < |t.messages| ==>
                    messages[k] == if k < i then AckRow(t.messages[k], root) else t.messages[k]
        invariant changed <==> HasOpen(t.messages[..i], root)
      {
        assert t.messages[..i + 1] == t.messages[..i] + [t.messages[i]];
        OpenOneMore(t.messages[..i], t.messages[i], root);
        if InChain(messages[i], root) && !messages[i].acked {
          messages := messages[i := messages[i].(acked := true, clock := None)];
          changed := true;
        }
      }
      assert t.messages[..|t.messages|] == t.messages;
      assert messages == AckChain(t, root).messages;
    }

    /** ack_chat_message: false when there is no such alert or its chain was already acknowledged. */
    method AckChatMessage(id: nat) returns (acked: bool)
      requires Valid()
      modifies this`messages
      ensures Valid() && View() == Ack(old(View()), id)
      ensures var f := Find(old(messages), id);
              acked <==> f < |old(messages)| && HasOpen(old(messages), Root(old(messages)[f]))
    {
      AckIsQuieter(View(), id);
      QuieterKeepsSound(View(), Ack(View(), id));
      var f := Find(messages, id);
      if f == |messages| { return false; }
      acked := AcknowledgeChain(Root(messages[f]));
    }

    /** ack_all_chat_alerts: how many alerts it acknowledged. */
    method AckAllChatAlerts() returns (acknowledged: nat)
      requires Valid()
      modifies this`messages
      ensures Valid() && View() == AckAll(old(View()))
      ensures acknowledged == OpenAlerts(old(messages))
    {
      AckAllIsQuieter(View());
      QuieterKeepsSound(View(), AckAll(View()));
      acknowledged := AcknowledgeEach();
    }

    method AcknowledgeEach() returns (acknowledged: nat)
      modifies this`messages
      ensures View() == AckAll(old(View()))
      ensures acknowledged == OpenAlerts(old(messages))
    {
      ghost var t := View();
      acknowledged := 0;
      for i := 0 to |messages|
        invariant |messages| == |t.messages|
        invariant forall k :: 0 <= k < |t.messages| ==>
                    messages[k] == if k < i then AckAlert(t.messages[k]) else t.messages[k]
        invariant acknowledged == OpenAlerts(t.messages[..i])
      {
        assert t.messages[..i + 1][..i] == t.messages[..i];
        if messages[i].role == Alert && !messages[i].acked {
          messages := messages[i := messages[i].(acked := true, clock := None)];
          acknowledged := acknowledged + 1;
        }
      }
      assert t.messages[..|t.messages|] == t.messages;
      assert messages == AckAll(t).messages;
    }

    method ClearChat()
      requires Valid()
      modifies this
      ensures Valid() && View() == Clear(old(View()))
    {
      ClearKeepsSound(View());
      messages, cleared := [], |log|;
    }

    /** The fetched alerts, one repeat and one bump each. */
    method RepeatEach(due: seq<Message>, now: int)
      requires lastId == |log|
      modifies this
      ensures lastId == |log| && View() == RepeatAll(old(View()), due, now)
    {
      for i := 0 to |due|
        invariant lastId == |log|
        invariant View() == RepeatAll(old(View()), due[..i], now)
      {
        assert due[..i + 1][..i] == due[..i];
        AddChatMessage(Alert, RepeatText(due[i].text), None, Some(due[i].id), now);
        BumpNag(due[i].id, now + NAG_INTERVAL);
      }
      assert due[..|due|] == due;
    }

    /** run_nags. */
    method RunNags(now: int) returns (posted: nat)
      requires Valid()
      modifies this
      ensures Valid() && View() == Pass(old(View()), now)
      ensures var waiting := Waiting(old(messages), now); posted == if |waiting| <= 20 then |waiting| else 20
    {
      PassKeepsSound(View(), now);
      FetchedAreWaiting(View(), now, 0);
      var due := DueNags(messages, now);
      RepeatEach(due, now);
      posted := |due|;
    }
  }
}
