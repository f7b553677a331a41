/** The rows of one user's store: courses, tasks, task history, reminders, and the delivery rounds that
    dispatch records. Rows are never deleted, so a row's id is its position. */
module Records {
  import opened Text
  import opened Instants
  import opened ReminderPlan

  datatype Status = Discovered | ActionRequired | Targeted | Completed | Missed | Cancelled | Archived

  datatype Source = Coursework | Announcement | Material | Manual

  datatype Decision = Relevant | OtherSection | Unknown

  /** Unjudged is the column default, which every decision differs from. */
  datatype Relevance = Unjudged | Judged(decision: Decision, reason: Option<string>)

  datatype Course = Course(externalId: string, name: string, section: Option<string>, state: string,
                           createdAt: Instant, updatedAt: Instant)

  datatype Task = Task(
    course: nat, source: Source, externalId: Option<string>, title: string, description: Option<string>,
    link: Option<string>, deadline: Option<Instant>, personal: Option<string>, sourceUpdated: Option<string>,
    status: Status, relevance: Relevance, createdAt: Instant, updatedAt: Instant,
    completedAt: Option<Instant>, missedAt: Option<Instant>, cancelledAt: Option<Instant>)

  datatype Change =
    | Created(title: string)
    | TitleChanged(oldTitle: string, newTitle: string)
    | DescriptionChanged(oldDescription: Option<string>, newDescription: Option<string>)
    | LinkChanged(oldLink: Option<string>, newLink: Option<string>)
    | DeadlineMoved(oldDeadline: Option<Instant>, newDeadline: Option<Instant>)
    | PersonalSet(oldPersonal: Option<string>, newPersonal: string)
    | StatusSet(oldStatus: Option<Status>, newStatus: Status)
    | RelevanceSet(oldRelevance: Relevance, newRelevance: Relevance)

  datatype HistoryRow = HistoryRow(task: nat, at: Instant, change: Change)

  /** What a reminder is anchored to: the task as such, or one deadline of it (None: the deadline was removed). */
  datatype Anchor = WholeTask | ToDeadline(deadline: Option<Instant>)

  /** The parts of an idempotency key; the first two are also the task_id and reminder_type columns. */
  datatype Key = Key(task: nat, kind: ReminderType, anchor: Anchor)

  datatype ReminderState = Pending | Sent | Failed | Withdrawn

  datatype Reminder = Reminder(key: Key, scheduledFor: int, state: ReminderState, attempts: nat,
                               nextRetry: Option<int>, sentAt: Option<Instant>, createdAt: Instant)

  /** One delivery round of a reminder: the answer of every configured provider. */
  datatype Round = Round(reminder: nat, at: Instant, answers: seq<bool>)

  datatype Db = Db(courses: seq<Course>, tasks: seq<Task>, history: seq<HistoryRow>,
                   reminders: seq<Reminder>, rounds: seq<Round>)

  const PERSONAL_COURSE := "__personal__"

  /** A status that no longer takes reminders. */
  predicate Closed(s: Status) {
    s in {Completed, Cancelled, Missed}
  }

  /** A course whose items are synced and whose reminders are sent. */
  predicate Live(state: string) {
    state == "ACTIVE" || state == "PROVISIONED"
  }

  // ------------------------------------------------------- idempotency keys

  function TypeName(kind: ReminderType): (s: string)
    ensures s != "" && Without(s, ':')
  {
    match kind
    case NewAssignment => "NEW_ASSIGNMENT"
    case TMinus7D => "T_MINUS_7D"
    case TMinus5D => "T_MINUS_5D"
    case TMinus2D => "T_MINUS_2D"
    case TMinus1D => "T_MINUS_1D"
    case DueToday => "DUE_TODAY"
    case FewHours => "FEW_HOURS"
    case Midpoint => "MIDPOINT"
    case Final1H => "FINAL_1H"
    case DeadlineReached => "DEADLINE_REACHED"
    case DeadlineChanged => "DEADLINE_CHANGED"
    case NewAnnouncement => "NEW_ANNOUNCEMENT"
    case NewMaterial => "NEW_MATERIAL"
  }

  function DeadlineText(deadline: Option<Instant>): string {
    match deadline
    case None => "None"
    case Some(t) => UtcIso(t)
  }

  /** The text stored in the unique column: task and type, and the deadline for a reminder anchored to one. */
  function KeyText(key: Key): string {
    IntText(key.task) + [':'] +
    (match key.anchor
     case WholeTask => TypeName(key.kind)
     case ToDeadline(deadline) => TypeName(key.kind) + [':'] + DeadlineText(deadline))
  }

  lemma TypeNameInjective(k: ReminderType, l: ReminderType)
    requires TypeName(k) == TypeName(l)
    ensures k == l
  {
    var a, b := TypeName(k), TypeName(l);
    assert |a| == |b| && a[0] == b[0] && a[2] == b[2] && a[4] == b[4] && a[|a| - 2] == b[|b| - 2];
  }

  lemma DeadlineTextInjective(a: Option<Instant>, b: Option<Instant>)
    requires DeadlineText(a) == DeadlineText(b)
    ensures a == b
  {
    if a.Some? { UtcIsoEnds(a.value); }
    if b.Some? { UtcIsoEnds(b.value); }
    if a.Some? && b.Some? { UtcIsoInjective(a.value, b.value); }
  }

  /** The parts of a key text between its colons. */
  lemma KeyTextParts(key: Key)
    ensures var parts := SplitOn(KeyText(key), ':');
            && |parts| >= 2 && parts[0] == IntText(key.task) && parts[1] == TypeName(key.kind)
            && (|parts| == 2 <==> key.anchor.WholeTask?)
    ensures key.anchor.ToDeadline? ==>
              KeyText(key)[|IntText(key.task)| + 1 + |TypeName(key.kind)| + 1..] == DeadlineText(key.anchor.deadline)
  {
    var id, kind := IntText(key.task), TypeName(key.kind);
    if key.anchor.WholeTask? {
      SplitOnHead(id, ':', kind);
      SplitOnNone(kind, ':');
    } else {
      var deadline := DeadlineText(key.anchor.deadline);
      SplitOnHead(id, ':', kind + [':'] + deadline);
      SplitOnHead(kind, ':', deadline);
      assert KeyText(key) == id + [':'] + kind + [':'] + deadline;
    }
  }

  /** Distinct keys have distinct texts, so the unique column is a unique key. */
  lemma KeyTextInjective(k: Key, l: Key)
    requires KeyText(k) == KeyText(l)
    ensures k == l
  {
    KeyTextParts(k);
    KeyTextParts(l);
    NumberOfIntText(k.task);
    NumberOfIntText(l.task);
    TypeNameInjective(k.kind, l.kind);
    if k.anchor.ToDeadline? {
      DeadlineTextInjective(k.anchor.deadline, l.anchor.deadline);
    }
  }
}
