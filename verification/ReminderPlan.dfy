/** The fixed set of reminders a deadline gets (ragra/reminders/engine.py). */
module ReminderPlan {
  import opened Text
  import opened Instants

  datatype ReminderType =
    | NewAssignment | TMinus7D | TMinus5D | TMinus2D | TMinus1D | DueToday | FewHours | Midpoint | Final1H
    | DeadlineReached | DeadlineChanged | NewAnnouncement | NewMaterial

  datatype Planned = Planned(kind: ReminderType, at: int)

  /** Half of a timedelta: exact halves of a microsecond go to the even neighbour. */
  function HalfEven(n: nat): nat {
    if n % 2 == 0 then n / 2 else if n / 2 % 2 == 0 then n / 2 else n / 2 + 1
  }

  /** When a task discovered at `found` with this deadline gets a reminder of a kind, if it ever does. */
  function Wanted(kind: ReminderType, deadline: int, found: int): Option<int> {
    var lead := deadline - found;
    if lead <= 0 then None
    else
      match kind
      case NewAssignment => Some(found)
      case TMinus7D => if lead > 7 * DAY then Some(deadline - 7 * DAY) else None
      case TMinus5D => if lead > 5 * DAY then Some(deadline - 5 * DAY) else None
      case TMinus2D => if lead > 2 * DAY then Some(deadline - 2 * DAY) else None
      case TMinus1D => if DAY < lead < 2 * DAY then Some(deadline - DAY) else None
      case DueToday =>
        if lead >= 2 * DAY && Morning(deadline) < deadline then Some(Morning(deadline)) else None
      case FewHours => if DAY <= lead < 2 * DAY then Some(deadline - 3 * HOUR) else None
      case Midpoint => if lead < DAY && HalfEven(lead) > 5 * MINUTE then Some(found + HalfEven(lead)) else None
      case Final1H => if lead > HOUR then Some(deadline - HOUR) else None
      case DeadlineReached => Some(deadline)
      case _ => None
  }

  function If(wanted: bool, p: Planned): seq<Planned> {
    if wanted then [p] else []
  }

  /** _same_day_morning: eight o'clock on the day of the deadline. */
  function Morning(deadline: int): int {
    deadline - deadline % DAY + 8 * HOUR
  }

  /** Two days or more away: the days before, the morning, the last hour. */
  function Far(deadline: int, found: int): seq<Planned> {
    var lead := deadline - found;
    If(lead > 7 * DAY, Planned(TMinus7D, deadline - 7 * DAY))
    + If(lead > 5 * DAY, Planned(TMinus5D, deadline - 5 * DAY))
    + If(lead > 2 * DAY, Planned(TMinus2D, deadline - 2 * DAY))
    + If(Morning(deadline) < deadline, Planned(DueToday, Morning(deadline)))
    + [Planned(Final1H, deadline - HOUR)]
  }

  /** One to two days away. */
  function Near(deadline: int, found: int): seq<Planned> {
    If(deadline - found > DAY, Planned(TMinus1D, deadline - DAY))
    + [Planned(FewHours, deadline - 3 * HOUR)] + [Planned(Final1H, deadline - HOUR)]
  }

  /** Less than a day away. */
  function Short(deadline: int, found: int): seq<Planned>
    requires deadline > found
  {
    var half := HalfEven(deadline - found);
    If(half > 5 * MINUTE, Planned(Midpoint, found + half))
    + If(deadline - found > HOUR, Planned(Final1H, deadline - HOUR))
  }

  /** What falls between discovery and deadline, by lead time. */
  function Countdown(deadline: int, found: int): seq<Planned>
    requires deadline > found
  {
    if deadline - found >= 2 * DAY then Far(deadline, found)
    else if deadline - found >= DAY then Near(deadline, found)
    else Short(deadline, found)
  }

  function Plan(deadline: int, found: int): seq<Planned> {
    if deadline <= found then []
    else [Planned(NewAssignment, found)] + Countdown(deadline, found) + [Planned(DeadlineReached, deadline)]
  }

  lemma CountdownHoldsWanted(deadline: int, found: int, p: Planned)
    requires deadline > found
    ensures p in Countdown(deadline, found) <==>
            p.kind !in {NewAssignment, DeadlineReached} && Wanted(p.kind, deadline, found) == Some(p.at)
  {
  }

  /** The plan holds exactly the wanted reminders. */
  lemma PlanHoldsWanted(deadline: int, found: int, p: Planned)
    ensures p in Plan(deadline, found) <==> Wanted(p.kind, deadline, found) == Some(p.at)
  {
    if deadline > found {
      CountdownHoldsWanted(deadline, found, p);
      var c := Countdown(deadline, found);
      assert Plan(deadline, found) == [Planned(NewAssignment, found)] + c + [Planned(DeadlineReached, deadline)];
    }
  }

  /** What a plan never holds, and when its ends fire. */
  lemma PlannedKinds(deadline: int, found: int, p: Planned)
    requires p in Plan(deadline, found)
    ensures p.kind !in {DeadlineChanged, NewAnnouncement, NewMaterial}
    ensures p.kind == DeadlineReached ==> p.at == deadline
    ensures p.kind == NewAssignment ==> p.at == found
    ensures found < deadline
  {
    PlanHoldsWanted(deadline, found, p);
  }

  /** The position of a kind in a countdown. */
  function Rank(kind: ReminderType): nat {
    match kind
    case NewAssignment => 0
    case TMinus7D => 1
    case TMinus5D => 2
    case TMinus2D => 3
    case TMinus1D => 4
    case DueToday => 5
    case FewHours => 6
    case Midpoint => 7
    case Final1H => 8
    case _ => 9
  }

  /** Kinds in strictly rising positions, none past `top`. */
  predicate Rising(s: seq<Planned>, top: nat) {
    && (forall i :: 0 <= i < |s| ==> 0 < Rank(s[i].kind) <= top)
    && (forall i, j :: 0 <= i < j < |s| ==> Rank(s[i].kind) < Rank(s[j].kind))
  }

  lemma RisingAppend(s: seq<Planned>, top: nat, wanted: bool, p: Planned)
    requires Rising(s, top) && top < Rank(p.kind)
    ensures Rising(s + If(wanted, p), Rank(p.kind)) && |s + If(wanted, p)| <= |s| + 1
  {
  }

  lemma CountdownRises(deadline: int, found: int)
    requires deadline > found
    ensures Rising(Countdown(deadline, found), 8) && |Countdown(deadline, found)| <= 5
  {
    var lead := deadline - found;
    if lead >= 2 * DAY {
      FarRises(lead > 7 * DAY, lead > 5 * DAY, lead > 2 * DAY, Morning(deadline) < deadline, deadline);
    } else if lead >= DAY {
      NearRises(lead > DAY, deadline);
    } else {
      ShortRises(HalfEven(lead) > 5 * MINUTE, lead > HOUR, found + HalfEven(lead), deadline);
    }
  }

  lemma NearRises(b1: bool, deadline: int)
    ensures
      var c := If(b1, Planned(TMinus1D, deadline - DAY)) + [Planned(FewHours, deadline - 3 * HOUR)]
               + [Planned(Final1H, deadline - HOUR)];
      Rising(c, 8) && |c| <= 5
  {
  }

  lemma ShortRises(half: bool, hour: bool, midpoint: int, deadline: int)
    ensures
      var c := If(half, Planned(Midpoint, midpoint)) + If(hour, Planned(Final1H, deadline - HOUR));
      Rising(c, 8) && |c| <= 5
  {
  }

  lemma FarRises(b7: bool, b5: bool, b2: bool, late: bool, deadline: int)
    ensures
      var c := If(b7, Planned(TMinus7D, deadline - 7 * DAY)) + If(b5, Planned(TMinus5D, deadline - 5 * DAY))
               + If(b2, Planned(TMinus2D, deadline - 2 * DAY)) + If(late, Planned(DueToday, Morning(deadline)))
               + [Planned(Final1H, deadline - HOUR)];
      Rising(c, 8) && |c| <= 5
  {
    var s1 := If(b7, Planned(TMinus7D, deadline - 7 * DAY));
    var s2 := s1 + If(b5, Planned(TMinus5D, deadline - 5 * DAY));
    var s3 := s2 + If(b2, Planned(TMinus2D, deadline - 2 * DAY));
    var s4 := s3 + If(late, Planned(DueToday, Morning(deadline)));
    RisingAppend(s1, 1, b5, Planned(TMinus5D, deadline - 5 * DAY));
    RisingAppend(s2, 2, b2, Planned(TMinus2D, deadline - 2 * DAY));
    RisingAppend(s3, 3, late, Planned(DueToday, Morning(deadline)));
    RisingAppend(s4, 5, true, Planned(Final1H, deadline - HOUR));
  }

  lemma RisingKinds(c: seq<Planned>)
    requires Rising(c, 8)
    ensures forall i :: 0 <= i < |c| ==> c[i].kind !in {NewAssignment, DeadlineReached}
    ensures forall i, j :: 0 <= i < j < |c| ==> c[i].kind != c[j].kind
  {
    assert Rank(NewAssignment) == 0 && Rank(DeadlineReached) == 9;
  }

  lemma CountdownInside(deadline: int, found: int, i: nat)
    requires deadline > found && i < |Countdown(deadline, found)|
    ensures found <= Countdown(deadline, found)[i].at < deadline
  {
    CountdownHoldsWanted(deadline, found, Countdown(deadline, found)[i]);
  }

  /** The middle of the lead, to the even microsecond where there is none; and eight o'clock on the day of the
      deadline. */
  lemma MiddleAndMorning(deadline: int, found: int)
    requires found < deadline
    ensures var lead, half := deadline - found, HalfEven(deadline - found);
      && (lead % 2 == 0 ==> half + half == lead)
      && (lead % 2 == 1 ==> half % 2 == 0 && (half + half == lead - 1 || half + half == lead + 1))
    ensures Morning(deadline) / DAY == deadline / DAY && Morning(deadline) % DAY == 8 * HOUR
  {
  }

  /** When a plan has a midpoint, and where. */
  lemma MidpointExactly(deadline: int, found: int, p: Planned)
    requires p.kind == Midpoint
    ensures p in Plan(deadline, found) <==>
            && 0 < deadline - found < DAY && p.at - found > 5 * MINUTE
            && -1 <= (p.at - found) - (deadline - p.at) <= 1
            && ((deadline - found) % 2 == 1 ==> (p.at - found) % 2 == 0)
  {
    PlanHoldsWanted(deadline, found, p);
    if found < deadline {
      MiddleAndMorning(deadline, found);
      OnlyMiddle(deadline - found, HalfEven(deadline - found), p.at - found);
    }
  }

  /** When a plan has a reminder on the day itself, and when in it. */
  lemma DueTodayExactly(deadline: int, found: int, p: Planned)
    requires p.kind == DueToday
    ensures p in Plan(deadline, found) <==>
            deadline - found >= 2 * DAY && p.at < deadline && p.at / DAY == deadline / DAY && p.at % DAY == 8 * HOUR
  {
    PlanHoldsWanted(deadline, found, p);
    MorningIsOnly(deadline, p.at);
    if found + 2 * DAY <= deadline { assert found < Morning(deadline); }
  }

  lemma MorningIsOnly(deadline: int, at: int)
    ensures at == Morning(deadline) <==> at / DAY == deadline / DAY && at % DAY == 8 * HOUR
  {
    assert deadline == deadline / DAY * DAY + deadline % DAY && at == at / DAY * DAY + at % DAY;
    if at == Morning(deadline) { InDay(deadline / DAY, 8 * HOUR); }
  }

  lemma InDay(day: int, time: int)
    requires 0 <= time < DAY
    ensures (day * DAY + time) / DAY == day && (day * DAY + time) % DAY == time
  {
  }

  lemma OnlyMiddle(lead: int, half: int, x: int)
    requires lead % 2 == 0 ==> half + half == lead
    requires lead % 2 == 1 ==> half % 2 == 0 && (half + half == lead - 1 || half + half == lead + 1)
    ensures x == half <==> -1 <= x - (lead - x) <= 1 && (lead % 2 == 1 ==> x % 2 == 0)
  {
  }

  /** Empty exactly when the deadline is not after discovery; otherwise discovery first, at most five
      countdown reminders inside [discovery, deadline), the deadline itself last, and no kind twice. */
  lemma PlanShape(deadline: int, found: int)
    ensures Plan(deadline, found) == [] <==> deadline <= found
    ensures forall i, j :: 0 <= i < j < |Plan(deadline, found)| ==>
              Plan(deadline, found)[i].kind != Plan(deadline, found)[j].kind
    ensures deadline > found ==>
      var plan := Plan(deadline, found);
      && 2 <= |plan| <= 7
      && plan[0] == Planned(NewAssignment, found)
      && plan[|plan| - 1] == Planned(DeadlineReached, deadline)
      && forall i :: 0 < i < |plan| - 1 ==> found <= plan[i].at < deadline
  {
    if deadline > found {
      var c := Countdown(deadline, found);
      CountdownRises(deadline, found);
      forall i | 0 <= i < |c| ensures found <= c[i].at < deadline { CountdownInside(deadline, found, i); }
      FramedShape([Planned(NewAssignment, found)] + c + [Planned(DeadlineReached, deadline)], c, deadline, found);
    }
  }

  lemma FramedShape(plan: seq<Planned>, c: seq<Planned>, deadline: int, found: int)
    requires plan == [Planned(NewAssignment, found)] + c + [Planned(DeadlineReached, deadline)]
    requires Rising(c, 8) && |c| <= 5 && forall i :: 0 <= i < |c| ==> found <= c[i].at < deadline
    ensures forall i, j :: 0 <= i < j < |plan| ==> plan[i].kind != plan[j].kind
    ensures 2 <= |plan| <= 7
    ensures plan[0] == Planned(NewAssignment, found) && plan[|plan| - 1] == Planned(DeadlineReached, deadline)
    ensures forall i :: 0 < i < |plan| - 1 ==> found <= plan[i].at < deadline
  {
    RisingKinds(c);
    forall i | 0 < i < |plan| - 1 ensures plan[i] == c[i - 1] {}
  }

  /** The entries that fire at or after discovery and strictly before the deadline, in order. */
  function Future(plan: seq<Planned>, deadline: int, found: int): seq<Planned> {
    if plan == [] then []
    else
      var p := plan[|plan| - 1];
      Future(plan[..|plan| - 1], deadline, found) + If(found <= p.at < deadline, p)
  }

  lemma FutureAppend(plan: seq<Planned>, p: Planned, deadline: int, found: int)
    ensures Future(plan + [p], deadline, found) == Future(plan, deadline, found) + If(found <= p.at < deadline, p)
  {
    assert (plan + [p])[..|plan|] == plan;
  }

  lemma FutureStart(deadline: int, found: int)
    requires found < deadline
    ensures Future([Planned(NewAssignment, found)], deadline, found) == [Planned(NewAssignment, found)] + []
  {
    FutureAppend([], Planned(NewAssignment, found), deadline, found);
    assert [] + [Planned(NewAssignment, found)] == [Planned(NewAssignment, found)];
  }

  /** plan.append(p); `kept` is what the final filter keeps of the list beyond the discovery entry. */
  method Append(plan: seq<Planned>, p: Planned, ghost kept: seq<Planned>, ghost deadline: int, ghost found: int)
    returns (longer: seq<Planned>, ghost kept': seq<Planned>)
    requires Future(plan, deadline, found) == [Planned(NewAssignment, found)] + kept
    ensures longer == plan + [p]
    ensures kept' == kept + If(found <= p.at < deadline, p)
    ensures Future(longer, deadline, found) == [Planned(NewAssignment, found)] + kept'
  {
    FutureAppend(plan, p, deadline, found);
    longer := plan + [p];
    kept' := kept + If(found <= p.at < deadline, p);
    assert [Planned(NewAssignment, found)] + kept' ==
           [Planned(NewAssignment, found)] + kept + If(found <= p.at < deadline, p);
  }

  /** One guarded append of an entry that lies between discovery and deadline. */
  method AppendIf(wanted: bool, plan: seq<Planned>, p: Planned, ghost kept: seq<Planned>, ghost deadline: int,
                  ghost found: int)
    returns (longer: seq<Planned>, ghost kept': seq<Planned>)
    requires Future(plan, deadline, found) == [Planned(NewAssignment, found)] + kept
    requires wanted ==> found <= p.at < deadline
    ensures kept' == kept + If(wanted, p)
    ensures Future(longer, deadline, found) == [Planned(NewAssignment, found)] + kept'
  {
    longer, kept' := plan, kept;
    if wanted { longer, kept' := Append(plan, p, kept, deadline, found); }
  }

  const CADENCE: seq<(int, ReminderType)> := [(7, TMinus7D), (5, TMinus5D), (2, TMinus2D)]

  /** The first n entries of the cadence, those still ahead at discovery. */
  function Cadence(deadline: int, found: int, n: nat): seq<Planned>
    requires n <= |CADENCE|
  {
    if n == 0 then []
    else
      var (days, kind) := CADENCE[n - 1];
      Cadence(deadline, found, n - 1) + If(deadline - found > days * DAY, Planned(kind, deadline - days * DAY))
  }

  lemma WholeCadence(deadline: int, found: int)
    ensures Cadence(deadline, found, 3) == If(deadline - found > 7 * DAY, Planned(TMinus7D, deadline - 7 * DAY))
                                           + If(deadline - found > 5 * DAY, Planned(TMinus5D, deadline - 5 * DAY))
                                           + If(deadline - found > 2 * DAY, Planned(TMinus2D, deadline - 2 * DAY))
  {
    assert Cadence(deadline, found, 0) == [];
    assert Cadence(deadline, found, 1) == If(deadline - found > 7 * DAY, Planned(TMinus7D, deadline - 7 * DAY));
    assert Cadence(deadline, found, 2) ==
           Cadence(deadline, found, 1) + If(deadline - found > 5 * DAY, Planned(TMinus5D, deadline - 5 * DAY));
  }

  /** The 7, 5 and 2 day entries still ahead at discovery. */
  method AppendCadence(start: seq<Planned>, deadline: int, found: int)
    returns (plan: seq<Planned>, ghost kept: seq<Planned>)
    requires Future(start, deadline, found) == [Planned(NewAssignment, found)] + []
    ensures Future(plan, deadline, found) == [Planned(NewAssignment, found)] + kept
    ensures kept == Cadence(deadline, found, 3)
  {
    plan, kept := start, [];
    for k := 0 to |CADENCE|
      invariant Future(plan, deadline, found) == [Planned(NewAssignment, found)] + kept
      invariant kept == Cadence(deadline, found, k)
    {
      var candidate := deadline - CADENCE[k].0 * DAY;
      plan, kept := AppendIf(candidate > found, plan, Planned(CADENCE[k].1, candidate), kept, deadline, found);
    }
  }

  /** The morning of a due day two days off or more is not before discovery. */
  lemma MorningAfter(deadline: int, found: int)
    requires deadline - found >= 2 * DAY
    ensures found <= Morning(deadline)
  {
  }

  method AppendFar(start: seq<Planned>, deadline: int, found: int) returns (plan: seq<Planned>)
    requires deadline - found >= 2 * DAY
    requires Future(start, deadline, found) == [Planned(NewAssignment, found)] + []
    ensures Future(plan, deadline, found) == [Planned(NewAssignment, found)] + Far(deadline, found)
  {
    ghost var kept;
    plan, kept := AppendCadence(start, deadline, found);
    WholeCadence(deadline, found);
    MorningAfter(deadline, found);
    plan, kept := Append(plan, Planned(DueToday, Morning(deadline)), kept, deadline, found);
    plan, kept := Append(plan, Planned(Final1H, deadline - HOUR), kept, deadline, found);
  }

  method AppendNear(start: seq<Planned>, deadline: int, found: int) returns (plan: seq<Planned>)
    requires DAY <= deadline - found < 2 * DAY
    requires Future(start, deadline, found) == [Planned(NewAssignment, found)] + []
    ensures Future(plan, deadline, found) == [Planned(NewAssignment, found)] + Near(deadline, found)
  {
    ghost var kept := [];
    plan := start;
    if deadline - DAY > found {
      plan, kept := Append(plan, Planned(TMinus1D, deadline - DAY), kept, deadline, found);
    }
    assert kept == If(deadline - found > DAY, Planned(TMinus1D, deadline - DAY));
    plan, kept := Append(plan, Planned(FewHours, deadline - 3 * HOUR), kept, deadline, found);
    plan, kept := Append(plan, Planned(Final1H, deadline - HOUR), kept, deadline, found);
  }

  method AppendShort(start: seq<Planned>, deadline: int, found: int) returns (plan: seq<Planned>)
    requires 0 < deadline - found < DAY
    requires Future(start, deadline, found) == [Planned(NewAssignment, found)] + []
    ensures Future(plan, deadline, found) == [Planned(NewAssignment, found)] + Short(deadline, found)
  {
    var half := HalfEven(deadline - found);
    plan := AppendHalf(start, half, deadline, found);
  }

  method AppendHalf(start: seq<Planned>, half: nat, deadline: int, found: int) returns (plan: seq<Planned>)
    requires half < deadline - found
    requires Future(start, deadline, found) == [Planned(NewAssignment, found)] + []
    ensures Future(plan, deadline, found) ==
            [Planned(NewAssignment, found)] + (If(half > 5 * MINUTE, Planned(Midpoint, found + half))
                                               + If(deadline - found > HOUR, Planned(Final1H, deadline - HOUR)))
  {
    ghost var kept;
    plan, kept := AppendIf(half > 5 * MINUTE, start, Planned(Midpoint, found + half), [], deadline, found);
    assert [] + If(half > 5 * MINUTE, Planned(Midpoint, found + half)) == kept;
    plan, kept := AppendIf(deadline - found > HOUR, plan, Planned(Final1H, deadline - HOUR), kept, deadline, found);
  }

  method AppendCountdown(start: seq<Planned>, deadline: int, found: int) returns (plan: seq<Planned>)
    requires deadline > found
    requires Future(start, deadline, found) == [Planned(NewAssignment, found)] + []
    ensures Future(plan, deadline, found) == [Planned(NewAssignment, found)] + Countdown(deadline, found)
  {
    var lead := deadline - found;
    if lead >= 2 * DAY {
      plan := AppendFar(start, deadline, found);
    } else if lead >= DAY {
      plan := AppendNear(start, deadline, found);
    } else {
      plan := AppendShort(start, deadline, found);
    }
  }

  /** compute_reminder_plan: append by lead time, drop what is not in the future, then add the end. */
  method ComputeReminderPlan(deadline: int, found: int) returns (plan: seq<Planned>)
    ensures plan == Plan(deadline, found)
  {
    var lead := deadline - found;
    if lead <= 0 {
      return [];
    }
    plan := [Planned(NewAssignment, found)];
    FutureStart(deadline, found);
    plan := AppendCountdown(plan, deadline, found);
    plan := Future(plan, deadline, found) + [Planned(DeadlineReached, deadline)];
  }
}
