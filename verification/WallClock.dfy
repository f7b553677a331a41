/** Campus wall-clock times and UTC instants (ragra/tz.py), for a zone with one offset transition. Wall
    times and instants are microsecond counts; a day is the floor of a wall time in days. */
module WallClock {
  import opened Instants

  /** Offset `before` until the instant `at`, offset `after` from it on. */
  datatype Zone = Zone(before: int, after: int, at: int)

  function Max(a: int, b: int): int {
    if a < b then b else a
  }

  function Min(a: int, b: int): int {
    if a < b then a else b
  }

  function OffsetAt(z: Zone, u: int): int {
    if u < z.at then z.before else z.after
  }

  /** utcoffset of a wall time: the transition is read off the wall clock, at its late end for fold 0 and at
      its early end for fold 1. */
  function OffsetOf(z: Zone, wall: int, fold: bool): int {
    if wall < z.at + (if fold then Min(z.before, z.after) else Max(z.before, z.after)) then z.before else z.after
  }

  function ToLocal(z: Zone, u: int): int {
    u + OffsetAt(z, u)
  }

  function ToUtc(z: Zone, wall: int): int {
    wall - OffsetOf(z, wall, false)
  }

  /** is_nonexistent: the wall time does not survive the trip through UTC. */
  predicate IsNonexistent(z: Zone, wall: int) {
    ToLocal(z, ToUtc(z, wall)) != wall
  }

  /** combine_local: a wall time in a gap moves forward by the size of the gap. */
  function CombineLocal(z: Zone, day: int, time: int): int {
    var wall := day * DAY + time;
    if IsNonexistent(z, wall) then wall + (OffsetOf(z, wall, true) - OffsetOf(z, wall, false)) else wall
  }

  /** Some instant shows this wall time. */
  ghost predicate Real(z: Zone, wall: int) {
    exists u :: ToLocal(z, u) == wall
  }

  /** The round-trip test finds exactly the wall times no instant shows, and those are the gap. */
  lemma NonexistentIsUnreal(z: Zone, wall: int)
    ensures IsNonexistent(z, wall) <==> !Real(z, wall)
    ensures IsNonexistent(z, wall) <==> z.at + z.before <= wall < z.at + z.after
  {
    if !IsNonexistent(z, wall) { assert ToLocal(z, ToUtc(z, wall)) == wall; }
  }

  /** A combined wall time always exists. A real one is kept and means its earliest instant; one in the gap
      moves by exactly the gap. */
  lemma CombineLocalIsReal(z: Zone, day: int, time: int)
    ensures
      var wall, combined := day * DAY + time, CombineLocal(z, day, time);
      && ToLocal(z, ToUtc(z, combined)) == combined
      && (Real(z, wall) ==> combined == wall)
      && (!Real(z, wall) ==> combined == wall + (z.after - z.before) && z.after > z.before)
      && forall u :: ToLocal(z, u) == combined ==> ToUtc(z, combined) <= u
  {
    NonexistentIsUnreal(z, day * DAY + time);
  }

  // --------------------------------------------------------- local day bounds

  function LocalDay(z: Zone, u: int): int {
    ToLocal(z, u) / DAY
  }

  /** The instant a local day starts at. */
  function DayStart(z: Zone, day: int): int {
    ToUtc(z, CombineLocal(z, day, 0))
  }

  /** One microsecond, in wall time, before the next midnight. */
  function DayEnd(z: Zone, day: int): int {
    ToUtc(z, CombineLocal(z, day + 1, 0) - 1)
  }

  function LocalDayBounds(z: Zone, u: int): (r: (int, int))
    ensures r == (DayStart(z, LocalDay(z, u)), DayEnd(z, LocalDay(z, u)))
  {
    var day := LocalDay(z, u);
    (DayStart(z, day), DayEnd(z, day))
  }

  /** The midnight between two days is where the clock starts to jump, or where a gap ends. */
  predicate TransitionAtMidnight(z: Zone, midnight: int) {
    z.before != z.after && (midnight == z.at + z.before || (z.before < z.after && midnight == z.at + z.after))
  }

  /** A day ends one microsecond before the next one starts exactly when the clock does not start to jump,
      or end a gap, at the midnight between them. */
  lemma DaysTile(z: Zone, day: int)
    ensures DayEnd(z, day) + 1 == DayStart(z, day + 1) <==> !TransitionAtMidnight(z, (day + 1) * DAY)
  {
    NonexistentIsUnreal(z, (day + 1) * DAY);
  }

  /** The instants their own day's bounds leave out: the second pass over a day that the clock falls back
      into, and the start of a day whose midnight lies inside a gap. */
  predicate OutsideItsDay(z: Zone, u: int) {
    var midnight := LocalDay(z, u) * DAY;
    || (z.after < z.before && z.at <= u && midnight + DAY <= z.at + z.before)
    || (z.before < z.after && z.at <= u < midnight - z.before && z.at + z.before < midnight < z.at + z.after)
  }

  /** The bounds of the local day contain the instant they were computed from, exactly with those exceptions. */
  lemma BoundsContainInstant(z: Zone, u: int)
    ensures
      var (start, end) := LocalDayBounds(z, u);
      start <= u <= end <==> !OutsideItsDay(z, u)
  {
    var day, local := LocalDay(z, u), ToLocal(z, u);
    assert day * DAY <= local < day * DAY + DAY;
    assert (day + 1) * DAY == day * DAY + DAY;
    NonexistentIsUnreal(z, day * DAY);
    NonexistentIsUnreal(z, day * DAY + DAY);
  }

  /** No gap or overlap reaches a local midnight. */
  ghost predicate ClearOfMidnight(z: Zone) {
    z.before == z.after || forall day: int :: MidnightIsClear(z, day)
  }

  predicate MidnightIsClear(z: Zone, day: int) {
    day * DAY < z.at + Min(z.before, z.after) || z.at + Max(z.before, z.after) < day * DAY
  }

  /** Away from midnight the bounds are what they are meant to be: every instant lies within the bounds of
      its own local day and of no other, and each day ends where the next begins. */
  lemma DaysPartitionTime(z: Zone, u: int, day: int)
    requires ClearOfMidnight(z)
    ensures DayStart(z, day) <= u <= DayEnd(z, day) <==> day == LocalDay(z, u)
    ensures DayEnd(z, day) + 1 == DayStart(z, day + 1)
  {
    assert z.before != z.after ==> MidnightIsClear(z, day) && MidnightIsClear(z, day + 1);
    DaysTile(z, day);
    var local := ToLocal(z, u);
    assert day == LocalDay(z, u) <==> day * DAY <= local < (day + 1) * DAY;
    NonexistentIsUnreal(z, day * DAY);
    NonexistentIsUnreal(z, (day + 1) * DAY);
  }

  // ----------------------------------------------------------------- examples

  /** A clock that goes forward by an hour at local midnight: the day before ends an hour after its successor
      has begun, and the first instant after the jump is in the bounds of two days. */
  lemma JumpAtMidnightOverlaps()
    ensures
      var z := Zone(0, HOUR, 10 * DAY);
      && TransitionAtMidnight(z, 10 * DAY)
      && DayEnd(z, 9) + 1 == DayStart(z, 10) + HOUR
      && DayStart(z, 9) <= 10 * DAY <= DayEnd(z, 9) && DayStart(z, 10) <= 10 * DAY <= DayEnd(z, 10)
  {
  }

  /** A clock that goes back from half past midnight to half past eleven: the instants of the second half hour
      are on the day before, and outside its bounds. */
  lemma SecondHalfHourIsOutside()
    ensures
      var z := Zone(HOUR, 0, 10 * DAY - HOUR / 2);
      var u := 10 * DAY - HOUR / 4;
      && OutsideItsDay(z, u) && LocalDay(z, u) == 9 && DayEnd(z, 9) < u
  {
  }

  /** A clock that goes forward from half past eleven to half past midnight: the first half hour of the new day
      is before its start. */
  lemma FirstHalfHourIsOutside()
    ensures
      var z := Zone(0, HOUR, 10 * DAY - HOUR / 2);
      var u := 10 * DAY - HOUR / 4;
      && OutsideItsDay(z, u) && LocalDay(z, u) == 10 && u < DayStart(z, 10)
  {
  }
}
