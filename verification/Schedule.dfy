/** Expanding weekly classes into the meetings of a window (ragra/timetable/schedule.py). Local days are
    counted from a Monday, so a day's weekday is its remainder by seven. */
module Schedule {
  import opened Text
  import opened Instants
  import opened WallClock
  import Sorting

  /** A weekly pattern; a time is None where the stored text is not a valid HH:MM. */
  datatype WeeklyClass = WeeklyClass(id: nat, courseName: string, dayOfWeek: int, start: Option<int>, end: Option<int>,
                                     cancelled: bool)

  datatype Occurrence = Occurrence(id: nat, courseName: string, day: int, startsAt: int, endsAt: int, cancelled: bool)

  datatype Expansion = Expanded(occurrences: seq<Occurrence>) | EmptyWindow | Malformed(at: nat)

  predicate Readable(c: WeeklyClass) {
    c.start.Some? && c.end.Some? && 0 <= c.start.value < DAY && 0 <= c.end.value < DAY
  }

  /** Both times are times of a day. */
  predicate HasTimes(c: WeeklyClass) {
    exists h, k :: c.start == Some(h) && c.end == Some(k) && 0 <= h < DAY && 0 <= k < DAY
  }

  function StartOf(z: Zone, c: WeeklyClass, day: int): int
    requires Readable(c)
  {
    ToUtc(z, CombineLocal(z, day, c.start.value))
  }

  /** A block whose end is not after its start runs past midnight. */
  function EndOf(z: Zone, c: WeeklyClass, day: int): int
    requires Readable(c)
  {
    ToUtc(z, CombineLocal(z, if c.end.value > c.start.value then day else day + 1, c.end.value))
  }

  function Meeting(z: Zone, c: WeeklyClass, day: int): Occurrence
    requires Readable(c)
  {
    Occurrence(c.id, c.courseName, day, StartOf(z, c, day), EndOf(z, c, day), c.cancelled)
  }

  /** The class meets on this day and starts inside the window. */
  predicate Meets(z: Zone, c: WeeklyClass, day: int, from: int, until: int)
    requires Readable(c)
  {
    day % 7 == c.dayOfWeek && from <= StartOf(z, c, day) <= until
  }

  /** The meetings of one class on the days first..last-1, in day order. */
  function MeetingsOn(z: Zone, c: WeeklyClass, first: int, last: int, from: int, until: int): seq<Occurrence>
    requires Readable(c)
    decreases last - first
  {
    if last <= first then []
    else MeetingsOn(z, c, first, last - 1, from, until)
         + (if Meets(z, c, last - 1, from, until) then [Meeting(z, c, last - 1)] else [])
  }

  /** Exactly the meeting days of the range, each once and in order. */
  lemma {:induction false} MeetingsAreExact(z: Zone, c: WeeklyClass, first: int, last: int, from: int, until: int)
    requires Readable(c)
    ensures forall o :: o in MeetingsOn(z, c, first, last, from, until) <==>
              first <= o.day < last && Meets(z, c, o.day, from, until) && o == Meeting(z, c, o.day)
    ensures forall i, j :: 0 <= i < j < |MeetingsOn(z, c, first, last, from, until)| ==>
              MeetingsOn(z, c, first, last, from, until)[i].day < MeetingsOn(z, c, first, last, from, until)[j].day
    decreases last - first
  {
    if first < last {
      MeetingsAreExact(z, c, first, last - 1, from, until);
      var before := MeetingsOn(z, c, first, last - 1, from, until);
      assert forall i :: 0 <= i < |before| ==> before[i] in before;
    }
  }

  /** The days the window touches, as the loop visits them. */
  function FirstDay(z: Zone, from: int): int {
    LocalDay(z, from)
  }

  function LastDay(z: Zone, until: int): int {
    LocalDay(z, until)
  }

  function MeetingsOfAll(z: Zone, classes: seq<WeeklyClass>, from: int, until: int): seq<Occurrence>
    requires forall i :: 0 <= i < |classes| ==> Readable(classes[i])
  {
    if classes == [] then []
    else MeetingsOfAll(z, classes[..|classes| - 1], from, until)
         + MeetingsOn(z, classes[|classes| - 1], FirstDay(z, from), LastDay(z, until) + 1, from, until)
  }

  /** Earlier start first, then the name of the course in code-point order. */
  predicate Earlier(a: Occurrence, b: Occurrence) {
    a.startsAt < b.startsAt || (a.startsAt == b.startsAt && LexLess(a.courseName, b.courseName))
  }

  lemma EarlierIsOrder()
    ensures Sorting.Ordering(Earlier)
  {
    forall x, y | Earlier(x, y) ensures !Earlier(y, x) {
      LexLessTotal(x.courseName, y.courseName);
    }
    forall x, y, z | !Earlier(y, x) && !Earlier(z, y) ensures !Earlier(z, x) {
      LexLessTotal(x.courseName, y.courseName);
      LexLessTotal(y.courseName, z.courseName);
      LexLessTotal(x.courseName, z.courseName);
      if x.startsAt == z.startsAt && LexLess(z.courseName, x.courseName) {
        if LexLess(x.courseName, y.courseName) { LexLessTransitive(z.courseName, x.courseName, y.courseName); }
      }
    }
  }

  /** expand_occurrences: class by class and day by day, then one sort. */
  method ExpandOccurrences(z: Zone, classes: seq<WeeklyClass>, from: int, until: int) returns (r: Expansion)
    ensures r.EmptyWindow? <==> until < from
    ensures from <= until && (forall i :: 0 <= i < |classes| ==> HasTimes(classes[i])) ==> r.Expanded?
    ensures r.Malformed? <==> from <= until && exists i :: 0 <= i < |classes| && !Readable(classes[i])
    ensures r.Malformed? ==>
              && r.at < |classes| && !Readable(classes[r.at])
              && (forall i :: 0 <= i < r.at ==> Readable(classes[i]))
    ensures r.Expanded? ==>
              && (forall i :: 0 <= i < |classes| ==> Readable(classes[i]))
              && r.occurrences == Sorting.Sort(MeetingsOfAll(z, classes, from, until), Earlier)
              && multiset(r.occurrences) == multiset(MeetingsOfAll(z, classes, from, until))
              && forall i, j :: 0 <= i < j < |r.occurrences| ==>
                   && r.occurrences[i].startsAt <= r.occurrences[j].startsAt
                   && (r.occurrences[i].startsAt == r.occurrences[j].startsAt ==>
                         !LexLess(r.occurrences[j].courseName, r.occurrences[i].courseName))
  {
    if until < from {
      return EmptyWindow;
    }
    var first, last := FirstDay(z, from), LastDay(z, until);
    var found: seq<Occurrence> := [];
    assert classes[..0] == [];
    for k := 0 to |classes|
      invariant forall i :: 0 <= i < k ==> Readable(classes[i])
      invariant found == MeetingsOfAll(z, classes[..k], from, until)
    {
      var c := classes[k];
      if !Readable(c) {
        return Malformed(k);
      }
      var day := first;
      ghost var before := found;
      while day <= last
        invariant found == before + MeetingsOn(z, c, first, day, from, until)
        invariant first <= day && (first <= last ==> day <= last + 1)
        invariant last < first ==> day == first
      {
        if day % 7 == c.dayOfWeek {
          var startsAt := StartOf(z, c, day);
          if from <= startsAt <= until {
            found := found + [Occurrence(c.id, c.courseName, day, startsAt, EndOf(z, c, day), c.cancelled)];
          }
        }
        day := day + 1;
      }
      assert classes[..k + 1][..k] == classes[..k];
      assert MeetingsOn(z, c, first, day, from, until) == MeetingsOn(z, c, first, last + 1, from, until);
    }
    assert classes[..|classes|] == classes;
    var sorted := Sorting.Sort(found, Earlier);
    Sorting.SortPermutes(found, Earlier);
    EarlierIsOrder();
    Sorting.SortSorts(found, Earlier);
    return Expanded(sorted);
  }

  // ------------------------------------------------- completeness and length

  /** The wall time a class is written for on a day. */
  function WallStart(c: WeeklyClass, day: int): int
    requires Readable(c)
  {
    day * DAY + c.start.value
  }

  /** The wall time from which the later offset is used for a combined time. */
  function Late(z: Zone): int {
    z.at + Max(z.before, z.after)
  }

  /** A combined wall time is converted with the offset of the side of the transition it is written on. */
  lemma CombinedInstant(z: Zone, day: int, time: int)
    ensures
      var wall := day * DAY + time;
      ToUtc(z, CombineLocal(z, day, time)) == wall - (if wall < Late(z) then z.before else z.after)
  {
    NonexistentIsUnreal(z, day * DAY + time);
  }

  /** The meetings the day loop does not come to although they start inside the window: one that a gap shifts
      past midnight, when the window opens after that midnight; and one before the clock falls back, when the
      window closes after that on what the clock calls an earlier day again. */
  predicate Overlooked(z: Zone, c: WeeklyClass, day: int, from: int, until: int)
    requires Readable(c)
  {
    || (z.before < z.after && WallStart(c, day) < Late(z) && z.at <= from && (day + 1) * DAY <= from + z.after)
    || (z.after < z.before && WallStart(c, day) < Late(z) && z.at <= until && until + z.after < day * DAY)
  }

  lemma FloorAtLeast(a: int, day: int)
    ensures day <= a / DAY <==> day * DAY <= a
  {
  }

  lemma VisitedDays(z: Zone, c: WeeklyClass, day: int, from: int, until: int)
    requires Readable(c) && Meets(z, c, day, from, until)
    ensures FirstDay(z, from) <= day <= LastDay(z, until) <==> !Overlooked(z, c, day, from, until)
  {
    CombinedInstant(z, day, c.start.value);
    FloorAtLeast(ToLocal(z, from), day + 1);
    FloorAtLeast(ToLocal(z, until), day);
    assert (day + 1) * DAY == day * DAY + DAY;
  }

  /** The instant a wall time stands for: the first that shows it or, where the clock skips it, the one that shows it
      moved on by the gap. */
  ghost predicate Shows(z: Zone, u: int, wall: int) {
    if Real(z, wall) then ToLocal(z, u) == wall && forall v :: ToLocal(z, v) == wall ==> u <= v
    else ToLocal(z, u) == wall + (z.after - z.before)
  }

  lemma ShowsIs(z: Zone, u: int, day: int, time: int)
    ensures Shows(z, u, day * DAY + time) <==> u == ToUtc(z, CombineLocal(z, day, time))
  {
    CombineLocalIsReal(z, day, time);
    NonexistentIsUnreal(z, day * DAY + time);
  }

  /** A meeting of the class inside the window: on its weekday, from its start to its end - on the day after where that
      is not later - with its name and whether it is cancelled. */
  ghost predicate MeetsAs(z: Zone, c: WeeklyClass, from: int, until: int, o: Occurrence)
    requires Readable(c)
  {
    && o.id == c.id && o.courseName == c.courseName && o.cancelled == c.cancelled && o.day % 7 == c.dayOfWeek
    && from <= o.startsAt <= until && Shows(z, o.startsAt, o.day * DAY + c.start.value)
    && Shows(z, o.endsAt, (if c.start.value < c.end.value then o.day else o.day + 1) * DAY + c.end.value)
  }

  lemma MeetsAsIs(z: Zone, c: WeeklyClass, from: int, until: int, o: Occurrence)
    requires Readable(c)
    ensures MeetsAs(z, c, from, until, o) <==> Meets(z, c, o.day, from, until) && o == Meeting(z, c, o.day)
  {
    StartShows(z, c, o.day, o.startsAt);
    EndShows(z, c, o.day, o.endsAt);
    MeetingParts(z, c, o);
  }

  lemma StartShows(z: Zone, c: WeeklyClass, day: int, u: int)
    requires Readable(c)
    ensures Shows(z, u, day * DAY + c.start.value) <==> u == StartOf(z, c, day)
  {
    ShowsIs(z, u, day, c.start.value);
  }

  lemma EndShows(z: Zone, c: WeeklyClass, day: int, u: int)
    requires Readable(c)
    ensures Shows(z, u, (if c.start.value < c.end.value then day else day + 1) * DAY + c.end.value)
            <==> u == EndOf(z, c, day)
  {
    ShowsIs(z, u, if c.start.value < c.end.value then day else day + 1, c.end.value);
  }

  lemma MeetingParts(z: Zone, c: WeeklyClass, o: Occurrence)
    requires Readable(c)
    ensures o == Meeting(z, c, o.day) <==>
            && o.id == c.id && o.courseName == c.courseName && o.cancelled == c.cancelled
            && o.startsAt == StartOf(z, c, o.day) && o.endsAt == EndOf(z, c, o.day)
  {
  }

  /** Over all days whatsoever, a class has a meeting in the result for exactly the days it meets inside the
      window, one for each, but for the overlooked ones: in any zone, whatever its transition. */
  lemma ExpansionIsComplete(z: Zone, c: WeeklyClass, from: int, until: int, o: Occurrence)
    requires Readable(c)
    ensures o in MeetingsOn(z, c, FirstDay(z, from), LastDay(z, until) + 1, from, until) <==>
            MeetsAs(z, c, from, until, o) && !Overlooked(z, c, o.day, from, until)
  {
    MeetsAsIs(z, c, from, until, o);
    MeetingsAreExact(z, c, FirstDay(z, from), LastDay(z, until) + 1, from, until);
    if Meets(z, c, o.day, from, until) { VisitedDays(z, c, o.day, from, until); }
  }

  /** No jump comes within its own length of a local midnight. */
  ghost predicate JumpsFarFromMidnight(z: Zone) {
    z.before == z.after || forall day: int :: MidnightIsFar(z, day)
  }

  predicate MidnightIsFar(z: Zone, day: int) {
    var jump := Max(z.before, z.after) - Min(z.before, z.after);
    day * DAY < z.at + Min(z.before, z.after) || Late(z) + jump < day * DAY
  }

  /** With a fixed offset, or a jump away from midnight, nothing is overlooked. */
  lemma NothingOverlooked(z: Zone, c: WeeklyClass, day: int, from: int, until: int)
    requires Readable(c) && JumpsFarFromMidnight(z) && Meets(z, c, day, from, until)
    ensures !Overlooked(z, c, day, from, until)
  {
    CombinedInstant(z, day, c.start.value);
    assert z.before != z.after ==> MidnightIsFar(z, day) && MidnightIsFar(z, day + 1);
    assert (day + 1) * DAY == day * DAY + DAY;
  }

  /** A class at a quarter to midnight on the night the clock skips from half past eleven to half past midnight
      starts at a quarter to one; a window opening at half past midnight holds that start and overlooks it. */
  lemma OverlookedExample()
    ensures
      var z, c := Zone(0, HOUR, 10 * DAY - HOUR / 2), WeeklyClass(0, "DLD", 2, Some(DAY - HOUR / 4), Some(HOUR), false);
      var from := 10 * DAY - HOUR / 2;
      Meets(z, c, 9, from, from + HOUR) && FirstDay(z, from) == 10
  {
    CombinedInstant(Zone(0, HOUR, 10 * DAY - HOUR / 2), 9, DAY - HOUR / 4);
  }

  // ------------------------------------------------------------------ length

  /** The length of a block on the clock: past midnight when its end is not after its start. */
  function ClockLength(c: WeeklyClass): (n: int)
    requires Readable(c)
    ensures 0 < n <= DAY
  {
    (c.end.value - c.start.value) + (if c.end.value > c.start.value then 0 else DAY)
  }

  /** The block starts before the transition and ends after it. */
  predicate Spans(z: Zone, c: WeeklyClass, day: int)
    requires Readable(c)
  {
    WallStart(c, day) < Late(z) <= WallStart(c, day) + ClockLength(c)
  }

  /** Every meeting lasts as long as on the clock, less what the clock jumps forward in it; so it ends strictly
      after it starts and within 24 hours, in any zone, exactly if that difference does. With a fixed offset it
      always does. */
  lemma MeetingLength(z: Zone, c: WeeklyClass, day: int)
    requires Readable(c)
    ensures EndOf(z, c, day) - StartOf(z, c, day) ==
            ClockLength(c) - (if Spans(z, c, day) then z.after - z.before else 0)
    ensures 0 < EndOf(z, c, day) - StartOf(z, c, day) <= DAY <==>
            (Spans(z, c, day) ==> 0 < ClockLength(c) - (z.after - z.before) <= DAY)
    ensures z.before == z.after ==> 0 < EndOf(z, c, day) - StartOf(z, c, day) <= DAY
  {
    CombinedInstant(z, day, c.start.value);
    CombinedInstant(z, if c.end.value > c.start.value then day else day + 1, c.end.value);
    assert (day + 1) * DAY == day * DAY + DAY;
  }

  // ---------------------------------------------------------- the whole result

  /** The class has this very meeting in the window, on a day the loop comes to. */
  ghost predicate IsHost(z: Zone, c: WeeklyClass, from: int, until: int, o: Occurrence)
    requires Readable(c)
  {
    MeetsAs(z, c, from, until, o) && !Overlooked(z, c, o.day, from, until)
  }

  /** The positions of the classes that have this very meeting. */
  ghost function Hosts(z: Zone, classes: seq<WeeklyClass>, from: int, until: int, o: Occurrence): set<nat>
    requires forall i :: 0 <= i < |classes| ==> Readable(classes[i])
  {
    set i | 0 <= i < |classes| && IsHost(z, classes[i], from, until, o)
  }

  lemma HostsStep(z: Zone, classes: seq<WeeklyClass>, from: int, until: int, o: Occurrence)
    requires classes != [] && forall i :: 0 <= i < |classes| ==> Readable(classes[i])
    ensures |Hosts(z, classes, from, until, o)| ==
            |Hosts(z, classes[..|classes| - 1], from, until, o)|
            + (if IsHost(z, classes[|classes| - 1], from, until, o) then 1 else 0)
  {
    var n, front := |classes| - 1, classes[..|classes| - 1];
    var before := Hosts(z, front, from, until, o);
    assert forall i :: 0 <= i < n ==> front[i] == classes[i];
    assert Hosts(z, classes, from, until, o) == if IsHost(z, classes[n], from, until, o) then before + {n} else before;
  }

  lemma OwnCount(z: Zone, c: WeeklyClass, from: int, until: int, o: Occurrence)
    requires Readable(c)
    ensures multiset(MeetingsOn(z, c, FirstDay(z, from), LastDay(z, until) + 1, from, until))[o] ==
            if IsHost(z, c, from, until, o) then 1 else 0
  {
    var own := MeetingsOn(z, c, FirstDay(z, from), LastDay(z, until) + 1, from, until);
    ExpansionIsComplete(z, c, from, until, o);
    MeetingsAreExact(z, c, FirstDay(z, from), LastDay(z, until) + 1, from, until);
    Sorting.NoDuplicatesByCount(own);
    assert o in own <==> multiset(own)[o] > 0;
  }

  /** The result holds each meeting as often as there are classes in the list that meet then in the window:
      exactly one occurrence for each class and day, and no other, but for the overlooked ones. */
  lemma {:induction false} AllMeetingsAreExact(z: Zone, classes: seq<WeeklyClass>, from: int, until: int, o: Occurrence)
    requires forall i :: 0 <= i < |classes| ==> Readable(classes[i])
    ensures multiset(MeetingsOfAll(z, classes, from, until))[o] == |Hosts(z, classes, from, until, o)|
  {
    if classes == [] {
      assert Hosts(z, classes, from, until, o) == {};
    } else {
      AllMeetingsAreExact(z, classes[..|classes| - 1], from, until, o);
      OwnCount(z, classes[|classes| - 1], from, until, o);
      HostsStep(z, classes, from, until, o);
    }
  }

  // --------------------------------------------------------------- one local day

  /** The wall times the bounds of a local day put on the wrong side, which needs a clock that jumps forward
      near a midnight: left out of their own day, at its start or at its end, or counted in from the day before
      or the days after. */
  predicate Misfiled(z: Zone, day: int, wall: int) {
    var midnight, next := day * DAY, (day + 1) * DAY;
    if wall < midnight then MisfiledBefore(z, midnight, next, wall)
    else if wall < next then MisfiledInside(z, midnight, next, wall)
    else MisfiledAfter(z, midnight, next, wall)
  }

  predicate MisfiledBefore(z: Zone, midnight: int, next: int, wall: int) {
    var jump, late := z.after - z.before, Late(z);
    jump > 0 && late <= midnight && wall < late && midnight - jump <= wall < next - jump
  }

  predicate MisfiledInside(z: Zone, midnight: int, next: int, wall: int) {
    var jump, late := z.after - z.before, Late(z);
    jump > 0 && ((midnight < late <= wall < midnight + jump) || (wall < late < next && next - jump <= wall))
  }

  predicate MisfiledAfter(z: Zone, midnight: int, next: int, wall: int) {
    var jump, late := z.after - z.before, Late(z);
    && jump > 0
    && ((next == z.at + z.before && wall < late + jump)
        || (next <= late <= wall < next + jump && midnight + jump <= wall))
  }

  /** The instant of a wall time: on the offset of the side of the transition it is written on. */
  function Placed(z: Zone, wall: int): int {
    wall - (if wall < Late(z) then z.before else z.after)
  }

  /** The last wall time of a day whose next midnight this is; a gap moves that midnight. */
  function LastWall(z: Zone, next: int): int {
    (if z.at + z.before <= next < z.at + z.after then next + (z.after - z.before) else next) - 1
  }

  lemma BoundsPlaced(z: Zone, today: int)
    ensures DayStart(z, today) == Placed(z, today * DAY)
    ensures DayEnd(z, today) == Placed(z, LastWall(z, (today + 1) * DAY))
  {
    CombinedInstant(z, today, 0);
    NonexistentIsUnreal(z, (today + 1) * DAY);
  }

  lemma BeforeDay(z: Zone, midnight: int, next: int, wall: int)
    requires next == midnight + DAY && wall < midnight
    ensures Placed(z, midnight) <= Placed(z, wall) <= Placed(z, LastWall(z, next)) <==>
            MisfiledBefore(z, midnight, next, wall)
  {
  }

  lemma InsideDay(z: Zone, midnight: int, next: int, wall: int)
    requires next == midnight + DAY && midnight <= wall < next
    ensures Placed(z, midnight) <= Placed(z, wall) <= Placed(z, LastWall(z, next)) <==>
            !MisfiledInside(z, midnight, next, wall)
  {
  }

  lemma AfterDay(z: Zone, midnight: int, next: int, wall: int)
    requires next == midnight + DAY && next <= wall
    ensures Placed(z, midnight) <= Placed(z, wall) <= Placed(z, LastWall(z, next)) <==>
            MisfiledAfter(z, midnight, next, wall)
  {
  }

  lemma PlacedInBounds(z: Zone, today: int, day: int, wall: int)
    requires day * DAY <= wall < day * DAY + DAY
    ensures Placed(z, today * DAY) <= Placed(z, wall) <= Placed(z, LastWall(z, (today + 1) * DAY)) <==>
            (day == today) != Misfiled(z, today, wall)
  {
    if day < today {
      BeforeDay(z, today * DAY, (today + 1) * DAY, wall);
    } else if day == today {
      InsideDay(z, today * DAY, (today + 1) * DAY, wall);
    } else {
      AfterDay(z, today * DAY, (today + 1) * DAY, wall);
    }
  }

  lemma StartPlaced(z: Zone, c: WeeklyClass, day: int)
    requires Readable(c)
    ensures StartOf(z, c, day) == Placed(z, WallStart(c, day))
  {
    CombinedInstant(z, day, c.start.value);
  }

  lemma MeetsBetween(z: Zone, c: WeeklyClass, today: int, day: int, from: int, until: int)
    requires Readable(c) && StartOf(z, c, day) == Placed(z, WallStart(c, day))
    requires from == Placed(z, today * DAY) && until == Placed(z, LastWall(z, (today + 1) * DAY))
    ensures Meets(z, c, day, from, until) <==>
            day % 7 == c.dayOfWeek && (day == today) != Misfiled(z, today, WallStart(c, day))
  {
    PlacedInBounds(z, today, day, WallStart(c, day));
  }

  lemma NeverMisfiled(z: Zone, today: int, wall: int)
    ensures z.after <= z.before ==> !Misfiled(z, today, wall)
  {
  }

  /** occurrences_for_local_day: within the bounds of the local day containing an instant, a class meets on
      that very day if its weekday matches, and on no other, exactly but for the misfiled times; so always with a
      fixed offset or a clock that falls back. */
  lemma TodayIsTheLocalDay(z: Zone, c: WeeklyClass, u: int, day: int)
    requires Readable(c)
    ensures
      var (from, until) := LocalDayBounds(z, u);
      Meets(z, c, day, from, until) <==>
        day % 7 == c.dayOfWeek && (day == LocalDay(z, u)) != Misfiled(z, LocalDay(z, u), WallStart(c, day))
    ensures z.after <= z.before ==> !Misfiled(z, LocalDay(z, u), WallStart(c, day))
  {
    var today := LocalDay(z, u);
    StartPlaced(z, c, day);
    BoundsPlaced(z, today);
    MeetsBetween(z, c, today, day, DayStart(z, today), DayEnd(z, today));
    NeverMisfiled(z, LocalDay(z, u), WallStart(c, day));
  }

  /** On the day after the clock skips from half past eleven to half past midnight, a class at a quarter to one is left
      out of its own day. */
  lemma MisfiledExample(z: Zone, c: WeeklyClass, u: int)
    requires z == Zone(0, HOUR, 10 * DAY - HOUR / 2) && 10 * DAY <= u < 10 * DAY + 12 * HOUR
    requires c == WeeklyClass(0, "DLD", 3, Some(3 * HOUR / 4), Some(2 * HOUR), false)
    ensures LocalDay(z, u) == 10 == WallStart(c, 10) / DAY
    ensures var (from, until) := LocalDayBounds(z, u); !Meets(z, c, 10, from, until)
  {
    TodayIsTheLocalDay(z, c, u, 10);
    assert Misfiled(z, 10, WallStart(c, 10));
  }
}
