/** What a sync makes of the courses (ragra/db/repo.py:333-399). */
module SyncCourses {
  import opened Text
  import opened Instants
  import opened Records
  import opened Repo
  import opened Classroom
  import opened Resync
  import opened Outcome
  import opened SyncCountdown

  /** The row as the listing of its course leaves it: in the listed state; named as listed if that state is ACTIVE or
      PROVISIONED and as before if not; created when it was, or now for such a course never stored. */
  predicate CourseFollowed(before: seq<Course>, row: Course, i: nat, c: CourseListing, now: Instant) {
    var live := c.state == "ACTIVE" || c.state == "PROVISIONED";
    && row.externalId == c.id && row.state == c.state && row.updatedAt == now
    && (live ==> row.name == c.name && row.section == c.section)
    && (i < |before| ==> row.externalId == before[i].externalId && row.createdAt == before[i].createdAt)
    && (i < |before| && !live ==> row.name == before[i].name && row.section == before[i].section)
    && (i >= |before| ==> live && row.createdAt == now)
  }

  predicate SeenIn(ops: seq<Op>, id: string) {
    exists j :: 0 <= j < |ops| && ops[j].SeeCourse? && ops[j].listing.id == id
  }

  /** A course row in the middle of a sync: as before while not listed, then as its listing left it. */
  predicate CourseState(before: seq<Course>, row: Course, i: nat, ops: seq<Op>, now: Instant) {
    && (SeenIn(ops, row.externalId) || (i < |before| && row == before[i]))
    && forall j :: 0 <= j < |ops| && ops[j].SeeCourse? && ops[j].listing.id == row.externalId ==>
         CourseFollowed(before, row, i, ops[j].listing, now)
  }

  predicate Stored(courses: seq<Course>, id: string) {
    exists i :: 0 <= i < |courses| && courses[i].externalId == id
  }

  lemma OtherOpsKeepCourses(cur: Db, op: Op, now: Instant)
    requires !op.SeeCourse?
    ensures Step(cur, op, now).courses == cur.courses
  {
  }

  /** The listing of a course, the first of it. */
  lemma ListedCourse(before: seq<Course>, cur: seq<Course>, ops: seq<Op>, c: CourseListing, i: nat, now: Instant)
    requires UniqueCourses(cur) && |before| <= |cur| && !SeenIn(ops, c.id)
    requires i < |cur| ==> CourseState(before, cur[i], i, ops, now)
    requires i < |UpsertCourse(cur, c, now)|
    ensures CourseState(before, UpsertCourse(cur, c, now)[i], i, ops + [SeeCourse(c)], now)
  {
    var after, all := UpsertCourse(cur, c, now), ops + [SeeCourse(c)];
    assert all[|ops|] == SeeCourse(c);
    assert forall j :: 0 <= j < |ops| ==> all[j] == ops[j];
    if i < |cur| && after[i].externalId != c.id {
      assert after[i] == cur[i];
      SeenStays(ops, SeeCourse(c), cur[i].externalId);
    } else {
      assert CourseFollowed(before, after[i], i, c, now);
      forall j | 0 <= j < |ops| && ops[j].SeeCourse? ensures ops[j].listing.id != c.id { }
    }
  }

  lemma LiveIsStored(cur: seq<Course>, c: CourseListing, now: Instant)
    requires Live(c.state)
    ensures Stored(UpsertCourse(cur, c, now), c.id)
  {
    var after, found := UpsertCourse(cur, c, now), FindCourse(cur, c.id);
    var i := if found.Some? then found.value else |cur|;
    assert i < |after| && after[i].externalId == c.id;
  }

  lemma SeenStays(ops: seq<Op>, op: Op, id: string)
    ensures SeenIn(ops + [op], id) <==> SeenIn(ops, id) || (op.SeeCourse? && op.listing.id == id)
  {
    var all := ops + [op];
    assert all[|ops|] == op;
    assert forall j :: 0 <= j < |ops| ==> all[j] == ops[j];
  }

  lemma OtherOpKeepsState(before: seq<Course>, row: Course, i: nat, ops: seq<Op>, op: Op, now: Instant)
    requires CourseState(before, row, i, ops, now) && !op.SeeCourse?
    ensures CourseState(before, row, i, ops + [op], now)
  {
    SeenStays(ops, op, row.externalId);
  }

  lemma {:induction false} RunKeepsCourse(db: Db, ops: seq<Op>, i: nat, now: Instant)
    requires Sound(db) && AllApart(ops) && forall j :: 0 <= j < |ops| ==> Proper(ops[j])
    ensures |db.courses| <= |RunOps(db, ops, now).courses|
    ensures i < |RunOps(db, ops, now).courses| ==> CourseState(db.courses, RunOps(db, ops, now).courses[i], i, ops, now)
    ensures forall j :: 0 <= j < |ops| && ops[j].SeeCourse? && Live(ops[j].listing.state) ==>
              Stored(RunOps(db, ops, now).courses, ops[j].listing.id)
  {
    if ops != [] {
      var front, last := ops[..|ops| - 1], ops[|ops| - 1];
      assert ops == front + [last];
      RunKeepsSound(db, front, now);
      RunKeepsCourse(db, front, i, now);
      StepKeepsCourse(db, RunOps(db, front, now), front, last, i, now);
      assert forall j :: 0 <= j < |front| ==> front[j] == ops[j];
    }
  }

  lemma StepKeepsCourse(db: Db, cur: Db, ops: seq<Op>, op: Op, i: nat, now: Instant)
    requires Sound(cur) && |db.courses| <= |cur.courses| && AllApart(ops + [op])
    requires i < |cur.courses| ==> CourseState(db.courses, cur.courses[i], i, ops, now)
    ensures var after := Step(cur, op, now).courses;
      && |cur.courses| <= |after|
      && (i < |after| ==> CourseState(db.courses, after[i], i, ops + [op], now))
      && (forall id :: Stored(cur.courses, id) ==> Stored(after, id))
      && (op.SeeCourse? && Live(op.listing.state) ==> Stored(after, op.listing.id))
  {
    if op.SeeCourse? {
      var after := UpsertCourse(cur.courses, op.listing, now);
      assert forall k :: 0 <= k < |cur.courses| ==> after[k].externalId == cur.courses[k].externalId;
      forall j | 0 <= j < |ops| ensures Apart(ops[j], op) { assert Apart((ops + [op])[j], (ops + [op])[|ops|]); }
      if i < |after| { ListedCourse(db.courses, cur.courses, ops, op.listing, i, now); }
      if Live(op.listing.state) { LiveIsStored(cur.courses, op.listing, now); }
    } else {
      OtherOpsKeepCourses(cur, op, now);
      if i < |cur.courses| { OtherOpKeepsState(db.courses, cur.courses[i], i, ops, op, now); }
    }
  }

  /** After a sync every course row is as the listing of its course leaves it, or as before if its course was not
      listed; a listed live course has a row, and no row is lost. */
  lemma CoursesFollow(db: Db, courses: seq<CourseListing>, now: Instant, i: nat)
    requires Sound(db) && Distinct(courses)
    ensures
      var done := Sync(db, courses, now).courses;
      && |db.courses| <= |done|
      && (forall k :: 0 <= k < |courses| && courses[k].state in {"ACTIVE", "PROVISIONED"} ==>
            Stored(done, courses[k].id))
      && (i < |done| ==>
            || (exists k :: 0 <= k < |courses| && CourseFollowed(db.courses, done[i], i, courses[k], now))
            || (i < |db.courses| && done[i] == db.courses[i]
                && forall k :: 0 <= k < |courses| ==> courses[k].id != done[i].externalId))
  {
    var ops := AllOps(courses);
    AllOpsApart(courses);
    AllOpsProper(courses);
    RunKeepsCourse(db, ops, i, now);
    var ran := RunOps(db, ops, now).courses;
    assert ran == Sync(db, courses, now).courses;
    forall k | 0 <= k < |courses|
      ensures Live(courses[k].state) ==> Stored(ran, courses[k].id)
      ensures i < |ran| && courses[k].id == ran[i].externalId ==> CourseFollowed(db.courses, ran[i], i, courses[k], now)
    {
      CourseIsSeen(courses, k);
      var j :| 0 <= j < |ops| && ops[j] == SeeCourse(courses[k]);
    }
    if i < |ran| && SeenIn(ops, ran[i].externalId) {
      var j :| 0 <= j < |ops| && ops[j].SeeCourse? && ops[j].listing.id == ran[i].externalId;
      assert HasCourse(courses, CourseId(ops[j]));
    }
  }
}
