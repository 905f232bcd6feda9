/**
 * Student progress: the lessons of a student's syllabus left-joined with that student's progress
 * rows (`getStudentLessons`), the weighted percentage (`getAvgStudentProgress`) and the dashboards'
 * average over a list of students.
 */
module Progress {
  import opened Wrappers
  import opened Tables

  /** A lesson of the syllabus, with the student's progress row, or `None` for the `{}` placeholder. */
  datatype LessonView = LessonView(id: Id, lesson: Lesson, userLesson: Option<UserLesson>)

  /** `userLessons[0]` of the left join: the student's progress row on that lesson with the smallest id. */
  function ProgressRow(userLessons: Table<UserLesson>, userId: Id, lessonId: Id): (r: Option<UserLesson>)
    ensures r.None? <==> forall k :: k in userLessons.rows ==>
      !(userLessons.rows[k].userId == userId && userLessons.rows[k].lessonId == lessonId)
    ensures r.Some? ==> r.value.userId == userId && r.value.lessonId == lessonId
    ensures r.Some? ==> exists k :: k in userLessons.rows && userLessons.rows[k] == r.value
  {
    match First(userLessons, (x: Keyed<UserLesson>) => x.row.userId == userId && x.row.lessonId == lessonId)
    case None => None
    case Some(x) => Some(x.row)
  }

  /** The `lessons.map(...)` step: each lesson paired with the student's progress row. */
  function JoinProgress(ls: seq<Keyed<Lesson>>, userLessons: Table<UserLesson>, userId: Id): (r: seq<LessonView>)
    ensures |r| == |ls|
    ensures forall i :: 0 <= i < |ls| ==>
      r[i] == LessonView(ls[i].id, ls[i].row, ProgressRow(userLessons, userId, ls[i].id))
  {
    if ls == [] then []
    else
      [LessonView(ls[0].id, ls[0].row, ProgressRow(userLessons, userId, ls[0].id))]
      + JoinProgress(ls[1..], userLessons, userId)
  }

  /** The lessons whose `syllabusId` equals the given one (SQL `IS NULL` when it is null), by ascending id. */
  function SyllabusLessons(lessons: Table<Lesson>, syllabusId: Option<Id>): seq<Keyed<Lesson>>
  {
    Select(lessons, (x: Keyed<Lesson>) => x.row.syllabusId == syllabusId)
  }

  /**
   * `getStudentLessons(userId)`. An unknown user makes `user.syllabusId` throw, which the handler
   * rethrows unchanged.
   */
  function StudentLessons(users: Table<User>, lessons: Table<Lesson>, userLessons: Table<UserLesson>, userId: Id)
    : Result<seq<LessonView>>
  {
    match Get(users, userId)
    case None => Err(Crash("Cannot read properties of null (reading 'syllabusId')"))
    case Some(user) => Ok(JoinProgress(SyllabusLessons(lessons, user.syllabusId), userLessons, userId))
  }

  /**
   * The left join is exact: `vs` lists precisely the lessons of syllabus `sid`, each once, in ascending
   * id order, each with the user's first progress row on it or `None` when there is none.
   */
  predicate ExactJoin(vs: seq<LessonView>, lessons: Table<Lesson>, userLessons: Table<UserLesson>, userId: Id, sid: Option<Id>)
  {
    JoinAscending(vs) && JoinSound(vs, lessons, userLessons, userId, sid) && JoinComplete(vs, lessons, sid)
  }

  predicate JoinAscending(vs: seq<LessonView>)
  {
    forall i, j :: 0 <= i < j < |vs| ==> vs[i].id < vs[j].id
  }

  predicate JoinSound(vs: seq<LessonView>, lessons: Table<Lesson>, userLessons: Table<UserLesson>, userId: Id, sid: Option<Id>)
  {
    forall i :: 0 <= i < |vs| ==>
      && vs[i].id in lessons.rows && vs[i].lesson == lessons.rows[vs[i].id] && vs[i].lesson.syllabusId == sid
      && vs[i].userLesson == ProgressRow(userLessons, userId, vs[i].id)
  }

  predicate JoinComplete(vs: seq<LessonView>, lessons: Table<Lesson>, sid: Option<Id>)
  {
    forall k :: k in lessons.rows && lessons.rows[k].syllabusId == sid ==> exists i :: 0 <= i < |vs| && vs[i].id == k
  }

  /** The lessons of syllabus `sid`: exactly those rows, in ascending id order. */
  lemma SyllabusLessonsSpec(lessons: Table<Lesson>, sid: Option<Id>)
    ensures Ascending(SyllabusLessons(lessons, sid)) && RowsOf(SyllabusLessons(lessons, sid), lessons.rows)
    ensures forall j :: 0 <= j < |SyllabusLessons(lessons, sid)| ==> SyllabusLessons(lessons, sid)[j].row.syllabusId == sid
    ensures forall k :: k in lessons.rows && lessons.rows[k].syllabusId == sid ==>
      Keyed(k, lessons.rows[k]) in SyllabusLessons(lessons, sid)
  {
  }

  lemma JoinIsAscending(lessons: Table<Lesson>, userLessons: Table<UserLesson>, userId: Id, sid: Option<Id>)
    ensures JoinAscending(JoinProgress(SyllabusLessons(lessons, sid), userLessons, userId))
  {
    var ls := SyllabusLessons(lessons, sid);
    SyllabusLessonsSpec(lessons, sid);
    var vs := JoinProgress(ls, userLessons, userId);
    forall i, j | 0 <= i < j < |vs| ensures vs[i].id < vs[j].id {
      assert vs[i].id == ls[i].id && vs[j].id == ls[j].id;
    }
  }

  lemma JoinIsSound(lessons: Table<Lesson>, userLessons: Table<UserLesson>, userId: Id, sid: Option<Id>)
    ensures JoinSound(JoinProgress(SyllabusLessons(lessons, sid), userLessons, userId), lessons, userLessons, userId, sid)
  {
    var ls := SyllabusLessons(lessons, sid);
    SyllabusLessonsSpec(lessons, sid);
    var vs := JoinProgress(ls, userLessons, userId);
    forall i | 0 <= i < |vs|
      ensures vs[i].id in lessons.rows && vs[i].lesson == lessons.rows[vs[i].id] && vs[i].lesson.syllabusId == sid
      ensures vs[i].userLesson == ProgressRow(userLessons, userId, vs[i].id)
    {
      assert vs[i] == LessonView(ls[i].id, ls[i].row, ProgressRow(userLessons, userId, ls[i].id));
    }
  }

  lemma JoinIsComplete(lessons: Table<Lesson>, userLessons: Table<UserLesson>, userId: Id, sid: Option<Id>)
    ensures JoinComplete(JoinProgress(SyllabusLessons(lessons, sid), userLessons, userId), lessons, sid)
  {
    var ls := SyllabusLessons(lessons, sid);
    SyllabusLessonsSpec(lessons, sid);
    var vs := JoinProgress(ls, userLessons, userId);
    forall k | k in lessons.rows && lessons.rows[k].syllabusId == sid
      ensures exists i :: 0 <= i < |vs| && vs[i].id == k
    {
      var i :| 0 <= i < |ls| && ls[i] == Keyed(k, lessons.rows[k]);
      assert vs[i].id == k;
    }
  }

  /** `getStudentLessons` succeeds exactly for a known user, and then is the exact join on the user's syllabus. */
  lemma StudentLessonsSpec(users: Table<User>, lessons: Table<Lesson>, userLessons: Table<UserLesson>, userId: Id)
    ensures StudentLessons(users, lessons, userLessons, userId).Ok? <==> userId in users.rows
    ensures StudentLessons(users, lessons, userLessons, userId).Ok? ==>
      ExactJoin(StudentLessons(users, lessons, userLessons, userId).value, lessons, userLessons, userId,
                users.rows[userId].syllabusId)
  {
    if userId in users.rows {
      var sid := users.rows[userId].syllabusId;
      JoinIsAscending(lessons, userLessons, userId, sid);
      JoinIsSound(lessons, userLessons, userId, sid);
      JoinIsComplete(lessons, userLessons, userId, sid);
    }
  }

  /** What one lesson adds to the sum: 'completed' counts 1, 'in-progress' one half, anything else 0. */
  function Weight(v: LessonView): real
  {
    match v.userLesson
    case Some(ul) =>
      if ul.status == "completed" then 1.0
      else if ul.status == "in-progress" then 0.5
      else 0.0
    case None => 0.0
  }

  /** The `reduce` of `getAvgStudentProgress`, from the right. */
  function WeightSum(vs: seq<LessonView>): real
  {
    if vs == [] then 0.0 else WeightSum(vs[..|vs| - 1]) + Weight(vs[|vs| - 1])
  }

  predicate HasStatus(v: LessonView, status: string)
  {
    v.userLesson.Some? && v.userLesson.value.status == status
  }

  /** How many lessons carry the given status. */
  function CountStatus(vs: seq<LessonView>, status: string): (n: nat)
    ensures n <= |vs|
  {
    if vs == [] then 0
    else CountStatus(vs[..|vs| - 1], status) + (if HasStatus(vs[|vs| - 1], status) then 1 else 0)
  }

  /** The sum of weights is #completed + 0.5 * #in-progress; every other status and a missing row add 0. */
  lemma {:induction false} WeightSumIsCounts(vs: seq<LessonView>)
    ensures WeightSum(vs) == CountStatus(vs, "completed") as real + 0.5 * CountStatus(vs, "in-progress") as real
  {
    if vs != [] {
      WeightSumIsCounts(vs[..|vs| - 1]);
    }
  }

  /** The sum lies between 0 and the number of lessons. */
  lemma {:induction false} WeightSumBounds(vs: seq<LessonView>)
    ensures 0.0 <= WeightSum(vs) <= |vs| as real
  {
    if vs != [] {
      WeightSumBounds(vs[..|vs| - 1]);
    }
  }

  /** A share of `n` as a percentage: `x / n * 100`. */
  function Scaled(x: real, n: nat): real
    requires n > 0
  {
    x / n as real * 100.0
  }

  /** `getAvgStudentProgress` on the joined lessons: 0 with no lessons, else the weighted percentage. */
  function Percent(vs: seq<LessonView>): real
  {
    if |vs| == 0 then 0.0 else Scaled(WeightSum(vs), |vs|)
  }

  /** The percentage is (#completed + 0.5 * #in-progress) / #lessons * 100, or 0 with no lessons, and lies in [0, 100]. */
  lemma PercentSpec(vs: seq<LessonView>)
    ensures vs == [] ==> Percent(vs) == 0.0
    ensures vs != [] ==>
      Percent(vs) == Scaled(CountStatus(vs, "completed") as real + 0.5 * CountStatus(vs, "in-progress") as real, |vs|)
    ensures 0.0 <= Percent(vs) <= 100.0
  {
    if vs != [] {
      PercentIsCounts(vs);
      WeightSumBounds(vs);
      ScaledBounds(WeightSum(vs), |vs|);
    }
  }

  /** The weighted sum over a non-empty list, scaled to a percentage. */
  lemma PercentIsCounts(vs: seq<LessonView>)
    requires vs != []
    ensures Percent(vs) == Scaled(CountStatus(vs, "completed") as real + 0.5 * CountStatus(vs, "in-progress") as real, |vs|)
  {
    WeightSumIsCounts(vs);
    var x := CountStatus(vs, "completed") as real + 0.5 * CountStatus(vs, "in-progress") as real;
    assert WeightSum(vs) == x;
    assert Percent(vs) == Scaled(WeightSum(vs), |vs|);
    assert Scaled(WeightSum(vs), |vs|) == Scaled(x, |vs|);
  }

  /** A share between nothing and everything is a percentage in [0, 100]. */
  lemma ScaledBounds(x: real, n: nat)
    requires 0.0 <= x <= n as real && n > 0
    ensures 0.0 <= Scaled(x, n) <= 100.0
  {
    assert x / n as real <= 1.0;
  }

  /** A larger share gives a larger percentage. */
  lemma ScaledMonotone(x: real, y: real, n: nat)
    requires x <= y && n > 0
    ensures Scaled(x, n) <= Scaled(y, n)
  {
    assert x / n as real <= y / n as real;
  }

  /** A lesson's status moves forward: not started or unknown, then in progress, then completed. */
  predicate NoFurther(a: LessonView, b: LessonView)
  {
    Weight(a) <= Weight(b)
  }

  /** Moving any lessons forward never lowers the percentage. */
  lemma {:induction false} PercentMonotone(a: seq<LessonView>, b: seq<LessonView>)
    requires |a| == |b|
    requires forall i :: 0 <= i < |a| ==> NoFurther(a[i], b[i])
    ensures Percent(a) <= Percent(b)
  {
    WeightSumMonotone(a, b);
    if a != [] {
      assert Percent(a) == Scaled(WeightSum(a), |a|);
      assert Percent(b) == Scaled(WeightSum(b), |a|);
      ScaledMonotone(WeightSum(a), WeightSum(b), |a|);
    }
  }


  lemma {:induction false} WeightSumMonotone(a: seq<LessonView>, b: seq<LessonView>)
    requires |a| == |b|
    requires forall i :: 0 <= i < |a| ==> NoFurther(a[i], b[i])
    ensures WeightSum(a) <= WeightSum(b)
  {
    if a != [] {
      WeightSumMonotone(a[..|a| - 1], b[..|b| - 1]);
      assert NoFurther(a[|a| - 1], b[|b| - 1]);
    }
  }

  /** `getAvgStudentProgress(userId)`. */
  function StudentProgress(users: Table<User>, lessons: Table<Lesson>, userLessons: Table<UserLesson>, userId: Id)
    : Result<real>
  {
    match StudentLessons(users, lessons, userLessons, userId)
    case Err(e) => Err(e)
    case Ok(vs) => Ok(Percent(vs))
  }

  /** A known student's progress is defined and lies in [0, 100]; a student without lessons has 0. */
  lemma StudentProgressSpec(users: Table<User>, lessons: Table<Lesson>, userLessons: Table<UserLesson>, userId: Id)
    ensures StudentProgress(users, lessons, userLessons, userId).Ok? <==> userId in users.rows
    ensures StudentProgress(users, lessons, userLessons, userId).Ok? ==>
      0.0 <= StudentProgress(users, lessons, userLessons, userId).value <= 100.0
    ensures StudentLessons(users, lessons, userLessons, userId) == Ok([]) ==>
      StudentProgress(users, lessons, userLessons, userId) == Ok(0.0)
  {
    var r := StudentLessons(users, lessons, userLessons, userId);
    if r.Ok? {
      PercentSpec(r.value);
    }
  }

  function Sum(ps: seq<real>): real
  {
    if ps == [] then 0.0 else Sum(ps[..|ps| - 1]) + ps[|ps| - 1]
  }

  /**
   * `overallProgress /= students.length` after the accumulating loop: the mean of the
   * percentages, and `None` (JavaScript's NaN from 0 / 0) when there are no students.
   */
  function Mean(ps: seq<real>): Option<real>
  {
    Divided(Sum(ps), |ps|)
  }

  /** `total / n`, which is NaN (`None`) when `n` is zero. */
  function Divided(total: real, n: nat): Option<real>
  {
    if n == 0 then None else Some(total / n as real)
  }

  lemma {:induction false} SumBounds(ps: seq<real>, lo: real, hi: real)
    requires forall i :: 0 <= i < |ps| ==> lo <= ps[i] <= hi
    ensures |ps| as real * lo <= Sum(ps) <= |ps| as real * hi
  {
    if ps != [] {
      SumBounds(ps[..|ps| - 1], lo, hi);
    }
  }

  /** The average is undefined exactly when there are no students, and otherwise stays in [0, 100]. */
  lemma MeanSpec(ps: seq<real>)
    requires forall i :: 0 <= i < |ps| ==> 0.0 <= ps[i] <= 100.0
    ensures Mean(ps).None? <==> ps == []
    ensures Mean(ps).Some? ==> 0.0 <= Mean(ps).value <= 100.0
  {
    SumBounds(ps, 0.0, 100.0);
    if ps != [] {
      var n := |ps| as real;
      assert Sum(ps) / n <= 100.0;
    }
  }

  /** A student of a dashboard list; `progress` is the property the loop writes onto it. */
  datatype StudentRow = StudentRow(id: Id, user: User, progress: Option<real>)

  /** `getStudentProgress` as the dashboard loop calls it, on the current tables. */
  function ProgressOfStudent(users: Table<User>, lessons: Table<Lesson>, userLessons: Table<UserLesson>): Id -> Result<real>
  {
    (userId: Id) => StudentProgress(users, lessons, userLessons, userId)
  }

  /** The value `progress` gives each listed student, or the first failure. */
  function ProgressOf(progress: Id -> Result<real>, students: seq<StudentRow>): (r: Result<seq<real>>)
    ensures r.Ok? ==> |r.value| == |students|
  {
    if students == [] then Ok([])
    else
      match ProgressOf(progress, students[..|students| - 1])
      case Err(e) => Err(e)
      case Ok(ps) =>
        match progress(students[|students| - 1].id)
        case Err(e) => Err(e)
        case Ok(p) => Ok(ps + [p])
  }

  /** The progress of each listed student, or the first failure. */
  function ProgressList(users: Table<User>, lessons: Table<Lesson>, userLessons: Table<UserLesson>, students: seq<StudentRow>)
    : Result<seq<real>>
  {
    ProgressOf(ProgressOfStudent(users, lessons, userLessons), students)
  }

  /** A computed list holds, position by position, the value of the student at that position. */
  lemma {:induction false} ProgressOfSpec(progress: Id -> Result<real>, students: seq<StudentRow>)
    ensures var r := ProgressOf(progress, students);
      r.Ok? ==> forall i :: 0 <= i < |students| ==> progress(students[i].id) == Ok(r.value[i])
  {
    if students != [] {
      var init := students[..|students| - 1];
      ProgressOfSpec(progress, init);
      var r := ProgressOf(progress, students);
      if r.Ok? {
        var ps := ProgressOf(progress, init).value;
        var p := progress(students[|init|].id);
        assert r.value == ps + [p.value];
        forall i | 0 <= i < |init|
          ensures progress(students[i].id) == Ok(r.value[i])
        {
          assert students[i] == init[i] && r.value[i] == ps[i];
        }
      }
    }
  }

  /** A computed progress list holds, position by position, the progress of the student at that position. */
  lemma ProgressListSpec(users: Table<User>, lessons: Table<Lesson>, userLessons: Table<UserLesson>,
                         students: seq<StudentRow>)
    ensures var r := ProgressList(users, lessons, userLessons, students);
      r.Ok? ==> forall i :: 0 <= i < |students| ==> StudentProgress(users, lessons, userLessons, students[i].id) == Ok(r.value[i])
  {
    ProgressOfSpec(ProgressOfStudent(users, lessons, userLessons), students);
  }

  /** Each student of the list carries its own percentage once the loop is done. */
  function Annotated(students: seq<StudentRow>, ps: seq<real>): (r: seq<StudentRow>)
    requires |ps| == |students|
    ensures |r| == |students|
    ensures forall i :: 0 <= i < |r| ==> r[i] == students[i].(progress := Some(ps[i]))
  {
    seq(|students|, i requires 0 <= i < |students| => students[i].(progress := Some(ps[i])))
  }

  /** Adding one more value adds it to the sum. */
  lemma SumSnoc(ps: seq<real>, x: real)
    ensures Sum(ps + [x]) == Sum(ps) + x
  {
    assert (ps + [x])[..|ps|] == ps;
  }

  /** The rows after the loop has written the first `|ps|` progress values. */
  function PartlyAnnotated(students: seq<StudentRow>, ps: seq<real>): (r: seq<StudentRow>)
    requires |ps| <= |students|
    ensures |r| == |students|
  {
    Annotated(students[..|ps|], ps) + students[|ps|..]
  }

  /** Writing the next progress value onto the next row annotates one more row. */
  lemma PartlyAnnotatedStep(students: seq<StudentRow>, ps: seq<real>, p: real)
    requires |ps| < |students|
    ensures PartlyAnnotated(students, ps)[|ps| := PartlyAnnotated(students, ps)[|ps|].(progress := Some(p))]
      == PartlyAnnotated(students, ps + [p])
  {
    var i := |ps|;
    var a := PartlyAnnotated(students, ps)[i := PartlyAnnotated(students, ps)[i].(progress := Some(p))];
    var b := PartlyAnnotated(students, ps + [p]);
    forall j | 0 <= j < |students| ensures a[j] == b[j] {
      if j < i {
        assert a[j] == Annotated(students[..i], ps)[j];
      } else if j > i {
        assert a[j] == students[j];
      }
    }
  }

  /** Once every row has its value, the rows are the annotated list. */
  lemma PartlyAnnotatedAll(students: seq<StudentRow>, ps: seq<real>)
    requires |ps| == |students|
    ensures PartlyAnnotated(students, ps) == Annotated(students, ps)
  {
    assert students[..|ps|] == students;
  }

  /**
   * The loop of `getCfiDashboard` and `getEntityDashboard`: writes each student's progress onto it and
   * adds it to `overallProgress`, then divides by the number of students, with no guard against zero.
   * `progress` is the `getStudentProgress` the loop awaits for each student.
   */
  method AccumulateProgress(progress: Id -> Result<real>, students: array<StudentRow>)
    returns (overall: Result<Option<real>>)
    modifies students
    ensures var ps := ProgressOf(progress, old(students[..]));
      && (ps.Ok? ==> students[..] == Annotated(old(students[..]), ps.value) && overall == Ok(Mean(ps.value)))
      && (ps.Err? ==> overall == Err(ps.error))
  {
    ghost var before := students[..];
    var sum := 0.0;
    var i := 0;
    ghost var ps: seq<real> := [];
    while i < students.Length
      invariant 0 <= i <= students.Length
      invariant ProgressOf(progress, before[..i]) == Ok(ps)
      invariant |ps| == i && sum == Sum(ps)
      invariant students[..] == PartlyAnnotated(before, ps)
    {
      var p := progress(students[i].id);
      ProgressOfStep(progress, before, i, ps);
      if p.Err? {
        ProgressOfFails(progress, before, i + 1);
        return Err(p.error);
      }
      PartlyAnnotatedStep(before, ps, p.value);
      students[i] := students[i].(progress := Some(p.value));
      SumSnoc(ps, p.value);
      ps := ps + [p.value];
      sum := sum + p.value;
      i := i + 1;
    }
    assert before[..i] == before;
    PartlyAnnotatedAll(before, ps);
    overall := Ok(Divided(sum, students.Length));
  }

  /** The progress of students drawn from the user table is always defined. */
  lemma {:induction false} ProgressListOfKnown(users: Table<User>, lessons: Table<Lesson>, userLessons: Table<UserLesson>,
                                               students: seq<StudentRow>)
    requires forall i :: 0 <= i < |students| ==> students[i].id in users.rows
    ensures ProgressList(users, lessons, userLessons, students).Ok?
  {
    if students != [] {
      ProgressListOfKnown(users, lessons, userLessons, students[..|students| - 1]);
      StudentProgressSpec(users, lessons, userLessons, students[|students| - 1].id);
    }
  }

  /** One more student extends the list by that student's value, or fails with its error. */
  lemma ProgressOfStep(progress: Id -> Result<real>, students: seq<StudentRow>, i: nat, ps: seq<real>)
    requires i < |students|
    requires ProgressOf(progress, students[..i]) == Ok(ps)
    ensures var p := progress(students[i].id);
      && (p.Ok? ==> ProgressOf(progress, students[..i + 1]) == Ok(ps + [p.value]))
      && (p.Err? ==> ProgressOf(progress, students[..i + 1]) == Err(p.error))
  {
    assert students[..i + 1][..i] == students[..i];
  }

  /** Once a prefix of the list fails, the whole list fails with the same error. */
  lemma {:induction false} ProgressOfFails(progress: Id -> Result<real>, students: seq<StudentRow>, n: nat)
    requires n <= |students|
    requires ProgressOf(progress, students[..n]).Err?
    ensures ProgressOf(progress, students) == ProgressOf(progress, students[..n])
    decreases |students| - n
  {
    if n < |students| {
      assert students[..n + 1][..n] == students[..n];
      ProgressOfFails(progress, students, n + 1);
    } else {
      assert students[..n] == students;
    }
  }
}
