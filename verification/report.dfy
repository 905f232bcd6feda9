/**
 * `controllers/report.controller.js`: the content of a student's progress report. Only the
 * document's items are modelled; laying them out as a PDF is not.
 */
module Report {
  import opened Wrappers
  import opened Text
  import opened Tables
  import opened Progress

  /** A content item: its text and its style, if any. */
  datatype Item = Item(text: string, style: Option<string>)

  /** The lesson's status, or `None` for the `{}` placeholder. */
  function StatusOf(v: LessonView): Option<string>
  {
    match v.userLesson
    case Some(ul) => Some(ul.status)
    case None => None
  }

  /** The `reduce` counting the lessons whose status is 'completed'. */
  function CompleteCount(vs: seq<LessonView>): (n: nat)
    ensures n <= |vs|
  {
    if vs == [] then 0
    else CompleteCount(vs[..|vs| - 1]) + (if StatusOf(vs[|vs| - 1]) == Some("completed") then 1 else 0)
  }

  /** The report's count is the number of completed lessons that the progress percentage counts. */
  lemma {:induction false} CompleteCountIsCompleted(vs: seq<LessonView>)
    ensures CompleteCount(vs) == CountStatus(vs, "completed")
  {
    if vs != [] {
      CompleteCountIsCompleted(vs[..|vs| - 1]);
    }
  }

  /** In-progress lessons do not count: marking lessons in progress leaves the count as it is. */
  lemma {:induction false} InProgressNotCounted(vs: seq<LessonView>, ws: seq<LessonView>)
    requires |vs| == |ws|
    requires forall i :: 0 <= i < |vs| ==> StatusOf(vs[i]) == StatusOf(ws[i]) || (StatusOf(vs[i]) != Some("completed") && StatusOf(ws[i]) == Some("in-progress"))
    ensures CompleteCount(vs) == CompleteCount(ws)
  {
    if vs != [] {
      InProgressNotCounted(vs[..|vs| - 1], ws[..|ws| - 1]);
    }
  }

  /** The `switch` on the status. */
  function StatusLabel(status: Option<string>): (caption: string)
    ensures caption == "Complete" <==> status == Some("completed")
    ensures caption == "In Progress" <==> status == Some("in-progress")
    ensures caption == "Incomplete" <==> status != Some("completed") && status != Some("in-progress")
  {
    match status
    case Some(s) =>
      if s == "completed" then "Complete"
      else if s == "in-progress" then "In Progress"
      else "Incomplete"
    case None => "Incomplete"
  }

  const NO_NOTES := "None "

  /** `lesson.userLesson?.notes || 'None '`: a missing or empty note is printed as 'None '. */
  function NotesText(v: LessonView): (text: string)
    ensures text == NO_NOTES <==> (v.userLesson.None? || v.userLesson.value.notes.None?
                                  || v.userLesson.value.notes.value in {"", NO_NOTES})
    ensures text != NO_NOTES ==> v.userLesson.Some? && v.userLesson.value.notes == Some(text)
  {
    match v.userLesson
    case Some(ul) =>
      (match ul.notes
       case Some(n) => if n != "" then n else NO_NOTES
       case None => NO_NOTES)
    case None => NO_NOTES
  }

  /** The ten items one lesson contributes, in order. */
  function LessonItems(v: LessonView): (items: seq<Item>)
    ensures |items| == 10
    ensures items[0] == Item(v.lesson.title, Some("h2"))
    ensures items[1].text == "Status: " + StatusLabel(StatusOf(v))
    ensures items[3].text == v.lesson.objective && items[5].text == v.lesson.content
    ensures items[7].text == v.lesson.completion && items[9].text == NotesText(v)
    ensures [items[2], items[4], items[6], items[8]] ==
      [Item("Objective", Some("h3")), Item("Lesson", Some("h3")), Item("Completion Criteria", Some("h3")), Item("Notes", Some("h3"))]
  {
    [ Item(v.lesson.title, Some("h2")),
      Item("Status: " + StatusLabel(StatusOf(v)), None),
      Item("Objective", Some("h3")),
      Item(v.lesson.objective, None),
      Item("Lesson", Some("h3")),
      Item(v.lesson.content, None),
      Item("Completion Criteria", Some("h3")),
      Item(v.lesson.completion, None),
      Item("Notes", Some("h3")),
      Item(NotesText(v), None) ]
  }

  /** `lessonContent.flat()`. */
  function Flatten(vs: seq<LessonView>): (items: seq<Item>)
    ensures |items| == 10 * |vs|
  {
    if vs == [] then [] else LessonItems(vs[0]) + Flatten(vs[1..])
  }

  lemma SliceOfSecond(a: seq<Item>, b: seq<Item>, lo: nat, hi: nat)
    requires |a| <= lo <= hi <= |a| + |b|
    ensures (a + b)[lo..hi] == b[lo - |a|..hi - |a|]
  {
  }

  /** The items of lesson `i` sit at positions 10i .. 10i + 9. */
  lemma {:induction false} FlattenBlock(vs: seq<LessonView>, i: nat)
    requires i < |vs|
    ensures Flatten(vs)[10 * i..10 * i + 10] == LessonItems(vs[i])
  {
    var head := LessonItems(vs[0]);
    var rest := Flatten(vs[1..]);
    assert Flatten(vs) == head + rest;
    if i > 0 {
      FlattenBlock(vs[1..], i - 1);
      SliceOfSecond(head, rest, 10 * i, 10 * i + 10);
    } else {
      assert (head + rest)[..10] == head;
    }
  }

  /** `Progress: k / n`. */
  function ProgressLine(vs: seq<LessonView>): string
  {
    "Progress: " + NatToString(CompleteCount(vs)) + " / " + NatToString(|vs|)
  }

  /**
   * The document content: the heading `title - Version v`, the progress line, the effective date,
   * then every lesson's ten items. `versionText` and `dateText` are as the runtime prints them.
   */
  function Content(title: string, versionText: string, dateText: string, vs: seq<LessonView>): (items: seq<Item>)
    ensures |items| == 3 + 10 * |vs|
    ensures items[0] == Item(title + " - Version " + versionText, Some("h1"))
    ensures items[1] == Item(ProgressLine(vs), None)
    ensures items[2] == Item("Effective Date: " + dateText, None)
    ensures forall i :: 0 <= i < |vs| ==> items[3 + 10 * i..13 + 10 * i] == LessonItems(vs[i])
  {
    var items := [Item(title + " - Version " + versionText, Some("h1")), Item(ProgressLine(vs), None),
                  Item("Effective Date: " + dateText, None)] + Flatten(vs);
    forall i | 0 <= i < |vs| ensures items[3 + 10 * i..13 + 10 * i] == LessonItems(vs[i]) {
      FlattenBlock(vs, i);
      SliceOfSecond(items[..3], Flatten(vs), 3 + 10 * i, 13 + 10 * i);
    }
    items
  }

  /** The progress line's two numbers read back as k and n, with k never above n. */
  lemma ProgressLineNumbers(vs: seq<LessonView>)
    ensures CompleteCount(vs) <= |vs|
    ensures DigitsValue(NatToString(CompleteCount(vs))) == CompleteCount(vs)
    ensures DigitsValue(NatToString(|vs|)) == |vs|
  {
    NatToStringValue(CompleteCount(vs));
    NatToStringValue(|vs|);
  }

  /** The attachment's name: the full name with dashes for spaces, the syllabus title, and a fixed ending. */
  function FileName(fullName: string, syllabusTitle: string): (name: string)
    ensures |name| == |fullName| + 1 + |syllabusTitle| + |"-progress-report.pdf"|
    ensures EndsWith(name, "-progress-report.pdf")
    ensures name[..|fullName|] == DashForSpace(fullName)
    ensures forall i :: 0 <= i < |fullName| ==> name[i] != ' '
    ensures name[|fullName|..|fullName| + 1 + |syllabusTitle|] == "-" + syllabusTitle
  {
    DashForSpace(fullName) + "-" + syllabusTitle + "-progress-report.pdf"
  }

  /**
   * What the report needs that may be missing: the user, the user's syllabus, and the user's
   * `fullName`, an attribute the user model does not declare. `fullName` is the value that attribute
   * reads as, `None` for undefined, whose `split` throws.
   */
  function PrintLessons(users: Table<User>, syllabi: Table<Syllabus>, lessons: Table<Lesson>, userLessons: Table<UserLesson>,
                        userId: Id, fullName: Option<string>, versionText: string, dateText: string): (r: Result<(seq<Item>, string)>)
    ensures r.Ok? <==> userId in users.rows && users.rows[userId].syllabusId.Some?
                       && users.rows[userId].syllabusId.value in syllabi.rows && fullName.Some?
    ensures r.Ok? ==>
      var vs := StudentLessons(users, lessons, userLessons, userId).value;
      var title := syllabi.rows[users.rows[userId].syllabusId.value].title;
      && r.value.0 == Content(title, versionText, dateText, vs)
      && |r.value.0| == 3 + 10 * |vs| && r.value.0[1] == Item(ProgressLine(vs), None)
      && r.value.1 == FileName(fullName.value, title)
  {
    match Get(users, userId)
    case None => Err(Crash("Cannot read properties of null (reading 'syllabusId')"))
    case Some(user) =>
      match StudentLessons(users, lessons, userLessons, userId)
      case Err(e) => Err(e)
      case Ok(vs) =>
        if user.syllabusId.None? || user.syllabusId.value !in syllabi.rows then
          Err(Crash("Cannot read properties of null (reading 'title')"))
        else if fullName.None? then
          Err(Crash("Cannot read properties of undefined (reading 'split')"))
        else
          var syllabus := syllabi.rows[user.syllabusId.value];
          Ok((Content(syllabus.title, versionText, dateText, vs), FileName(fullName.value, syllabus.title)))
  }
}
