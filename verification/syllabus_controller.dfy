/**
 * `controllers/syllabus.controller.js`: syllabus reads, the create and edit page guards, the create
 * and update handlers (a version bump makes a new syllabus, a same-version edit revises the stored
 * one in place) and the per-student lesson progress.
 */
module SyllabusController {
  import opened Wrappers
  import opened Text
  import opened Tables
  import opened Schemas
  import opened SyllabusStore
  import Progress

  // ---------------------------------------------------------------------------------------------
  // Reads

  /** The two `where` objects the controllers pass to `getSyllabi`. */
  datatype SyllabusWhere = ByEntity(entityId: Id) | ById(id: Id)

  /** A syllabus row with its `lessons` include. */
  datatype SyllabusRecord = SyllabusRecord(id: Id, syllabus: Syllabus, lessons: seq<Keyed<Lesson>>)

  predicate WhereHolds(w: SyllabusWhere, x: Keyed<Syllabus>)
  {
    match w
    case ByEntity(e) => x.row.entityId == e
    case ById(id) => x.id == id
  }

  function SyllabusMatcher(w: SyllabusWhere): Keyed<Syllabus> -> bool
  {
    (x: Keyed<Syllabus>) => WhereHolds(w, x)
  }

  /** One syllabus with the lessons that belong to it. */
  function Record(lessons: Table<Lesson>, x: Keyed<Syllabus>): (r: SyllabusRecord)
    ensures r.id == x.id && r.syllabus == x.row
    ensures r.lessons == Progress.SyllabusLessons(lessons, Some(x.id))
  {
    SyllabusRecord(x.id, x.row, Progress.SyllabusLessons(lessons, Some(x.id)))
  }

  function Records(lessons: Table<Lesson>, xs: seq<Keyed<Syllabus>>): (r: seq<SyllabusRecord>)
    ensures |r| == |xs|
    ensures forall i :: 0 <= i < |xs| ==> r[i] == Record(lessons, xs[i])
  {
    if xs == [] then [] else [Record(lessons, xs[0])] + Records(lessons, xs[1..])
  }

  const SYLLABI_ERROR := "Could not fetch syllabi: "

  /**
   * `getSyllabi(where)`: the matching syllabi with their lessons; a failed query is rethrown with
   * the `Could not fetch syllabi: ` prefix and no status code.
   */
  function GetSyllabi(syllabi: Table<Syllabus>, lessons: Table<Lesson>, w: SyllabusWhere, queryError: Option<string>)
    : Result<seq<SyllabusRecord>>
  {
    match queryError
    case Some(e) => Err(Crash(SYLLABI_ERROR + e))
    case None => Ok(Records(lessons, Select(syllabi, SyllabusMatcher(w))))
  }

  /** Each record is a stored syllabus the `where` selects, with exactly its lessons, by ascending id. */
  lemma GetSyllabiSound(syllabi: Table<Syllabus>, lessons: Table<Lesson>, w: SyllabusWhere)
    ensures var rs := GetSyllabi(syllabi, lessons, w, None).value;
      && (forall i, j :: 0 <= i < j < |rs| ==> rs[i].id < rs[j].id)
      && (forall i :: 0 <= i < |rs| ==>
            rs[i].id in syllabi.rows && rs[i].syllabus == syllabi.rows[rs[i].id]
            && WhereHolds(w, Keyed(rs[i].id, rs[i].syllabus))
            && rs[i].lessons == Progress.SyllabusLessons(lessons, Some(rs[i].id)))
  {
    var xs := Select(syllabi, SyllabusMatcher(w));
    var rs := Records(lessons, xs);
    forall i | 0 <= i < |rs|
      ensures rs[i].id in syllabi.rows && rs[i].syllabus == syllabi.rows[rs[i].id] && WhereHolds(w, Keyed(rs[i].id, rs[i].syllabus))
    {
      assert rs[i] == Record(lessons, xs[i]);
      assert SyllabusMatcher(w)(xs[i]);
    }
  }

  lemma RecordIds(lessons: Table<Lesson>, xs: seq<Keyed<Syllabus>>, i: nat)
    requires i < |xs|
    ensures i < |Records(lessons, xs)| && Records(lessons, xs)[i].id == xs[i].id
  {
  }

  /** Every stored syllabus the `where` selects has a record. */
  lemma GetSyllabiComplete(syllabi: Table<Syllabus>, lessons: Table<Lesson>, w: SyllabusWhere, k: Id)
    requires k in syllabi.rows && WhereHolds(w, Keyed(k, syllabi.rows[k]))
    ensures var rs := GetSyllabi(syllabi, lessons, w, None).value;
      exists i :: 0 <= i < |rs| && rs[i].id == k
  {
    var xs := Select(syllabi, SyllabusMatcher(w));
    assert SyllabusMatcher(w)(Keyed(k, syllabi.rows[k]));
    assert Keyed(k, syllabi.rows[k]) in xs;
    var i :| 0 <= i < |xs| && xs[i] == Keyed(k, syllabi.rows[k]);
    var rs := Records(lessons, xs);
    assert GetSyllabi(syllabi, lessons, w, None) == Ok(rs);
    RecordIds(lessons, xs, i);
    assert rs[i].id == k;
  }

  const ENTITY_ID_REQUIRED: Failure := Status(422, "Entity ID is required")

  /** The guard of `getSyllabusCreatePage`: a missing or empty `entityId` query parameter is refused with 422. */
  function CreatePageEntity(entityId: Option<string>): (r: Result<string>)
    ensures r.Err? <==> entityId.None? || entityId.value == ""
    ensures r.Err? ==> r.error == ENTITY_ID_REQUIRED
    ensures r.Ok? ==> r.value == entityId.value
  {
    match entityId
    case None => Err(ENTITY_ID_REQUIRED)
    case Some(e) => if e == "" then Err(ENTITY_ID_REQUIRED) else Ok(e)
  }

  const SYLLABUS_NOT_FOUND: Failure := Status(404, "Could not find syllabus")

  /** `getUpdateSyllabusPage`: the first syllabus `getSyllabi({ id })` returns, or 404 when there is none. */
  function UpdatePageSyllabus(syllabi: Table<Syllabus>, lessons: Table<Lesson>, id: Id, queryError: Option<string>)
    : Result<SyllabusRecord>
  {
    match GetSyllabi(syllabi, lessons, ById(id), queryError)
    case Err(e) => Err(e)
    case Ok(rs) => if rs == [] then Err(SYLLABUS_NOT_FOUND) else Ok(rs[0])
  }

  /** The edit page shows the stored syllabus with that id and its lessons, and is 404 exactly for an unknown id. */
  lemma UpdatePageSpec(syllabi: Table<Syllabus>, lessons: Table<Lesson>, id: Id)
    ensures UpdatePageSyllabus(syllabi, lessons, id, None) == Err(SYLLABUS_NOT_FOUND) <==> id !in syllabi.rows
    ensures id in syllabi.rows ==>
      UpdatePageSyllabus(syllabi, lessons, id, None) == Ok(SyllabusRecord(id, syllabi.rows[id], Progress.SyllabusLessons(lessons, Some(id))))
  {
    GetSyllabiSound(syllabi, lessons, ById(id));
    if id in syllabi.rows {
      GetSyllabiComplete(syllabi, lessons, ById(id), id);
    }
  }

  // ---------------------------------------------------------------------------------------------
  // Create and update

  /**
   * `createSyllabus`: a request that failed validation is refused with 422 before any write;
   * otherwise the syllabus is created with copies of the submitted lessons under the body's entity.
   */
  method CreateSyllabus(db: Database, requestValid: bool, form: SyllabusForm, entityId: Id) returns (r: Result<Id>)
    modifies db
    ensures !requestValid ==> r == Err(VALIDATION_FAILED) && db.syllabi == old(db.syllabi) && db.lessons == old(db.lessons)
    ensures requestValid && HeaderErrors(form) != [] ==>
      r.Err? && r.error.statusCode.None? && db.syllabi == old(db.syllabi) && db.lessons == old(db.lessons)
    ensures requestValid && HeaderErrors(form) == [] ==>
      var sid := old(db.syllabi).next;
      && db.syllabi.rows == old(db.syllabi).rows[sid := NewSyllabus(form, entityId)]
      && db.lessons == InsertAll(old(db.lessons), Copies(Accepted(form.lessons), sid))
      && (r.Ok? <==> FirstInvalid(form.lessons) == |form.lessons|)
      && (r.Ok? ==> r.value == sid)
      && (r.Err? ==> r.error.statusCode.None?)
    ensures db.users == old(db.users) && db.entities == old(db.entities) && db.userLessons == old(db.userLessons)
    ensures db.messages == old(db.messages) && db.subscriptions == old(db.subscriptions)
  {
    if !requestValid {
      return Err(VALIDATION_FAILED);
    }
    r := CreateWithLessons(db, form, entityId);
  }

  /** `parseFloat(version) > syllabus.version`: the submitted version is a newer one. */
  predicate IsBump(form: SyllabusForm, stored: Syllabus)
  {
    form.version > stored.version
  }

  /** The update handler reads `syllabus.version` of the row `findByPk` returned, which is null for an unknown id. */
  const NULL_SYLLABUS := "Cannot read properties of null (reading 'version')"

  /**
   * The bump path calls `createSyllabus(req, res)` without `next`, so any failure there other than a
   * 422 ends in calling an undefined `next`.
   */
  const NEXT_NOT_A_FUNCTION := "next is not a function"

  /**
   * `updateSyllabus`: after the 422 check and the lookup, a higher version creates a new syllabus and
   * leaves the stored one and its lessons alone; otherwise the header is validated and, when it
   * passes, title, version and ratingId are overwritten and the lessons are reconciled.
   */
  method UpdateSyllabus(db: Database, requestValid: bool, sid: Id, form: SyllabusForm, entityId: Id) returns (r: Result<()>)
    modifies db
    ensures !requestValid ==> r == Err(VALIDATION_FAILED) && db.syllabi == old(db.syllabi) && db.lessons == old(db.lessons)
    ensures requestValid && sid !in old(db.syllabi).rows ==>
      r == Err(Crash(NULL_SYLLABUS)) && db.syllabi == old(db.syllabi) && db.lessons == old(db.lessons)
    ensures requestValid && sid in old(db.syllabi).rows && IsBump(form, old(db.syllabi).rows[sid]) ==>
      && (r.Err? ==> r == Err(Crash(NEXT_NOT_A_FUNCTION)))
      && (HeaderErrors(form) != [] ==> r.Err? && db.syllabi == old(db.syllabi) && db.lessons == old(db.lessons))
      && (HeaderErrors(form) == [] ==>
            var added := old(db.syllabi).next;
            && db.syllabi.rows == old(db.syllabi).rows[added := NewSyllabus(form, entityId)]
            && db.lessons == InsertAll(old(db.lessons), Copies(Accepted(form.lessons), added))
            && (r.Ok? <==> FirstInvalid(form.lessons) == |form.lessons|))
    ensures requestValid && sid in old(db.syllabi).rows && !IsBump(form, old(db.syllabi).rows[sid]) ==>
      && (HeaderErrors(form) != [] ==>
            r == Err(ValidationError(HeaderErrors(form))) && db.syllabi == old(db.syllabi) && db.lessons == old(db.lessons))
      && (HeaderErrors(form) == [] ==>
            && r.Ok?
            && db.syllabi.next == old(db.syllabi).next
            && db.syllabi.rows == old(db.syllabi).rows[sid := NewSyllabus(form, old(db.syllabi).rows[sid].entityId)]
            && db.lessons == Reconciled(old(db.lessons), form.lessons, sid))
    ensures db.users == old(db.users) && db.entities == old(db.entities) && db.userLessons == old(db.userLessons)
    ensures db.messages == old(db.messages) && db.subscriptions == old(db.subscriptions)
  {
    if !requestValid {
      return Err(VALIDATION_FAILED);
    }
    if sid !in db.syllabi.rows {
      return Err(Crash(NULL_SYLLABUS));
    }
    var stored := db.syllabi.rows[sid];
    if IsBump(form, stored) {
      var created := CreateWithLessons(db, form, entityId);
      if created.Err? {
        return Err(Crash(NEXT_NOT_A_FUNCTION));
      }
      return Ok(());
    }
    var headerErrors := HeaderErrors(form);
    if headerErrors != [] {
      return Err(ValidationError(headerErrors));
    }
    ReviseExisting(db, sid, form);
    r := Ok(());
  }

  /**
   * A version bump never disturbs the stored syllabus or any stored lesson, and every lesson it adds
   * belongs to the new syllabus: the state the bump path of `UpdateSyllabus` leaves.
   */
  lemma BumpLeavesStoredSyllabus(syllabi: Table<Syllabus>, lessons: Table<Lesson>, sid: Id, form: SyllabusForm, entityId: Id)
    requires sid in syllabi.rows && HeaderErrors(form) == []
    ensures var added := syllabi.next;
      var after := InsertAll(lessons, Copies(Accepted(form.lessons), added));
      && added != sid
      && syllabi.rows[added := NewSyllabus(form, entityId)][sid] == syllabi.rows[sid]
      && (forall k :: k in lessons.rows ==> k in after.rows && after.rows[k] == lessons.rows[k])
      && (forall k :: k in after.rows && k !in lessons.rows ==> after.rows[k].syllabusId == Some(added))
  {
    CreatedLeavesOldRows(lessons, form, syllabi.next);
  }

  // ---------------------------------------------------------------------------------------------
  // Lesson progress

  /** `getLessonInfo` catches the null-lesson error and calls `next`, which is not in scope there. */
  const NEXT_NOT_DEFINED := "next is not defined"

  /** `getLessonInfo(userId, lessonId)`: the lesson with the user's progress row on it, or `None` for `{}`. */
  function LessonInfo(lessons: Table<Lesson>, userLessons: Table<UserLesson>, userId: Id, lessonId: Id)
    : (r: Result<Progress.LessonView>)
    ensures r.Err? <==> lessonId !in lessons.rows
    ensures r.Err? ==> r.error == Crash(NEXT_NOT_DEFINED)
    ensures r.Ok? ==> r.value.id == lessonId && r.value.lesson == lessons.rows[lessonId]
    ensures r.Ok? ==> (r.value.userLesson.None? <==>
      forall k :: k in userLessons.rows ==> !(userLessons.rows[k].userId == userId && userLessons.rows[k].lessonId == lessonId))
    ensures r.Ok? && r.value.userLesson.Some? ==>
      r.value.userLesson.value.userId == userId && r.value.userLesson.value.lessonId == lessonId
  {
    match Get(lessons, lessonId)
    case None => Err(Crash(NEXT_NOT_DEFINED))
    case Some(lesson) => Ok(Progress.LessonView(lessonId, lesson, Progress.ProgressRow(userLessons, userId, lessonId)))
  }

  /** The status and notes fields of the progress form; `None` for a field the body leaves out. */
  datatype ProgressForm = ProgressForm(status: Option<string>, notes: Option<string>)

  /** The values of the `status` ENUM column. */
  const STATUSES: set<string> := {"not-started", "in-progress", "completed"}
  const DEFAULT_STATUS := "not-started"

  /** MySQL in strict mode refuses a value outside the ENUM. */
  const BAD_STATUS := "Data truncated for column 'status' at row 1"

  predicate SamePair(x: Keyed<UserLesson>, userId: Id, lessonId: Id)
  {
    x.row.userId == userId && x.row.lessonId == lessonId
  }

  function PairMatcher(userId: Id, lessonId: Id): Keyed<UserLesson> -> bool
  {
    (x: Keyed<UserLesson>) => SamePair(x, userId, lessonId)
  }

  /** The row `update({ status, notes })` leaves: a field the body leaves out keeps its value, notes are trimmed. */
  function Revised(row: UserLesson, form: ProgressForm): (u: UserLesson)
    ensures u.userId == row.userId && u.lessonId == row.lessonId
    ensures form.status.None? ==> u.status == row.status
    ensures form.notes.None? ==> u.notes == row.notes
  {
    UserLesson(row.userId, row.lessonId,
               if form.status.Some? then form.status.value else row.status,
               if form.notes.Some? then Stored(form.notes) else row.notes)
  }

  /** The row `create({ userId, lessonId, status, notes })` inserts, with the column defaults. */
  function Started(userId: Id, lessonId: Id, form: ProgressForm): (u: UserLesson)
    ensures u.userId == userId && u.lessonId == lessonId
    ensures form.status.None? ==> u.status == DEFAULT_STATUS
    ensures form.notes.None? ==> u.notes.None?
  {
    UserLesson(userId, lessonId, if form.status.Some? then form.status.value else DEFAULT_STATUS, Stored(form.notes))
  }

  /**
   * The update-or-insert of `saveLessonInfo`: the user's row on the lesson with the smallest id is
   * revised, or a row is created when there is none; a status outside the ENUM is refused.
   */
  function SavedProgress(userLessons: Table<UserLesson>, userId: Id, lessonId: Id, form: ProgressForm)
    : Result<Table<UserLesson>>
  {
    match First(userLessons, PairMatcher(userId, lessonId))
    case Some(x) =>
      var row := Revised(x.row, form);
      if row.status in STATUSES then Ok(Update(userLessons, x.id, row)) else Err(Crash(BAD_STATUS))
    case None =>
      var row := Started(userId, lessonId, form);
      if row.status in STATUSES then Ok(Insert(userLessons, row).0) else Err(Crash(BAD_STATUS))
  }

  /** At most one progress row per user and lesson. */
  predicate UniquePairs(t: Table<UserLesson>)
  {
    forall a, b :: a in t.rows && b in t.rows && a != b ==>
      !(t.rows[a].userId == t.rows[b].userId && t.rows[a].lessonId == t.rows[b].lessonId)
  }

  /** The one row of the pair, when the pairs are unique. */
  predicate OnlyRowOf(t: Table<UserLesson>, userId: Id, lessonId: Id, k: Id)
  {
    k in t.rows && t.rows[k].userId == userId && t.rows[k].lessonId == lessonId
    && forall j :: j in t.rows && t.rows[j].userId == userId && t.rows[j].lessonId == lessonId ==> j == k
  }

  /** The save fails: a status outside the ENUM is posted, or none is posted and the stored row's is outside it. */
  ghost predicate SaveRefused(t: Table<UserLesson>, userId: Id, lessonId: Id, form: ProgressForm)
  {
    (form.status.Some? && form.status.value !in STATUSES)
    || (form.status.None? && (exists k :: k in t.rows && t.rows[k].userId == userId && t.rows[k].lessonId == lessonId
                                            && t.rows[k].status !in STATUSES))
  }

  /** The pairs stay unique, the saved pair has exactly one row, and the rows of every other pair are kept. */
  ghost predicate SaveKept(t: Table<UserLesson>, after: Table<UserLesson>, userId: Id, lessonId: Id)
  {
    && UniquePairs(after)
    && (exists k :: OnlyRowOf(after, userId, lessonId, k))
    && (forall k :: k in t.rows && !(t.rows[k].userId == userId && t.rows[k].lessonId == lessonId) ==>
          k in after.rows && after.rows[k] == t.rows[k])
  }

  /** Saving over the pair's existing row. */
  lemma SavedOverRow(t: Table<UserLesson>, userId: Id, lessonId: Id, form: ProgressForm, x: Keyed<UserLesson>)
    requires UniquePairs(t)
    requires First(t, PairMatcher(userId, lessonId)) == Some(x)
    ensures SavedProgress(t, userId, lessonId, form).Err? <==> SaveRefused(t, userId, lessonId, form)
    ensures SavedProgress(t, userId, lessonId, form).Ok? ==>
      SaveKept(t, SavedProgress(t, userId, lessonId, form).value, userId, lessonId)
  {
    assert SamePair(x, userId, lessonId);
    forall k | k in t.rows && t.rows[k].userId == userId && t.rows[k].lessonId == lessonId
      ensures k == x.id
    {
    }
    var row := Revised(x.row, form);
    if row.status in STATUSES {
      var after := Update(t, x.id, row);
      assert OnlyRowOf(after, userId, lessonId, x.id);
    }
  }

  /** Saving a pair that has no row yet. */
  lemma SavedAsNewRow(t: Table<UserLesson>, userId: Id, lessonId: Id, form: ProgressForm)
    requires UniquePairs(t)
    requires First(t, PairMatcher(userId, lessonId)).None?
    ensures SavedProgress(t, userId, lessonId, form).Err? <==> SaveRefused(t, userId, lessonId, form)
    ensures SavedProgress(t, userId, lessonId, form).Ok? ==>
      SaveKept(t, SavedProgress(t, userId, lessonId, form).value, userId, lessonId)
  {
    var p := PairMatcher(userId, lessonId);
    forall k | k in t.rows
      ensures !(t.rows[k].userId == userId && t.rows[k].lessonId == lessonId)
    {
      assert !p(Keyed(k, t.rows[k]));
    }
    var row := Started(userId, lessonId, form);
    if row.status in STATUSES {
      var (after, id) := Insert(t, row);
      assert OnlyRowOf(after, userId, lessonId, id);
    }
  }

  /**
   * Saving keeps at most one row per user and lesson, leaves exactly one for the saved pair, and
   * leaves every row of another pair as it was; it fails only for a status outside the ENUM.
   */
  lemma SavedProgressSpec(t: Table<UserLesson>, userId: Id, lessonId: Id, form: ProgressForm)
    requires UniquePairs(t)
    ensures SavedProgress(t, userId, lessonId, form).Err? <==>
      (form.status.Some? && form.status.value !in STATUSES)
      || (form.status.None? && (exists k :: k in t.rows && t.rows[k].userId == userId && t.rows[k].lessonId == lessonId
                                              && t.rows[k].status !in STATUSES))
    ensures SavedProgress(t, userId, lessonId, form).Ok? ==>
      var after := SavedProgress(t, userId, lessonId, form).value;
      && UniquePairs(after)
      && (exists k :: OnlyRowOf(after, userId, lessonId, k))
      && (forall k :: k in t.rows && !(t.rows[k].userId == userId && t.rows[k].lessonId == lessonId) ==>
            k in after.rows && after.rows[k] == t.rows[k])
  {
    match First(t, PairMatcher(userId, lessonId))
    case Some(x) => SavedOverRow(t, userId, lessonId, form, x);
    case None => SavedAsNewRow(t, userId, lessonId, form);
  }

  /** Saving the same form a second time changes nothing more. */
  lemma SavedProgressIdempotent(t: Table<UserLesson>, userId: Id, lessonId: Id, form: ProgressForm)
    requires SavedProgress(t, userId, lessonId, form).Ok?
    ensures var after := SavedProgress(t, userId, lessonId, form).value;
      SavedProgress(after, userId, lessonId, form) == Ok(after)
  {
    var after := SavedProgress(t, userId, lessonId, form).value;
    var id := SavedRowIsFirst(t, userId, lessonId, form);
    var row := after.rows[id];
    assert Revised(row, form) == row;
    assert Update(after, id, row) == after;
  }

  /** After a save, the saved row is the one the next lookup of the pair finds. */
  lemma SavedRowIsFirst(t: Table<UserLesson>, userId: Id, lessonId: Id, form: ProgressForm) returns (id: Id)
    requires SavedProgress(t, userId, lessonId, form).Ok?
    ensures var after := SavedProgress(t, userId, lessonId, form).value;
      && id in after.rows
      && First(after, PairMatcher(userId, lessonId)) == Some(Keyed(id, after.rows[id]))
      && after.rows[id].status in STATUSES
      && after.rows[id] == Revised(after.rows[id], form)
  {
    var p := PairMatcher(userId, lessonId);
    var x := First(t, p);
    if x.Some? {
      id := x.value.id;
      FirstAfterUpdate(t, p, id, Revised(x.value.row, form));
    } else {
      id := t.next;
      FirstAfterInsert(t, p, Started(userId, lessonId, form));
    }
  }

  /** After a save, the lesson page of that user shows the saved row. */
  lemma SavedThenShown(lessons: Table<Lesson>, t: Table<UserLesson>, userId: Id, lessonId: Id, form: ProgressForm)
    requires UniquePairs(t) && lessonId in lessons.rows
    requires SavedProgress(t, userId, lessonId, form).Ok?
    ensures var after := SavedProgress(t, userId, lessonId, form).value;
      var info := LessonInfo(lessons, after, userId, lessonId);
      && info.Ok? && info.value.userLesson.Some?
      && (form.status.Some? ==> info.value.userLesson.value.status == form.status.value)
      && (form.notes.Some? ==> info.value.userLesson.value.notes == Stored(form.notes))
  {
    var after := SavedProgress(t, userId, lessonId, form).value;
    SavedProgressSpec(t, userId, lessonId, form);
    var k :| OnlyRowOf(after, userId, lessonId, k);
    var info := LessonInfo(lessons, after, userId, lessonId);
    assert info.value.userLesson.Some?;
    assert info.value.userLesson.value == after.rows[k];
    var p := PairMatcher(userId, lessonId);
    match First(t, p)
    case Some(x) =>
      assert k == x.id;
    case None =>
      assert k == t.next;
  }

  /**
   * `saveLessonInfo`: a request that failed validation is refused with 422; otherwise the progress
   * row of the pair is revised or created.
   */
  method SaveLessonInfo(db: Database, requestValid: bool, userId: Id, lessonId: Id, form: ProgressForm) returns (r: Result<()>)
    modifies db
    ensures !requestValid ==> r == Err(VALIDATION_FAILED) && db.userLessons == old(db.userLessons)
    ensures requestValid ==> match SavedProgress(old(db.userLessons), userId, lessonId, form)
      case Ok(t) => r.Ok? && db.userLessons == t
      case Err(e) => r == Err(e) && db.userLessons == old(db.userLessons)
    ensures db.users == old(db.users) && db.entities == old(db.entities) && db.syllabi == old(db.syllabi)
    ensures db.lessons == old(db.lessons) && db.messages == old(db.messages) && db.subscriptions == old(db.subscriptions)
  {
    if !requestValid {
      return Err(VALIDATION_FAILED);
    }
    var existing := First(db.userLessons, PairMatcher(userId, lessonId));
    var row := if existing.Some? then Revised(existing.value.row, form) else Started(userId, lessonId, form);
    if row.status !in STATUSES {
      return Err(Crash(BAD_STATUS));
    }
    if existing.Some? {
      db.userLessons := Update(db.userLessons, existing.value.id, row);
    } else {
      db.userLessons := Insert(db.userLessons, row).0;
    }
    r := Ok(());
  }
}
