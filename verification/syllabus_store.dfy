/**
 * The two writes a syllabus edit is made of, shared by `controllers/syllabus.controller.js` and its
 * older sibling `controllers/syllabus.js`: creating a syllabus with copies of its lessons, and
 * reconciling the lessons of an existing syllabus with the submitted list (delete what was not
 * resubmitted, then a bulk upsert of the rest).
 */
module SyllabusStore {
  import opened Wrappers
  import opened Text
  import opened Tables
  import opened Schemas

  /** A lesson of the submitted form; `id` is present for a lesson that was already saved. */
  datatype LessonInput = LessonInput(id: Option<Id>, title: string, objective: string, content: string, completion: string)

  /** The syllabus form: the header fields and the lesson list. */
  datatype SyllabusForm = SyllabusForm(title: string, version: real, ratingId: Option<Id>, lessons: seq<LessonInput>)

  /** An ORM validation error, which carries no status code. */
  function ValidationError(messages: seq<string>): (f: Failure)
    ensures f.statusCode.None?
  {
    Crash("Validation error: " + Join(messages, ",\nValidation error: "))
  }

  // ---------------------------------------------------------------------------------------------
  // Creating a syllabus with its lessons

  /** The validation messages of the syllabus header, on the values the trim hook leaves. */
  function HeaderErrors(form: SyllabusForm): seq<string>
  {
    SyllabusErrors(Stored(Some(form.title)), Some(form.version))
  }

  /** The validation messages of one copied lesson, on the values the trim hook leaves. */
  function CopyErrors(l: LessonInput): seq<string>
  {
    LessonErrors(Stored(Some(l.title)), Stored(Some(l.objective)), Stored(Some(l.content)), Stored(Some(l.completion)))
  }

  /** The header row `syllabus.create` inserts. */
  function NewSyllabus(form: SyllabusForm, entityId: Id): (s: Syllabus)
    requires HeaderErrors(form) == []
    ensures s.title == Trim(form.title) && s.version == form.version && s.version >= MIN_VERSION
    ensures s.ratingId == form.ratingId && s.entityId == entityId
  {
    Syllabus(Stored(Some(form.title)).value, form.version, form.ratingId, entityId)
  }

  /** The four content fields of a lesson are not blank: what the model accepts once the hook has trimmed them. */
  predicate Acceptable(l: LessonInput)
  {
    !AllSpace(l.title) && !AllSpace(l.objective) && !AllSpace(l.content) && !AllSpace(l.completion)
  }

  /** The model rejects a copied lesson exactly when one of its four fields is blank. */
  lemma CopyErrorsIffBlank(l: LessonInput)
    ensures CopyErrors(l) == [] <==> Acceptable(l)
  {
    LessonAcceptedIffNonBlank(Some(l.title), Some(l.objective), Some(l.content), Some(l.completion));
  }

  /** The copy of a lesson: the four content columns, trimmed, under the new syllabus; the submitted id is dropped. */
  function Copy(l: LessonInput, sid: Id): Lesson
  {
    Lesson(Some(sid), Trim(l.title), Trim(l.objective), Trim(l.content), Trim(l.completion))
  }

  /** The position of the first lesson the model rejects, or the length when every one passes. */
  function FirstInvalid(ls: seq<LessonInput>): (n: nat)
    ensures n <= |ls|
    ensures forall i :: 0 <= i < n ==> Acceptable(ls[i])
    ensures n < |ls| ==> !Acceptable(ls[n])
  {
    if ls == [] || !Acceptable(ls[0]) then 0
    else
      var m := FirstInvalid(ls[1..]);
      assert forall i :: 1 <= i < m + 1 ==> ls[i] == ls[1..][i - 1];
      1 + m
  }

  /** Where a position stands relative to the first rejected lesson. */
  lemma FirstInvalidAt(ls: seq<LessonInput>, i: nat)
    requires i < |ls|
    ensures Acceptable(ls[i]) ==> FirstInvalid(ls) != i
    ensures !Acceptable(ls[i]) ==> FirstInvalid(ls) <= i
  {
  }

  /** The submitted lessons the model accepts, in order. */
  function Accepted(ls: seq<LessonInput>): (r: seq<LessonInput>)
    ensures |r| <= |ls|
  {
    if ls == [] then []
    else Accepted(ls[..|ls| - 1]) + (if Acceptable(ls[|ls| - 1]) then [ls[|ls| - 1]] else [])
  }

  /** When every lesson is accepted, all of them are. */
  lemma {:induction false} AcceptedAll(ls: seq<LessonInput>)
    requires forall i :: 0 <= i < |ls| ==> Acceptable(ls[i])
    ensures Accepted(ls) == ls
  {
    if ls != [] {
      var init := ls[..|ls| - 1];
      assert forall i :: 0 <= i < |init| ==> init[i] == ls[i];
      AcceptedAll(init);
      InitLast(ls);
    }
  }

  /** A non-empty list is its initial part followed by its last element. */
  lemma InitLast(ls: seq<LessonInput>)
    requires ls != []
    ensures ls[..|ls| - 1] + [ls[|ls| - 1]] == ls
  {
  }

  /** The copies of the lessons, in order. */
  function Copies(ls: seq<LessonInput>, sid: Id): (cs: seq<Lesson>)
    ensures |cs| == |ls|
    ensures forall i :: 0 <= i < |ls| ==> cs[i].syllabusId == Some(sid)
  {
    if ls == [] then [] else Copies(ls[..|ls| - 1], sid) + [Copy(ls[|ls| - 1], sid)]
  }

  /** Each copy is the copy of the lesson at the same position. */
  lemma {:induction false} CopiesAt(ls: seq<LessonInput>, sid: Id, i: nat)
    requires i < |ls|
    ensures Copies(ls, sid)[i] == Copy(ls[i], sid)
  {
    if i < |ls| - 1 {
      CopiesAt(ls[..|ls| - 1], sid, i);
    }
  }

  /** Copies of a longer run extend the copies of the shorter one. */
  lemma CopiesSnoc(ls: seq<LessonInput>, l: LessonInput, sid: Id)
    ensures Copies(ls + [l], sid) == Copies(ls, sid) + [Copy(l, sid)]
  {
    assert (ls + [l])[..|ls|] == ls;
  }

  /** Looking at one more lesson keeps it exactly when the model accepts it. */
  lemma AcceptedStep(ls: seq<LessonInput>, i: nat)
    requires i < |ls|
    ensures Accepted(ls[..i + 1]) == Accepted(ls[..i]) + (if Acceptable(ls[i]) then [ls[i]] else [])
  {
    assert ls[..i + 1][..i] == ls[..i];
  }

  /** Inserting the copy of one more lesson extends the run of inserts by one. */
  lemma InsertNextCopy(t: Table<Lesson>, kept: seq<LessonInput>, l: LessonInput, sid: Id)
    ensures InsertAll(t, Copies(kept + [l], sid)) == Insert(InsertAll(t, Copies(kept, sid)), Copy(l, sid)).0
  {
    CopiesSnoc(kept, l, sid);
    var cs := Copies(kept + [l], sid);
    assert cs[..|cs| - 1] == Copies(kept, sid);
  }

  /** Auto-increment inserts of `rows`, one after the other. */
  function InsertAll(t: Table<Lesson>, rows: seq<Lesson>): Table<Lesson>
    decreases |rows|
  {
    if rows == [] then t else Insert(InsertAll(t, rows[..|rows| - 1]), rows[|rows| - 1]).0
  }

  /** The inserts take the next ids in turn and leave every earlier row alone. */
  lemma {:induction false} InsertAllSpec(t: Table<Lesson>, rows: seq<Lesson>)
    ensures InsertAll(t, rows).next == t.next + |rows|
    ensures forall k :: k in t.rows ==> k in InsertAll(t, rows).rows && InsertAll(t, rows).rows[k] == t.rows[k]
    ensures forall k :: t.next <= k < t.next + |rows| ==> k in InsertAll(t, rows).rows && InsertAll(t, rows).rows[k] == rows[k - t.next]
    ensures forall k :: k in InsertAll(t, rows).rows ==> k in t.rows || t.next <= k < t.next + |rows|
  {
    if rows != [] {
      var init := rows[..|rows| - 1];
      InsertAllSpec(t, init);
      var before := InsertAll(t, init);
      var after := InsertAll(t, rows);
      assert after == Insert(before, rows[|rows| - 1]).0;
      assert before.next == t.next + |init|;
      assert after.rows == before.rows[before.next := rows[|init|]];
      forall k | t.next <= k < t.next + |rows| ensures k in after.rows && after.rows[k] == rows[k - t.next] {
        if k < before.next {
          assert rows[k - t.next] == init[k - t.next];
        }
      }
    }
  }

  /**
   * `syllabus.create({ ..., lessons: copies }, { include: lessons })`: the header is checked and
   * inserted, then every lesson copy is saved on its own, so each copy the model accepts is inserted
   * even when another is rejected; the call fails with the messages of the first rejected copy.
   */
  method CreateWithLessons(db: Database, form: SyllabusForm, entityId: Id) returns (r: Result<Id>)
    modifies db
    ensures HeaderErrors(form) != [] ==>
      r.Err? && r.error.statusCode.None? && db.syllabi == old(db.syllabi) && db.lessons == old(db.lessons)
    ensures HeaderErrors(form) == [] ==>
      var sid := old(db.syllabi).next;
      && db.syllabi.rows == old(db.syllabi).rows[sid := NewSyllabus(form, entityId)]
      && db.lessons == InsertAll(old(db.lessons), Copies(Accepted(form.lessons), sid))
      && (r.Ok? <==> FirstInvalid(form.lessons) == |form.lessons|)
      && (r.Ok? ==> r.value == sid && db.lessons == InsertAll(old(db.lessons), Copies(form.lessons, sid)))
      && (r.Err? ==> r.error.statusCode.None?)
    ensures db.users == old(db.users) && db.entities == old(db.entities) && db.userLessons == old(db.userLessons)
    ensures db.messages == old(db.messages) && db.subscriptions == old(db.subscriptions)
  {
    var headerErrors := HeaderErrors(form);
    if headerErrors != [] {
      return Err(ValidationError(headerErrors));
    }
    var sid := db.syllabi.next;
    db.syllabi := Insert(db.syllabi, NewSyllabus(form, entityId)).0;
    var errors := InsertCopies(db, form.lessons, sid);
    if errors.Some? {
      return Err(ValidationError(errors.value));
    }
    AcceptedAll(form.lessons);
    r := Ok(sid);
  }

  /**
   * The lesson half of the create: the copies the model accepts (those with no blank field, see
   * `CopyErrorsIffBlank`) are inserted in the submitted order, and the validation messages of the
   * first rejected one are returned.
   */
  method InsertCopies(db: Database, ls: seq<LessonInput>, sid: Id) returns (errors: Option<seq<string>>)
    modifies db
    ensures db.lessons == InsertAll(old(db.lessons), Copies(Accepted(ls), sid))
    ensures errors.None? <==> FirstInvalid(ls) == |ls|
    ensures errors.Some? ==> errors.value == CopyErrors(ls[FirstInvalid(ls)]) && errors.value != []
    ensures db.syllabi == old(db.syllabi) && db.users == old(db.users) && db.entities == old(db.entities)
    ensures db.userLessons == old(db.userLessons) && db.messages == old(db.messages) && db.subscriptions == old(db.subscriptions)
  {
    var saved, rejected := SaveCopies(db.lessons, ls, sid);
    db.lessons := saved;
    if rejected.Some? {
      CopyErrorsIffBlank(ls[rejected.value]);
      errors := Some(CopyErrors(ls[rejected.value]));
    } else {
      errors := None;
    }
  }

  /** The saving loop: each acceptable copy is inserted in turn, and the first rejected position is remembered. */
  method SaveCopies(lessons: Table<Lesson>, ls: seq<LessonInput>, sid: Id) returns (saved: Table<Lesson>, rejected: Option<nat>)
    ensures saved == InsertAll(lessons, Copies(Accepted(ls), sid))
    ensures rejected.None? <==> FirstInvalid(ls) == |ls|
    ensures rejected.Some? ==> rejected.value == FirstInvalid(ls) < |ls|
  {
    ghost var n := FirstInvalid(ls);
    ghost var kept: seq<LessonInput> := [];
    saved := lessons;
    rejected := None;
    var i := 0;
    while i < |ls|
      invariant 0 <= i <= |ls|
      invariant kept == Accepted(ls[..i])
      invariant saved == InsertAll(lessons, Copies(kept, sid))
      invariant rejected.None? <==> i <= n
      invariant rejected.Some? ==> rejected.value == n
    {
      FirstInvalidAt(ls, i);
      AcceptedStep(ls, i);
      if Acceptable(ls[i]) {
        InsertNextCopy(lessons, kept, ls[i], sid);
        saved := Insert(saved, Copy(ls[i], sid)).0;
        kept := kept + [ls[i]];
      } else if rejected.None? {
        rejected := Some(i);
      }
      i := i + 1;
    }
    assert ls[..i] == ls;
  }

  /**
   * A created syllabus never disturbs what was stored: the old syllabi and lessons keep their rows,
   * the copies take fresh ids (no submitted id is reused) and all belong to the new syllabus.
   */
  lemma CreatedLeavesOldRows(lessons: Table<Lesson>, form: SyllabusForm, sid: Id)
    ensures var after := InsertAll(lessons, Copies(Accepted(form.lessons), sid));
      && (forall k :: k in lessons.rows ==> k in after.rows && after.rows[k] == lessons.rows[k])
      && (forall k :: k in after.rows && k !in lessons.rows ==> k >= lessons.next && after.rows[k].syllabusId == Some(sid))
  {
    var copies := Copies(Accepted(form.lessons), sid);
    InsertAllSpec(lessons, copies);
    var after := InsertAll(lessons, copies);
    forall k | k in after.rows && k !in lessons.rows
      ensures k >= lessons.next && after.rows[k].syllabusId == Some(sid)
    {
      assert after.rows[k] == copies[k - lessons.next];
    }
  }

  // ---------------------------------------------------------------------------------------------
  // Reconciling the lessons of an existing syllabus

  /** `syllabus.lessons.map(l => l.id)`: the ids of the syllabus's lessons. */
  function ExistingIds(lessons: Table<Lesson>, sid: Id): set<Id>
  {
    set k | k in lessons.rows && lessons.rows[k].syllabusId == Some(sid)
  }

  /** `lessons.filter(l => !!l.id).map(l => l.id)`: the ids that were resubmitted. */
  function SubmittedIds(ls: seq<LessonInput>): set<Id>
  {
    set i | 0 <= i < |ls| && ls[i].id.Some? :: ls[i].id.value
  }

  /** The existing lessons whose ids were not resubmitted. */
  function RemovedIds(lessons: Table<Lesson>, ls: seq<LessonInput>, sid: Id): set<Id>
  {
    ExistingIds(lessons, sid) - SubmittedIds(ls)
  }

  /** `lesson.destroy({ where: { id: removed, syllabusId } })`: only rows of this syllabus are deleted. */
  function Destroyed(lessons: Table<Lesson>, removed: set<Id>, sid: Id): (t: Table<Lesson>)
    ensures t.next == lessons.next
    ensures forall k :: k in t.rows <==> k in lessons.rows && !(k in removed && lessons.rows[k].syllabusId == Some(sid))
    ensures forall k :: k in t.rows ==> t.rows[k] == lessons.rows[k]
  {
    Remove(lessons, set k | k in removed && k in lessons.rows && lessons.rows[k].syllabusId == Some(sid))
  }

  /** The four columns `updateOnDuplicate` names, taken from a submitted lesson. */
  function WithContent(row: Lesson, l: LessonInput): Lesson
  {
    row.(title := l.title, objective := l.objective, content := l.content, completion := l.completion)
  }

  /**
   * One row of `bulkCreate(..., { updateOnDuplicate })`: without an id, an insert under this syllabus;
   * with the id of a stored row, an update of the four content columns of that row; with an unused id,
   * an insert under that id.
   */
  function UpsertOne(t: Table<Lesson>, l: LessonInput, sid: Id): (r: Table<Lesson>)
    ensures r.next >= t.next
    ensures forall k :: k in t.rows ==> k in r.rows
    ensures l.id.None? ==> r.rows == t.rows[t.next := WithContent(Lesson(Some(sid), "", "", "", ""), l)]
    ensures l.id.Some? && l.id.value in t.rows ==> r.rows == t.rows[l.id.value := WithContent(t.rows[l.id.value], l)]
    ensures l.id.Some? && l.id.value !in t.rows ==> r.rows == t.rows[l.id.value := WithContent(Lesson(Some(sid), "", "", "", ""), l)]
  {
    var added := WithContent(Lesson(Some(sid), "", "", "", ""), l);
    match l.id
    case None => Insert(t, added).0
    case Some(id) => if id in t.rows then Update(t, id, WithContent(t.rows[id], l)) else Put(t, id, added)
  }

  /** The whole bulk upsert, row by row in the submitted order. */
  function Upserted(t: Table<Lesson>, ls: seq<LessonInput>, sid: Id): Table<Lesson>
  {
    if ls == [] then t else UpsertOne(Upserted(t, ls[..|ls| - 1], sid), ls[|ls| - 1], sid)
  }

  /**
   * The same-version edit of the lessons: the existing lessons that were not resubmitted are deleted,
   * then, when the list is not empty, the bulk upsert runs.
   */
  function Reconciled(lessons: Table<Lesson>, ls: seq<LessonInput>, sid: Id): Table<Lesson>
  {
    var remaining := Destroyed(lessons, RemovedIds(lessons, ls, sid), sid);
    if |ls| > 0 then Upserted(remaining, ls, sid) else remaining
  }

  /** The upsert never deletes; a row it adds has a resubmitted id or an id past the counter, and belongs to this syllabus. */
  lemma {:induction false} UpsertedKeys(t: Table<Lesson>, ls: seq<LessonInput>, sid: Id)
    ensures Upserted(t, ls, sid).next >= t.next
    ensures forall k :: k in t.rows ==> k in Upserted(t, ls, sid).rows
    ensures forall k :: k in Upserted(t, ls, sid).rows && k !in t.rows ==>
      (k in SubmittedIds(ls) || k >= t.next) && Upserted(t, ls, sid).rows[k].syllabusId == Some(sid)
  {
    if ls != [] {
      var init := ls[..|ls| - 1];
      UpsertedKeys(t, init, sid);
      assert forall i :: 0 <= i < |init| ==> init[i] == ls[i];
      assert SubmittedIds(init) <= SubmittedIds(ls);
      var before := Upserted(t, init, sid);
      var l := ls[|ls| - 1];
      if l.id.Some? {
        assert l.id.value in SubmittedIds(ls);
      }
    }
  }

  /** A row whose id was not resubmitted keeps its content through the upsert. */
  lemma {:induction false} UpsertedLeavesOthers(t: Table<Lesson>, ls: seq<LessonInput>, sid: Id, k: Id)
    requires k in t.rows && k !in SubmittedIds(ls)
    ensures k in Upserted(t, ls, sid).rows && Upserted(t, ls, sid).rows[k] == t.rows[k]
  {
    if ls != [] {
      var init := ls[..|ls| - 1];
      assert forall i :: 0 <= i < |init| ==> init[i] == ls[i];
      assert SubmittedIds(init) <= SubmittedIds(ls);
      UpsertedLeavesOthers(t, init, sid, k);
      UpsertedKeys(t, init, sid);
      var l := ls[|ls| - 1];
      if l.id.Some? {
        assert l.id.value in SubmittedIds(ls);
      }
    }
  }

  /** The last submitted lesson with id `id`. */
  predicate LastWithId(ls: seq<LessonInput>, j: int, id: Id)
  {
    0 <= j < |ls| && ls[j].id == Some(id) && forall j' :: j < j' < |ls| ==> ls[j'].id != Some(id)
  }

  /**
   * A resubmitted id ends up holding the content of its last submission; a stored row keeps its
   * syllabus, and a row the upsert creates belongs to this one.
   */
  lemma {:induction false} UpsertedLastWins(t: Table<Lesson>, ls: seq<LessonInput>, sid: Id, id: Id, j: int)
    requires LastWithId(ls, j, id)
    ensures id in Upserted(t, ls, sid).rows
    ensures var row := Upserted(t, ls, sid).rows[id];
      && row.title == ls[j].title && row.objective == ls[j].objective
      && row.content == ls[j].content && row.completion == ls[j].completion
      && row.syllabusId == (if id in t.rows then t.rows[id].syllabusId else Some(sid))
  {
    var n := |ls| - 1;
    var init := ls[..n];
    if j < n {
      assert LastWithId(init, j, id);
      UpsertedLastWins(t, init, sid, id, j);
      assert ls[n].id != Some(id);
    } else {
      LastSubmission(t, ls, sid, id);
    }
  }

  /** The last row of the upsert decides the content of its id. */
  lemma LastSubmission(t: Table<Lesson>, ls: seq<LessonInput>, sid: Id, id: Id)
    requires ls != [] && ls[|ls| - 1].id == Some(id)
    ensures id in Upserted(t, ls, sid).rows
    ensures var row := Upserted(t, ls, sid).rows[id];
      && row == WithContent(row, ls[|ls| - 1])
      && row.syllabusId == (if id in t.rows then t.rows[id].syllabusId else Some(sid))
  {
    var init := ls[..|ls| - 1];
    var before := Upserted(t, init, sid);
    UpsertedKeys(t, init, sid);
    if id in before.rows {
      SyllabusOfUpserted(t, init, sid, id);
    }
  }

  /** Through the upsert a stored row keeps its syllabus, and a row it adds belongs to this one. */
  lemma SyllabusOfUpserted(t: Table<Lesson>, ls: seq<LessonInput>, sid: Id, id: Id)
    requires id in Upserted(t, ls, sid).rows
    ensures Upserted(t, ls, sid).rows[id].syllabusId == (if id in t.rows then t.rows[id].syllabusId else Some(sid))
  {
    if id in t.rows {
      KeptSyllabus(t, ls, sid, id);
    } else {
      UpsertedKeys(t, ls, sid);
    }
  }

  /** The upsert never moves a stored row to another syllabus: `syllabusId` is not an updatable column. */
  lemma {:induction false} KeptSyllabus(t: Table<Lesson>, ls: seq<LessonInput>, sid: Id, id: Id)
    requires id in t.rows
    ensures id in Upserted(t, ls, sid).rows && Upserted(t, ls, sid).rows[id].syllabusId == t.rows[id].syllabusId
  {
    if ls != [] {
      KeptSyllabus(t, ls[..|ls| - 1], sid, id);
    }
  }

  /**
   * After a same-version edit, no lesson of the syllabus that was left out of the list survives,
   * every lesson of another syllabus is still there with the same content unless its id was
   * submitted, and every added row belongs to this syllabus.
   */
  lemma ReconciledSpec(lessons: Table<Lesson>, ls: seq<LessonInput>, sid: Id)
    ensures forall k :: k in ExistingIds(lessons, sid) && k !in SubmittedIds(ls) ==> k !in Reconciled(lessons, ls, sid).rows
    ensures forall k :: k in lessons.rows && lessons.rows[k].syllabusId != Some(sid) ==> k in Reconciled(lessons, ls, sid).rows
    ensures forall k :: k in lessons.rows && k !in SubmittedIds(ls) && lessons.rows[k].syllabusId != Some(sid) ==>
      Reconciled(lessons, ls, sid).rows[k] == lessons.rows[k]
    ensures forall k :: k in Reconciled(lessons, ls, sid).rows && k !in lessons.rows ==>
      Reconciled(lessons, ls, sid).rows[k].syllabusId == Some(sid)
  {
    var remaining := Destroyed(lessons, RemovedIds(lessons, ls, sid), sid);
    if |ls| > 0 {
      UpsertedKeys(remaining, ls, sid);
      forall k | k in lessons.rows && k !in SubmittedIds(ls) && lessons.rows[k].syllabusId != Some(sid)
        ensures Reconciled(lessons, ls, sid).rows[k] == lessons.rows[k]
      {
        UpsertedLeavesOthers(remaining, ls, sid, k);
      }
    }
  }

  /** An empty lesson list removes every lesson of the syllabus and changes nothing else. */
  lemma EmptyListRemovesAll(lessons: Table<Lesson>, sid: Id)
    ensures Reconciled(lessons, [], sid).rows == map k | k in lessons.rows && lessons.rows[k].syllabusId != Some(sid) :: lessons.rows[k]
    ensures Reconciled(lessons, [], sid).next == lessons.next
  {
    assert SubmittedIds([]) == {};
  }

  /** A resubmitted lesson of this syllabus ends up with the content of its last submission, still under this syllabus. */
  lemma ReconciledUpdates(lessons: Table<Lesson>, ls: seq<LessonInput>, sid: Id, id: Id, j: int)
    requires LastWithId(ls, j, id)
    ensures id in Reconciled(lessons, ls, sid).rows
    ensures var row := Reconciled(lessons, ls, sid).rows[id];
      && row.title == ls[j].title && row.objective == ls[j].objective
      && row.content == ls[j].content && row.completion == ls[j].completion
      && (id in lessons.rows ==> row.syllabusId == lessons.rows[id].syllabusId)
      && (id !in lessons.rows ==> row.syllabusId == Some(sid))
  {
    var remaining := Destroyed(lessons, RemovedIds(lessons, ls, sid), sid);
    assert id in SubmittedIds(ls);
    UpsertedLastWins(remaining, ls, sid, id, j);
  }

  /**
   * The database side of a same-version edit: the header columns title, version and ratingId are
   * overwritten (the owning entity stays), the unsubmitted lessons are destroyed, and the rest are
   * upserted.
   */
  method ReviseExisting(db: Database, sid: Id, form: SyllabusForm)
    requires sid in db.syllabi.rows && HeaderErrors(form) == []
    modifies db
    ensures db.syllabi.next == old(db.syllabi).next
    ensures db.syllabi.rows == old(db.syllabi).rows[sid := NewSyllabus(form, old(db.syllabi).rows[sid].entityId)]
    ensures db.lessons == Reconciled(old(db.lessons), form.lessons, sid)
    ensures db.users == old(db.users) && db.entities == old(db.entities) && db.userLessons == old(db.userLessons)
    ensures db.messages == old(db.messages) && db.subscriptions == old(db.subscriptions)
  {
    var stored := db.syllabi.rows[sid];
    RevisedHeader(stored, form);
    db.syllabi := Update(db.syllabi, sid, stored.(title := Stored(Some(form.title)).value, version := form.version,
                                                  ratingId := form.ratingId));
    var lessons := ReconcileLessons(db.lessons, form.lessons, sid);
    db.lessons := lessons;
  }

  /** The overwritten header is the row a create from the same form would insert for the same entity. */
  lemma RevisedHeader(stored: Syllabus, form: SyllabusForm)
    requires HeaderErrors(form) == []
    ensures stored.(title := Stored(Some(form.title)).value, version := form.version, ratingId := form.ratingId)
      == NewSyllabus(form, stored.entityId)
  {
  }

  /** The two lesson writes of a same-version edit: the destroy runs only when something was left out, the upsert only for a non-empty list. */
  method ReconcileLessons(lessons: Table<Lesson>, ls: seq<LessonInput>, sid: Id) returns (t: Table<Lesson>)
    ensures t == Reconciled(lessons, ls, sid)
  {
    t := lessons;
    var removed := RemovedIds(lessons, ls, sid);
    if |removed| > 0 {
      t := Destroyed(t, removed, sid);
    } else {
      DestroyedNothing(lessons, removed, sid);
    }
    if |ls| > 0 {
      t := Upserted(t, ls, sid);
    }
  }

  /** Destroying no ids leaves the table as it was. */
  lemma DestroyedNothing(lessons: Table<Lesson>, removed: set<Id>, sid: Id)
    requires |removed| == 0
    ensures Destroyed(lessons, removed, sid) == lessons
  {
    assert Destroyed(lessons, removed, sid).rows == lessons.rows;
  }
}
