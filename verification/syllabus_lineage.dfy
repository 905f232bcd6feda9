/**
 * `controllers/syllabus.js`, the older lineage of the syllabus handlers: the summary listing with
 * its per-syllabus lesson count, and create and update driven by the route's entity and syllabus
 * ids. Failures are not passed on; the handler re-renders its page with a fixed message.
 */
module SyllabusLineage {
  import opened Wrappers
  import opened Tables
  import opened Schemas
  import opened SyllabusStore
  import Progress

  /** The optional second argument of `getAllSyllabuses`. */
  datatype SearchCriteria = SearchCriteria(syllabusId: Option<Id>, includeLessons: bool)

  /** One element of `updatedSyllabuses`: the syllabus, its lessons when included, and `lessonCount`. */
  datatype Summary = Summary(id: Id, syllabus: Syllabus, lessons: Option<seq<Keyed<Lesson>>>, lessonCount: nat)

  /** The `whereObject`: the entity, and the syllabus id when one is given. */
  predicate Wanted(entityId: Id, criteria: SearchCriteria, x: Keyed<Syllabus>)
  {
    x.row.entityId == entityId && (criteria.syllabusId.Some? ==> x.id == criteria.syllabusId.value)
  }

  function WantedMatcher(entityId: Id, criteria: SearchCriteria): Keyed<Syllabus> -> bool
  {
    (x: Keyed<Syllabus>) => Wanted(entityId, criteria, x)
  }

  /** `lesson.count({ where: { syllabusId } })`. */
  function LessonCount(lessons: Table<Lesson>, sid: Id): nat
  {
    |ExistingIds(lessons, sid)|
  }

  /** The element pushed for one syllabus. */
  function Summarize(lessons: Table<Lesson>, x: Keyed<Syllabus>, includeLessons: bool): Summary
  {
    Summary(x.id, x.row, if includeLessons then Some(Progress.SyllabusLessons(lessons, Some(x.id))) else None,
            LessonCount(lessons, x.id))
  }

  /** What `getAllSyllabuses` returns: one summary per selected syllabus, in query order. */
  function Summaries(syllabi: Table<Syllabus>, lessons: Table<Lesson>, entityId: Id, criteria: SearchCriteria)
    : (r: seq<Summary>)
    ensures |r| == |Select(syllabi, WantedMatcher(entityId, criteria))|
    ensures forall i :: 0 <= i < |r| ==>
      r[i] == Summarize(lessons, Select(syllabi, WantedMatcher(entityId, criteria))[i], criteria.includeLessons)
  {
    var xs := Select(syllabi, WantedMatcher(entityId, criteria));
    seq(|xs|, i requires 0 <= i < |xs| => Summarize(lessons, xs[i], criteria.includeLessons))
  }

  /** `getAllSyllabuses`: the query, then a loop that counts each syllabus's lessons and pushes its summary. */
  method GetAllSyllabuses(syllabi: Table<Syllabus>, lessons: Table<Lesson>, entityId: Id, criteria: SearchCriteria)
    returns (updated: seq<Summary>)
    ensures updated == Summaries(syllabi, lessons, entityId, criteria)
  {
    var found := Select(syllabi, WantedMatcher(entityId, criteria));
    updated := [];
    var i := 0;
    while i < |found|
      invariant 0 <= i <= |found|
      invariant |updated| == i
      invariant forall j :: 0 <= j < i ==> updated[j] == Summarize(lessons, found[j], criteria.includeLessons)
    {
      var x := found[i];
      var lessonCount := LessonCount(lessons, x.id);
      var included := if criteria.includeLessons then Some(Progress.SyllabusLessons(lessons, Some(x.id))) else None;
      var summary := Summary(x.id, x.row, included, lessonCount);
      assert summary == Summarize(lessons, found[i], criteria.includeLessons);
      updated := updated + [summary];
      i := i + 1;
    }
  }

  /**
   * The listing holds the entity's syllabi (only the one asked for, when an id is given), once
   * each and by ascending id; each counts exactly the lessons of its syllabus and carries them only
   * when they were asked for.
   */
  lemma SummariesSound(syllabi: Table<Syllabus>, lessons: Table<Lesson>, entityId: Id, criteria: SearchCriteria)
    ensures var r := Summaries(syllabi, lessons, entityId, criteria);
      && (forall i, j :: 0 <= i < j < |r| ==> r[i].id < r[j].id)
      && (forall i :: 0 <= i < |r| ==>
            && r[i].id in syllabi.rows && r[i].syllabus == syllabi.rows[r[i].id]
            && r[i].syllabus.entityId == entityId
            && (criteria.syllabusId.Some? ==> r[i].id == criteria.syllabusId.value)
            && r[i].lessonCount == |ExistingIds(lessons, r[i].id)|
            && (r[i].lessons.Some? <==> criteria.includeLessons))
  {
    var xs := Select(syllabi, WantedMatcher(entityId, criteria));
    var r := Summaries(syllabi, lessons, entityId, criteria);
    forall i, j | 0 <= i < j < |r| ensures r[i].id < r[j].id {
      assert r[i].id == xs[i].id && r[j].id == xs[j].id;
    }
    forall i | 0 <= i < |r|
      ensures r[i].id in syllabi.rows && r[i].syllabus == syllabi.rows[r[i].id]
      ensures r[i].syllabus.entityId == entityId && (criteria.syllabusId.Some? ==> r[i].id == criteria.syllabusId.value)
      ensures r[i].lessonCount == |ExistingIds(lessons, r[i].id)|
      ensures r[i].lessons.Some? <==> criteria.includeLessons
    {
      assert r[i] == Summarize(lessons, xs[i], criteria.includeLessons);
      assert WantedMatcher(entityId, criteria)(xs[i]);
    }
  }

  /** Every syllabus of the entity (the asked-for one, when an id is given) is listed. */
  lemma SummariesComplete(syllabi: Table<Syllabus>, lessons: Table<Lesson>, entityId: Id, criteria: SearchCriteria, k: Id)
    requires k in syllabi.rows && syllabi.rows[k].entityId == entityId
    requires criteria.syllabusId.Some? ==> k == criteria.syllabusId.value
    ensures var r := Summaries(syllabi, lessons, entityId, criteria);
      exists i :: 0 <= i < |r| && r[i].id == k
  {
    var xs := Select(syllabi, WantedMatcher(entityId, criteria));
    assert WantedMatcher(entityId, criteria)(Keyed(k, syllabi.rows[k]));
    var i :| 0 <= i < |xs| && xs[i] == Keyed(k, syllabi.rows[k]);
    var r := Summaries(syllabi, lessons, entityId, criteria);
    assert r[i].id == k;
  }

  /** When the lessons are included, `lessonCount` is the length of the included list. */
  lemma LessonCountIsLength(lessons: Table<Lesson>, sid: Id)
    ensures LessonCount(lessons, sid) == |Progress.SyllabusLessons(lessons, Some(sid))|
  {
    var ls := Progress.SyllabusLessons(lessons, Some(sid));
    Progress.SyllabusLessonsSpec(lessons, Some(sid));
    assert IdsOf(ls) == ExistingIds(lessons, sid) by {
      forall k | k in ExistingIds(lessons, sid) ensures k in IdsOf(ls) {
        assert Keyed(k, lessons.rows[k]) in ls;
        var j :| 0 <= j < |ls| && ls[j] == Keyed(k, lessons.rows[k]);
      }
    }
    AscendingIdsCount(ls);
  }

  /** Distinct ids: an ascending list has as many ids as elements. */
  lemma {:induction false} AscendingIdsCount<T>(s: seq<Keyed<T>>)
    requires Ascending(s)
    ensures |IdsOf(s)| == |s|
  {
    if s != [] {
      var rest := s[1..];
      AscendingIdsCount(rest);
      IdsOfConcat([s[0]], rest);
      assert s == [s[0]] + rest;
      assert IdsOf([s[0]]) == {s[0].id};
      assert s[0].id !in IdsOf(rest) by {
        forall j | 0 <= j < |rest| ensures rest[j].id != s[0].id {
          assert rest[j] == s[j + 1];
        }
      }
    }
  }

  /** `getUpdateSyllabusPage`: the first summary of the route's syllabus within the route's entity, lessons included. */
  function UpdatePageSummary(syllabi: Table<Syllabus>, lessons: Table<Lesson>, entityId: Id, sid: Id): Option<Summary>
  {
    var r := Summaries(syllabi, lessons, entityId, SearchCriteria(Some(sid), true));
    if r == [] then None else Some(r[0])
  }

  /** The edit page finds the syllabus exactly when it exists and belongs to the route's entity. */
  lemma UpdatePageSpec(syllabi: Table<Syllabus>, lessons: Table<Lesson>, entityId: Id, sid: Id)
    ensures UpdatePageSummary(syllabi, lessons, entityId, sid).Some? <==>
      sid in syllabi.rows && syllabi.rows[sid].entityId == entityId
    ensures UpdatePageSummary(syllabi, lessons, entityId, sid).Some? ==>
      UpdatePageSummary(syllabi, lessons, entityId, sid).value.id == sid
  {
    SummariesSound(syllabi, lessons, entityId, SearchCriteria(Some(sid), true));
    if sid in syllabi.rows && syllabi.rows[sid].entityId == entityId {
      SummariesComplete(syllabi, lessons, entityId, SearchCriteria(Some(sid), true), sid);
    }
  }

  const CREATE_FAILED: Failure := Failure(None, "Could not create the syllabus.")
  const UPDATE_FAILED: Failure := Failure(None, "Could not update syllabus")

  /**
   * `createSyllabus`: the syllabus is created under the route's entity with copies of the submitted
   * lessons; a failure shows the create page with its fixed message, and what was inserted stays.
   */
  method CreateSyllabus(db: Database, entityId: Id, form: SyllabusForm) returns (r: Result<Id>)
    modifies db
    ensures r.Err? ==> r.error == CREATE_FAILED
    ensures HeaderErrors(form) != [] ==> r.Err? && db.syllabi == old(db.syllabi) && db.lessons == old(db.lessons)
    ensures HeaderErrors(form) == [] ==>
      var sid := old(db.syllabi).next;
      && db.syllabi.rows == old(db.syllabi).rows[sid := NewSyllabus(form, entityId)]
      && db.lessons == InsertAll(old(db.lessons), Copies(Accepted(form.lessons), sid))
      && (r.Ok? <==> FirstInvalid(form.lessons) == |form.lessons|)
      && (r.Ok? ==> r.value == sid)
    ensures db.users == old(db.users) && db.entities == old(db.entities) && db.userLessons == old(db.userLessons)
    ensures db.messages == old(db.messages) && db.subscriptions == old(db.subscriptions)
  {
    var created := CreateWithLessons(db, form, entityId);
    if created.Err? {
      return Err(CREATE_FAILED);
    }
    r := created;
  }

  /**
   * `updateSyllabus`: an unknown syllabus id fails before any write; a higher version goes to the
   * create handler under the route's entity; otherwise the header is validated and, when it passes,
   * title, version and ratingId are overwritten and the lessons are reconciled.
   */
  method UpdateSyllabus(db: Database, entityId: Id, sid: Id, form: SyllabusForm) returns (r: Result<()>)
    modifies db
    ensures sid !in old(db.syllabi).rows ==> r == Err(UPDATE_FAILED) && db.syllabi == old(db.syllabi) && db.lessons == old(db.lessons)
    ensures sid in old(db.syllabi).rows && form.version > old(db.syllabi).rows[sid].version ==>
      && (r.Err? ==> r.error == CREATE_FAILED)
      && (HeaderErrors(form) != [] ==> r.Err? && db.syllabi == old(db.syllabi) && db.lessons == old(db.lessons))
      && (HeaderErrors(form) == [] ==>
            var added := old(db.syllabi).next;
            && db.syllabi.rows == old(db.syllabi).rows[added := NewSyllabus(form, entityId)]
            && db.lessons == InsertAll(old(db.lessons), Copies(Accepted(form.lessons), added))
            && (r.Ok? <==> FirstInvalid(form.lessons) == |form.lessons|))
    ensures sid in old(db.syllabi).rows && form.version <= old(db.syllabi).rows[sid].version ==>
      && (HeaderErrors(form) != [] ==> r == Err(UPDATE_FAILED) && db.syllabi == old(db.syllabi) && db.lessons == old(db.lessons))
      && (HeaderErrors(form) == [] ==>
            && r.Ok?
            && db.syllabi.next == old(db.syllabi).next
            && db.syllabi.rows == old(db.syllabi).rows[sid := NewSyllabus(form, old(db.syllabi).rows[sid].entityId)]
            && db.lessons == Reconciled(old(db.lessons), form.lessons, sid))
    ensures db.users == old(db.users) && db.entities == old(db.entities) && db.userLessons == old(db.userLessons)
    ensures db.messages == old(db.messages) && db.subscriptions == old(db.subscriptions)
  {
    if sid !in db.syllabi.rows {
      return Err(UPDATE_FAILED);
    }
    if form.version > db.syllabi.rows[sid].version {
      var created := CreateSyllabus(db, entityId, form);
      if created.Err? {
        return Err(created.error);
      }
      return Ok(());
    }
    if HeaderErrors(form) != [] {
      return Err(UPDATE_FAILED);
    }
    ReviseExisting(db, sid, form);
    r := Ok(());
  }
}
