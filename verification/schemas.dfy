/**
 * The field constraints of the lesson, syllabus and entity models, checked when an instance is
 * created or updated, after the trimming hook has run.
 */
module Schemas {
  import opened Wrappers
  import opened Text
  import Validate

  /** What the trimming hook leaves in a STRING or TEXT attribute: the trimmed string, or null. */
  function Stored(v: Option<string>): (r: Option<string>)
    ensures r.None? <==> (v.None? || AllSpace(v.value))
    ensures r.Some? ==> r.value == Trim(v.value)
  {
    match v
    case None => None
    case Some(s) => Validate.EmptyStringToNull(s)
  }

  /**
   * `allowNull: false` with a `notNull` message and `len: [1]`: the message of the failed check, if any.
   * `nullMessage` is the `notNull` message, or the ORM's default when the model gives none.
   */
  function RequiredText(v: Option<string>, nullMessage: string, lenMessage: string): (r: Option<string>)
    ensures r.None? <==> (v.Some? && |v.value| >= 1)
    ensures v.None? ==> r == Some(nullMessage)
    ensures v.Some? && v.value == [] ==> r == Some(lenMessage)
  {
    match v
    case None => Some(nullMessage)
    case Some(s) => if |s| >= 1 then None else Some(lenMessage)
  }

  function Messages(checks: seq<Option<string>>): (r: seq<string>)
    ensures r == [] <==> forall i :: 0 <= i < |checks| ==> checks[i].None?
  {
    if checks == [] then []
    else (match checks[0] case Some(m) => [m] case None => []) + Messages(checks[1..])
  }

  const LESSON_TITLE_EMPTY := "Lesson Title cannot be empty"
  const OBJECTIVE_EMPTY := "Objective cannot be empty"
  /** The objective has no `notNull` message of its own: the ORM's default for `lesson.objective` applies. */
  const OBJECTIVE_NULL := "lesson.objective cannot be null"
  const CONTENT_EMPTY := "Lesson must have content"
  const COMPLETION_EMPTY := "Completion Criteria must have a value"

  /** The validation messages of a lesson, in attribute order; a lesson is saved only when there are none. */
  function LessonErrors(title: Option<string>, objective: Option<string>, content: Option<string>, completion: Option<string>)
    : (r: seq<string>)
    ensures r == [] <==> (title.Some? && |title.value| >= 1 && objective.Some? && |objective.value| >= 1
                          && content.Some? && |content.value| >= 1 && completion.Some? && |completion.value| >= 1)
    ensures title.None? ==> LESSON_TITLE_EMPTY in r
    ensures objective.None? ==> OBJECTIVE_NULL in r
    ensures content.None? ==> CONTENT_EMPTY in r
    ensures completion.None? ==> COMPLETION_EMPTY in r
  {
    var checks := [
      RequiredText(title, LESSON_TITLE_EMPTY, LESSON_TITLE_EMPTY),
      RequiredText(objective, OBJECTIVE_NULL, OBJECTIVE_EMPTY),
      RequiredText(content, CONTENT_EMPTY, CONTENT_EMPTY),
      RequiredText(completion, COMPLETION_EMPTY, COMPLETION_EMPTY)];
    assert checks[0].None? && checks[1].None? && checks[2].None? && checks[3].None? ==>
      forall i :: 0 <= i < |checks| ==> checks[i].None?;
    MessagesContain(checks, 0);
    MessagesContain(checks, 1);
    MessagesContain(checks, 2);
    MessagesContain(checks, 3);
    Messages(checks)
  }

  // models/user.model.js: `allowNull: false` with the ORM's default messages

  const FIRST_NAME_NULL := "user.firstName cannot be null"
  const LAST_NAME_NULL := "user.lastName cannot be null"
  const EMAIL_NULL := "user.email cannot be null"
  const PASSWORD_NULL := "user.passwrd cannot be null"

  /**
   * The validation messages of the user's name and email columns, on the values the trim hook
   * leaves: a blank value becomes null and is refused, each with its own message.
   */
  function UserNameErrors(firstName: string, lastName: string, email: string): (r: seq<string>)
    ensures r == [] <==> !AllSpace(firstName) && !AllSpace(lastName) && !AllSpace(email)
    ensures AllSpace(firstName) ==> FIRST_NAME_NULL in r
    ensures AllSpace(lastName) ==> LAST_NAME_NULL in r
    ensures AllSpace(email) ==> EMAIL_NULL in r
  {
    var checks := [RequiredText(Stored(Some(firstName)), FIRST_NAME_NULL, FIRST_NAME_NULL),
                   RequiredText(Stored(Some(lastName)), LAST_NAME_NULL, LAST_NAME_NULL),
                   RequiredText(Stored(Some(email)), EMAIL_NULL, EMAIL_NULL)];
    assert checks[0].None? && checks[1].None? && checks[2].None? ==>
      forall i :: 0 <= i < |checks| ==> checks[i].None?;
    MessagesContain(checks, 0);
    MessagesContain(checks, 1);
    MessagesContain(checks, 2);
    Messages(checks)
  }

  lemma {:induction false} MessagesContain(checks: seq<Option<string>>, i: nat)
    requires i < |checks|
    ensures checks[i].Some? ==> checks[i].value in Messages(checks)
  {
    if i > 0 {
      MessagesContain(checks[1..], i - 1);
    }
  }

  /** A submitted lesson, once trimmed, passes exactly when none of its four fields is missing or blank. */
  lemma LessonAcceptedIffNonBlank(title: Option<string>, objective: Option<string>, content: Option<string>, completion: Option<string>)
    ensures LessonErrors(Stored(title), Stored(objective), Stored(content), Stored(completion)) == [] <==>
      (title.Some? && !AllSpace(title.value) && objective.Some? && !AllSpace(objective.value)
       && content.Some? && !AllSpace(content.value) && completion.Some? && !AllSpace(completion.value))
  {
  }

  const SYLLABUS_TITLE_EMPTY := "Syllabus Title cannot be empty"
  const VERSION_REQUIRED := "Version is required"
  const VERSION_TOO_SMALL := "Version must be greater than zero"
  const MIN_VERSION: real := 0.1

  /** The validation messages of a syllabus: a non-empty title and a version of at least 0.1. */
  function SyllabusErrors(title: Option<string>, version: Option<real>): (r: seq<string>)
    ensures r == [] <==> (title.Some? && |title.value| >= 1 && version.Some? && version.value >= MIN_VERSION)
    ensures version.None? ==> VERSION_REQUIRED in r
    ensures version.Some? && version.value < MIN_VERSION ==> VERSION_TOO_SMALL in r
    ensures title.None? ==> SYLLABUS_TITLE_EMPTY in r
  {
    var versionCheck :=
      match version
      case None => Some(VERSION_REQUIRED)
      case Some(v) => if v >= MIN_VERSION then None else Some(VERSION_TOO_SMALL);
    var checks := [RequiredText(title, SYLLABUS_TITLE_EMPTY, SYLLABUS_TITLE_EMPTY), versionCheck];
    assert checks[0].None? && checks[1].None? ==> forall i :: 0 <= i < |checks| ==> checks[i].None?;
    MessagesContain(checks, 0);
    MessagesContain(checks, 1);
    Messages(checks)
  }

  const ENTITY_NAME_EMPTY := "Entity name cannot be empty"

  /** The validation messages of an entity: its name must be present and non-empty. */
  function EntityErrors(name: Option<string>): (r: seq<string>)
    ensures r == [] <==> (name.Some? && |name.value| >= 1)
    ensures r != [] ==> r == [ENTITY_NAME_EMPTY]
  {
    Messages([RequiredText(name, ENTITY_NAME_EMPTY, ENTITY_NAME_EMPTY)])
  }

  /** An entity name is accepted exactly when it is not blank; what is stored is the trimmed name. */
  lemma EntityAcceptedIffNonBlank(name: string)
    ensures EntityErrors(Stored(Some(name))) == [] <==> !AllSpace(name)
    ensures EntityErrors(Stored(Some(name))) == [] ==> Stored(Some(name)) == Some(Trim(name))
  {
  }

  const VERSION_INFIX := " - Version "

  /**
   * The `displayName` getter: `${title} - Version ${version}`. `versionText` is the number as
   * JavaScript prints it.
   */
  function DisplayName(title: string, versionText: string): (r: string)
    ensures StartsWith(r, title) && EndsWith(r, versionText)
    ensures |r| == |title| + |VERSION_INFIX| + |versionText|
    ensures r[|title|..|title| + |VERSION_INFIX|] == VERSION_INFIX
  {
    title + VERSION_INFIX + versionText
  }

  /** Two display names with equal-length titles are equal only for equal titles and versions. */
  lemma DisplayNameInjective(t1: string, v1: string, t2: string, v2: string)
    requires |t1| == |t2|
    requires DisplayName(t1, v1) == DisplayName(t2, v2)
    ensures t1 == t2 && v1 == v2
  {
    var d := DisplayName(t1, v1);
    assert t1 == d[..|t1|] == t2;
    assert v1 == d[|t1| + |VERSION_INFIX|..] == v2;
  }

  /** For a fixed title, the display name tells the versions apart. */
  lemma DisplayNameSeparatesVersions(title: string, v1: string, v2: string)
    requires v1 != v2
    ensures DisplayName(title, v1) != DisplayName(title, v2)
  {
    if DisplayName(title, v1) == DisplayName(title, v2) {
      DisplayNameInjective(title, v1, title, v2);
    }
  }
}
