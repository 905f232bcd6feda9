/**
 * `controllers/user.controller.js`, the dashboards: `getDashboard` fetches the session's entity
 * and dispatches on the session's privilege name to the global listing, the admin dashboard of
 * the session's entity, the instructor dashboard (`getCfiDashboard`) or the student dashboard
 * (`getStudentDashboard`).
 */
module Dashboard {
  import opened Wrappers
  import opened Tables
  import opened Schemas
  import opened Directory
  import opened Progress
  import UserController
  import MessageController
  import EntityController

  /** `req.session.user`, as the login writes it. */
  datatype SessionUser = SessionUser(fullName: Option<string>, id: Id, privilege: string, entityId: Id)

  // ---------------------------------------------------------------------------------------------
  // getCfiDashboard

  const USER_ID_NOT_FOUND: Failure := Status(404, "User ID not found")
  /** What reading `user.entityId` off a `null` user throws. */
  const NO_SUCH_USER: Failure := Crash("Cannot read properties of null (reading 'entityId')")

  /** The instructor's dashboard: `cfis` is always empty and `canEnrollStudent` always false, so neither is kept. */
  datatype CfiDashboard = CfiDashboard(
    currentEntity: EntityController.EntityView,
    students: seq<StudentRow>,
    profile: User,
    overallProgress: Option<real>,
    canEditUser: bool)

  /** The `where` of the instructor's student list: every student assigned to the instructor, in any entity. */
  function CfiStudentWhere(userId: Id, search: Option<string>): map<string, UserController.WhereValue>
  {
    map["privilege" := UserController.Text("student"), "searchStr" := EntityController.SearchValue(search),
        "includeCfi" := UserController.Flag(true), "includeSyllabus" := UserController.Flag(true),
        "cfiId" := UserController.Number(userId)]
  }

  /** The `where` the instructor's list reaches once rewritten: the instructor and privilege 4. */
  function AssignedFields(userId: Id): map<string, UserController.WhereValue>
  {
    map["cfiId" := UserController.Number(userId), "privilegeId" := UserController.Number(STUDENT)]
  }

  /**
   * What `getCfiDashboard` renders, or the error it passes on. `userId` is the route parameter,
   * which the dispatch sets to the session user's id; 0 is falsy and rejected with 404.
   */
  function CfiView(db: Database, userId: Id, studentSearch: Option<string>, privilege: string): Result<CfiDashboard>
    reads db
  {
    if userId == 0 then Err(USER_ID_NOT_FOUND)
    else
      match UserController.FindUser(db.users, userId)
      case None => Err(NO_SUCH_USER)
      case Some(user) =>
        match EntityController.GetEntity(db.entities, db.subscriptions, user.entityId)
        case Err(e) => Err(e)
        case Ok(entity) =>
          match UserController.GetUsersResult(db.users, CfiStudentWhere(userId, studentSearch), None)
          case Err(e) => Err(e)
          case Ok(students) =>
            match ProgressList(db.users, db.lessons, db.userLessons, EntityController.Listed(students))
            case Err(e) => Err(e)
            case Ok(ps) =>
              Ok(CfiDashboard(entity, Annotated(EntityController.Listed(students), ps), user, Mean(ps),
                              EntityController.CanEditUser(privilege)))
  }

  /** `getCfiDashboard`: the instructor, their entity and their students, then the progress loop. */
  method GetCfiDashboard(db: Database, userId: Id, studentSearch: Option<string>, privilege: string)
    returns (r: Result<CfiDashboard>)
    ensures r == CfiView(db, userId, studentSearch, privilege)
  {
    if userId == 0 {
      return Err(USER_ID_NOT_FOUND);
    }
    var user := UserController.FindUser(db.users, userId);
    if user.None? {
      return Err(NO_SUCH_USER);
    }
    var entity := EntityController.GetEntity(db.entities, db.subscriptions, user.value.entityId);
    if entity.Err? {
      return Err(entity.error);
    }
    var where := new UserController.Where(CfiStudentWhere(userId, studentSearch));
    var students := UserController.GetUsers(db.users, where);
    if students.Err? {
      return Err(students.error);
    }
    var annotated := EntityController.AnnotateStudents(db, students.value);
    if annotated.Err? {
      return Err(annotated.error);
    }
    r := Ok(CfiDashboard(entity.value, annotated.value.0, user.value, annotated.value.1,
                         EntityController.CanEditUser(privilege)));
  }

  /** The rewritten `where` of the instructor's list: the instructor, privilege 4 and the lower-cased search. */
  lemma CfiStudentWherePrepared(userId: Id, search: Option<string>)
    ensures UserController.Prepared(CfiStudentWhere(userId, search), None) == Ok((AssignedFields(userId), SearchFilter(search)))
  {
    var kept := AssignedFields(userId)["searchStr" := EntityController.SearchValue(search)];
    CfiStudentWherePrivilege(userId, search);
    CfiStudentWhereIncludes(userId, search);
    assert kept - {"searchStr"} == AssignedFields(userId);
  }

  /** The privilege name "student" becomes privilege id 4. */
  lemma CfiStudentWherePrivilege(userId: Id, search: Option<string>)
    ensures UserController.PrivilegeStep(CfiStudentWhere(userId, search)) ==
      Ok(AssignedFields(userId)["searchStr" := EntityController.SearchValue(search)]
           ["includeCfi" := UserController.Flag(true)]["includeSyllabus" := UserController.Flag(true)])
  {
    var fields := CfiStudentWhere(userId, search);
    var want := AssignedFields(userId)["searchStr" := EntityController.SearchValue(search)]
                  ["includeCfi" := UserController.Flag(true)]["includeSyllabus" := UserController.Flag(true)];
    assert PrivilegeId("student") == Some(STUDENT);
    var got := fields["privilegeId" := UserController.Number(STUDENT)] - {"privilege"};
    assert got.Keys == want.Keys;
    assert got == want;
  }

  /** Both include flags are truthy, so both are dropped. */
  lemma CfiStudentWhereIncludes(userId: Id, search: Option<string>)
    ensures var kept := AssignedFields(userId)["searchStr" := EntityController.SearchValue(search)];
      UserController.IncludeStep(kept["includeCfi" := UserController.Flag(true)]["includeSyllabus" := UserController.Flag(true)]) == kept
  {
  }

  /** A user row satisfies the rewritten `where` exactly when it is a student of that instructor whose name matches. */
  lemma AssignedMatch(u: Keyed<User>, userId: Id, search: Option<string>)
    ensures UserController.UserMatches(u, AssignedFields(userId), search) <==>
      u.row.cfiId == Some(userId) && u.row.privilegeId == STUDENT && NameMatches(u.row, search)
  {
    var fields := AssignedFields(userId);
    assert fields.Keys == {"cfiId", "privilegeId"};
    assert UserController.ColumnMatches(u, "cfiId", fields["cfiId"]) <==> u.row.cfiId == Some(userId);
    assert UserController.ColumnMatches(u, "privilegeId", fields["privilegeId"]) <==> u.row.privilegeId == STUDENT;
  }

  /** The instructor's list is exactly the students assigned to them whose names match, whatever their entity. */
  lemma AssignedListSpec(users: Table<User>, userId: Id, search: Option<string>)
    ensures var r := UserController.GetUsersResult(users, CfiStudentWhere(userId, search), None);
      && r.Ok? && RowsOf(r.value, users.rows)
      && (forall j :: 0 <= j < |r.value| ==>
            r.value[j].row.cfiId == Some(userId) && r.value[j].row.privilegeId == STUDENT
            && NameMatches(r.value[j].row, SearchFilter(search)))
      && (forall k :: k in users.rows && users.rows[k].cfiId == Some(userId) && users.rows[k].privilegeId == STUDENT ==>
            NameMatches(users.rows[k], SearchFilter(search)) ==> Keyed(k, users.rows[k]) in r.value)
  {
    CfiStudentWherePrepared(userId, search);
    var fields := AssignedFields(userId);
    assert fields.Keys == {"cfiId", "privilegeId"};
    var r := UserController.FindAll(users, fields, SearchFilter(search));
    forall j | 0 <= j < |r.value|
      ensures r.value[j].row.cfiId == Some(userId) && r.value[j].row.privilegeId == STUDENT
        && NameMatches(r.value[j].row, SearchFilter(search))
    {
      AssignedMatch(r.value[j], userId, SearchFilter(search));
    }
    forall k | k in users.rows && users.rows[k].cfiId == Some(userId) && users.rows[k].privilegeId == STUDENT
      && NameMatches(users.rows[k], SearchFilter(search))
      ensures Keyed(k, users.rows[k]) in r.value
    {
      AssignedMatch(Keyed(k, users.rows[k]), userId, SearchFilter(search));
    }
  }

  /**
   * The instructor dashboard fails with 404 for a falsy id, with the `null` dereference for an
   * unknown user, and with 404 when the instructor's entity is gone; in no other case.
   */
  lemma CfiViewFails(db: Database, userId: Id, studentSearch: Option<string>, privilege: string)
    ensures var r := CfiView(db, userId, studentSearch, privilege);
      && (userId == 0 ==> r == Err(USER_ID_NOT_FOUND))
      && (userId != 0 && userId !in db.users.rows ==> r == Err(NO_SUCH_USER))
      && (userId != 0 && userId in db.users.rows && db.users.rows[userId].entityId !in db.entities.rows ==>
            r == Err(EntityController.ENTITY_NOT_FOUND))
      && (r.Err? ==> userId == 0 || userId !in db.users.rows || db.users.rows[userId].entityId !in db.entities.rows)
  {
    if userId != 0 && userId in db.users.rows && db.users.rows[userId].entityId in db.entities.rows {
      AssignedListSpec(db.users, userId, studentSearch);
      var students := UserController.GetUsersResult(db.users, CfiStudentWhere(userId, studentSearch), None).value;
      EntityController.ListedProgress(db, students);
    }
  }

  /** A rendered instructor dashboard shows the instructor's own record and entity. */
  lemma CfiViewProfile(db: Database, userId: Id, studentSearch: Option<string>, privilege: string)
    requires CfiView(db, userId, studentSearch, privilege).Ok?
    ensures var d := CfiView(db, userId, studentSearch, privilege).value;
      && userId in db.users.rows && d.profile == db.users.rows[userId]
      && d.currentEntity.id == d.profile.entityId && d.currentEntity.entity == db.entities.rows[d.profile.entityId]
      && (d.canEditUser <==> privilege == "global" || privilege == "admin")
  {
  }

  /** The students of a rendered instructor dashboard are the rows of the instructor's student query, in order. */
  lemma CfiViewRows(db: Database, userId: Id, studentSearch: Option<string>, privilege: string)
    requires CfiView(db, userId, studentSearch, privilege).Ok?
    ensures var d := CfiView(db, userId, studentSearch, privilege).value;
      var q := UserController.GetUsersResult(db.users, CfiStudentWhere(userId, studentSearch), None);
      && q.Ok? && |d.students| == |q.value|
      && forall j :: 0 <= j < |d.students| ==> d.students[j].id == q.value[j].id && d.students[j].user == q.value[j].row
  {
    var students := UserController.GetUsersResult(db.users, CfiStudentWhere(userId, studentSearch), None).value;
    var ps := ProgressList(db.users, db.lessons, db.userLessons, EntityController.Listed(students)).value;
    EntityController.AnnotatedListed(students, ps);
  }

  /**
   * A rendered instructor dashboard lists exactly the students assigned to the instructor whose
   * names match the search, whatever their entity.
   */
  lemma CfiViewStudents(db: Database, userId: Id, studentSearch: Option<string>, privilege: string)
    requires CfiView(db, userId, studentSearch, privilege).Ok?
    ensures var d := CfiView(db, userId, studentSearch, privilege).value;
      && (forall j :: 0 <= j < |d.students| ==>
            && d.students[j].user.cfiId == Some(userId) && d.students[j].user.privilegeId == STUDENT
            && NameMatches(d.students[j].user, SearchFilter(studentSearch)))
      && (forall k :: k in db.users.rows && db.users.rows[k].cfiId == Some(userId) && db.users.rows[k].privilegeId == STUDENT ==>
            NameMatches(db.users.rows[k], SearchFilter(studentSearch)) ==> exists j :: 0 <= j < |d.students| && d.students[j].id == k)
  {
    CfiViewRows(db, userId, studentSearch, privilege);
    AssignedListSpec(db.users, userId, studentSearch);
    var students := UserController.GetUsersResult(db.users, CfiStudentWhere(userId, studentSearch), None).value;
    var rows := CfiView(db, userId, studentSearch, privilege).value.students;
    forall k | k in db.users.rows && db.users.rows[k].cfiId == Some(userId) && db.users.rows[k].privilegeId == STUDENT
      && NameMatches(db.users.rows[k], SearchFilter(studentSearch))
      ensures exists j :: 0 <= j < |rows| && rows[j].id == k
    {
      var j :| 0 <= j < |students| && students[j] == Keyed(k, db.users.rows[k]);
      assert rows[j].id == k;
    }
  }

  /**
   * Each student of a rendered instructor dashboard carries its own progress, and `overallProgress`
   * is their mean: undefined (NaN) with no students, otherwise within [0, 100].
   */
  lemma CfiViewProgress(db: Database, userId: Id, studentSearch: Option<string>, privilege: string)
    requires CfiView(db, userId, studentSearch, privilege).Ok?
    ensures var d := CfiView(db, userId, studentSearch, privilege).value;
      && (forall j :: 0 <= j < |d.students| ==>
            d.students[j].progress.Some?
            && StudentProgress(db.users, db.lessons, db.userLessons, d.students[j].id) == Ok(d.students[j].progress.value))
      && (d.overallProgress.None? <==> d.students == [])
      && (d.overallProgress.Some? ==> 0.0 <= d.overallProgress.value <= 100.0)
  {
    AssignedListSpec(db.users, userId, studentSearch);
    var students := UserController.GetUsersResult(db.users, CfiStudentWhere(userId, studentSearch), None).value;
    EntityController.ListedProgress(db, students);
    ProgressListSpec(db.users, db.lessons, db.userLessons, EntityController.Listed(students));
    var ps := ProgressList(db.users, db.lessons, db.userLessons, EntityController.Listed(students)).value;
    assert CfiView(db, userId, studentSearch, privilege).value.students == Annotated(EntityController.Listed(students), ps);
    assert CfiView(db, userId, studentSearch, privilege).value.overallProgress == Mean(ps);
  }

  // ---------------------------------------------------------------------------------------------
  // getStudentDashboard

  /** The student's dashboard; the random quote it also shows is not part of this model. */
  datatype StudentDashboard = StudentDashboard(profile: User, lessons: seq<LessonView>, progress: real, canEditUser: bool)

  /**
   * What `getStudentDashboard` renders: the student's record, their syllabus's lessons joined with
   * their progress rows, and their progress percentage. An unknown id yields a `null` profile and
   * then makes the lesson query throw.
   */
  function StudentView(db: Database, userId: Id, privilege: string): (r: Result<StudentDashboard>)
    reads db
    ensures r.Err? <==> userId !in db.users.rows
    ensures r.Err? ==> r == Err(Crash("Cannot read properties of null (reading 'syllabusId')"))
    ensures r.Ok? ==>
      && r.value.profile == db.users.rows[userId]
      && ExactJoin(r.value.lessons, db.lessons, db.userLessons, userId, r.value.profile.syllabusId)
      && r.value.progress == Percent(r.value.lessons)
      && 0.0 <= r.value.progress <= 100.0
      && (r.value.canEditUser <==> privilege == "global" || privilege == "admin")
  {
    StudentLessonsSpec(db.users, db.lessons, db.userLessons, userId);
    match UserController.FindUser(db.users, userId)
    case None => Err(Crash("Cannot read properties of null (reading 'syllabusId')"))
    case Some(profile) =>
      var lessons := StudentLessons(db.users, db.lessons, db.userLessons, userId).value;
      PercentSpec(lessons);
      Ok(StudentDashboard(profile, lessons, StudentProgress(db.users, db.lessons, db.userLessons, userId).value,
                          EntityController.CanEditUser(privilege)))
  }

  // ---------------------------------------------------------------------------------------------
  // getDashboard

  const PRIVILEGE_NOT_RECOGNIZED: Failure := Status(403, "User Privilege not recognized")

  /** What the global administrator sees: every entity, with counts, and the unresolved messages. */
  datatype GlobalDashboard = GlobalDashboard(entities: seq<EntityRow>, messages: seq<Keyed<Message>>)

  /** The dashboard `getDashboard` renders, one kind per privilege. */
  datatype Page =
    | GlobalPage(global: GlobalDashboard)
    | AdminPage(admin: EntityController.AdminDashboard)
    | CfiPage(cfi: CfiDashboard)
    | StudentPage(student: StudentDashboard)

  /** The rendered page with `res.locals.currentEntity`, the session's entity. */
  datatype DashboardPage = DashboardPage(sessionEntity: EntityController.EntityView, page: Page)

  function WithPage<T>(r: Result<T>, entity: EntityController.EntityView, make: T -> Page): Result<DashboardPage>
  {
    match r
    case Err(e) => Err(e)
    case Ok(v) => Ok(DashboardPage(entity, make(v)))
  }

  /**
   * What `getDashboard` renders for the session, or the error it passes on. `entitySearch`,
   * `cfiSearch` and `studentSearch` are the query parameters `entity`, `cfi` and `student`.
   */
  function DashboardView(db: Database, session: SessionUser, entitySearch: Option<string>,
                         cfiSearch: Option<string>, studentSearch: Option<string>): Result<DashboardPage>
    reads db
  {
    match EntityController.GetEntity(db.entities, db.subscriptions, session.entityId)
    case Err(e) => Err(e)
    case Ok(entity) =>
      if session.privilege == "global" then
        var entities := EntityController.GetAllEntities(db.entities, db.users, entitySearch, None);
        var messages := MessageController.GetAllMessages(db.messages, None).value;
        Ok(DashboardPage(entity, GlobalPage(GlobalDashboard(entities, messages))))
      else if session.privilege == "admin" then
        WithPage(EntityController.AdminView(db, session.entityId, cfiSearch, studentSearch, session.privilege),
                 entity, (d: EntityController.AdminDashboard) => AdminPage(d))
      else if session.privilege == "cfi" then
        WithPage(CfiView(db, session.id, studentSearch, session.privilege), entity, (d: CfiDashboard) => CfiPage(d))
      else if session.privilege == "student" then
        WithPage(StudentView(db, session.id, session.privilege), entity, (d: StudentDashboard) => StudentPage(d))
      else Err(PRIVILEGE_NOT_RECOGNIZED)
  }

  /** `getDashboard`: the session's entity first, then the dashboard of the session's privilege. */
  method GetDashboard(db: Database, session: SessionUser, entitySearch: Option<string>,
                      cfiSearch: Option<string>, studentSearch: Option<string>) returns (r: Result<DashboardPage>)
    ensures r == DashboardView(db, session, entitySearch, cfiSearch, studentSearch)
  {
    var entity := EntityController.GetEntity(db.entities, db.subscriptions, session.entityId);
    if entity.Err? {
      return Err(entity.error);
    }
    var currentEntity := entity.value;
    match session.privilege
    case "global" =>
      var entities := EntityController.GetAllEntities(db.entities, db.users, entitySearch, None);
      var messages := MessageController.GetAllMessages(db.messages, None);
      r := Ok(DashboardPage(currentEntity, GlobalPage(GlobalDashboard(entities, messages.value))));
    case "admin" =>
      var d := EntityController.EntityDashboard(db, session.entityId, cfiSearch, studentSearch, session.privilege);
      r := if d.Err? then Err(d.error) else Ok(DashboardPage(currentEntity, AdminPage(d.value)));
    case "cfi" =>
      var d := GetCfiDashboard(db, session.id, studentSearch, session.privilege);
      r := if d.Err? then Err(d.error) else Ok(DashboardPage(currentEntity, CfiPage(d.value)));
    case "student" =>
      var d := StudentView(db, session.id, session.privilege);
      r := if d.Err? then Err(d.error) else Ok(DashboardPage(currentEntity, StudentPage(d.value)));
    case _ =>
      r := Err(PRIVILEGE_NOT_RECOGNIZED);
  }

  predicate KnownPrivilege(privilege: string)
  {
    privilege in {"global", "admin", "cfi", "student"}
  }

  /**
   * The dispatch fails with 404 when the session's entity is gone and with 403 for a privilege name
   * it does not know. For the global administrator and an administrator the page succeeds whenever
   * the session's entity exists; for a student, exactly when the student's record exists too.
   */
  lemma DashboardDispatch(db: Database, session: SessionUser, entitySearch: Option<string>,
                          cfiSearch: Option<string>, studentSearch: Option<string>)
    ensures var r := DashboardView(db, session, entitySearch, cfiSearch, studentSearch);
      && (session.entityId !in db.entities.rows ==> r == Err(EntityController.ENTITY_NOT_FOUND))
      && (session.entityId in db.entities.rows && !KnownPrivilege(session.privilege) ==> r == Err(PRIVILEGE_NOT_RECOGNIZED))
      && (session.entityId in db.entities.rows && session.privilege in {"global", "admin"} ==> r.Ok?)
      && (session.entityId in db.entities.rows && session.privilege == "student" ==> (r.Ok? <==> session.id in db.users.rows))
  {
    if session.entityId in db.entities.rows && session.privilege == "admin" {
      EntityController.AdminViewFails(db, session.entityId, cfiSearch, studentSearch, session.privilege);
    }
  }

  /** A rendered dashboard carries the session's entity, and its kind is the session's privilege. */
  lemma DashboardPageKind(db: Database, session: SessionUser, entitySearch: Option<string>,
                          cfiSearch: Option<string>, studentSearch: Option<string>)
    requires DashboardView(db, session, entitySearch, cfiSearch, studentSearch).Ok?
    ensures var d := DashboardView(db, session, entitySearch, cfiSearch, studentSearch).value;
      && d.sessionEntity.id == session.entityId && KnownPrivilege(session.privilege)
      && (d.page.GlobalPage? <==> session.privilege == "global")
      && (d.page.AdminPage? <==> session.privilege == "admin")
      && (d.page.CfiPage? <==> session.privilege == "cfi")
      && (d.page.StudentPage? <==> session.privilege == "student")
  {
  }

  /** An administrator's dashboard is the admin dashboard of the session's own entity: its cfis and students belong to it. */
  lemma AdminSeesOwnEntity(db: Database, session: SessionUser, entitySearch: Option<string>,
                           cfiSearch: Option<string>, studentSearch: Option<string>)
    requires session.privilege == "admin"
    requires DashboardView(db, session, entitySearch, cfiSearch, studentSearch).Ok?
    ensures var p := DashboardView(db, session, entitySearch, cfiSearch, studentSearch).value.page;
      && p.AdminPage?
      && p.admin.currentEntity.id == session.entityId
      && (forall j :: 0 <= j < |p.admin.cfis| ==> p.admin.cfis[j].row.entityId == session.entityId)
      && (forall j :: 0 <= j < |p.admin.students| ==> p.admin.students[j].user.entityId == session.entityId)
  {
    EntityController.AdminViewCfis(db, session.entityId, cfiSearch, studentSearch, session.privilege);
    EntityController.AdminViewStudents(db, session.entityId, cfiSearch, studentSearch, session.privilege);
  }

  /** An instructor's dashboard lists only students assigned to the session user. */
  lemma CfiSeesOwnStudents(db: Database, session: SessionUser, entitySearch: Option<string>,
                           cfiSearch: Option<string>, studentSearch: Option<string>)
    requires session.privilege == "cfi"
    requires DashboardView(db, session, entitySearch, cfiSearch, studentSearch).Ok?
    ensures var p := DashboardView(db, session, entitySearch, cfiSearch, studentSearch).value.page;
      && p.CfiPage?
      && p.cfi.profile == db.users.rows[session.id]
      && (forall j :: 0 <= j < |p.cfi.students| ==> p.cfi.students[j].user.cfiId == Some(session.id))
  {
    CfiViewProfile(db, session.id, studentSearch, session.privilege);
    CfiViewStudents(db, session.id, studentSearch, session.privilege);
  }

  /** The global dashboard lists every entity whose name matches, and every unresolved message. */
  lemma GlobalSeesEverything(db: Database, session: SessionUser, entitySearch: Option<string>,
                             cfiSearch: Option<string>, studentSearch: Option<string>)
    requires session.privilege == "global"
    requires DashboardView(db, session, entitySearch, cfiSearch, studentSearch).Ok?
    ensures var p := DashboardView(db, session, entitySearch, cfiSearch, studentSearch).value.page;
      && p.GlobalPage?
      && (forall k :: k in db.entities.rows && EntityMatches(Keyed(k, db.entities.rows[k]), entitySearch, None) ==>
            exists r :: r in p.global.entities && r.id == k)
      && (forall k :: k in db.messages.rows && !db.messages.rows[k].resolved ==> Keyed(k, db.messages.rows[k]) in p.global.messages)
  {
    EntityController.GetAllEntitiesSpec(db.entities, db.users, entitySearch, None);
  }
}
