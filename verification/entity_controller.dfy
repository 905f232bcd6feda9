/**
 * `controllers/entity.controller.js`: entity provisioning with its optional admin user, the entity
 * lookup and listing with instructor and student counts, the admin dashboard with its progress
 * average, and the subscription change.
 */
module EntityController {
  import opened Wrappers
  import opened Text
  import opened Tables
  import opened Schemas
  import opened Directory
  import opened Progress
  import SyllabusStore
  import UserController
  import SubscriptionController
  import SyllabusController

  // ---------------------------------------------------------------------------------------------
  // createNewEntity

  /** The sign-up body `createNewEntity` reads. */
  datatype EntityForm = EntityForm(
    orgName: Option<string>,
    orgPhone: Option<string>,
    subscription: Option<Id>,
    firstName: string,
    lastName: string,
    email: Option<string>,
    password: Option<string>)

  /** The organisation name, or the admin's full name when none is given (a CFI signing up alone). */
  function EntityName(form: EntityForm): string
  {
    if Truthy(form.orgName) then form.orgName.value else form.firstName + " " + form.lastName
  }

  /** The entity row as stored, after the trimming hook. */
  function NewEntity(form: EntityForm): Entity
  {
    Entity(Trim(EntityName(form)), Stored(form.orgPhone), form.subscription, None)
  }

  /** The `allowNull: false` checks of the user model on the trimmed admin fields. */
  function AdminErrors(form: EntityForm): (r: seq<string>)
    ensures r == [] <==>
      !AllSpace(form.firstName) && !AllSpace(form.lastName) && form.email.Some? && !AllSpace(form.email.value)
      && form.password.Some? && !AllSpace(form.password.value)
  {
    var checks := [RequiredText(Stored(Some(form.firstName)), FIRST_NAME_NULL, FIRST_NAME_NULL),
                   RequiredText(Stored(Some(form.lastName)), LAST_NAME_NULL, LAST_NAME_NULL),
                   RequiredText(Stored(form.email), EMAIL_NULL, EMAIL_NULL),
                   RequiredText(Stored(form.password), PASSWORD_NULL, PASSWORD_NULL)];
    assert checks[0].None? && checks[1].None? && checks[2].None? && checks[3].None? ==>
      forall i :: 0 <= i < |checks| ==> checks[i].None?;
    MessagesContain(checks, 0);
    MessagesContain(checks, 1);
    MessagesContain(checks, 2);
    MessagesContain(checks, 3);
    Messages(checks)
  }

  /** The admin user created with the entity: privilege 2, the trimmed names, email and password. */
  function AdminUser(form: EntityForm, entityId: Id): User
    requires form.email.Some?
  {
    User(Trim(form.firstName), Trim(form.lastName), Trim(form.email.value), Stored(form.password),
         ADMIN, entityId, None, false, None, None, {})
  }

  const CREATE_ENTITY_PREFIX := "Failed to create new entity: "

  /** Every failure of `createNewEntity` is rethrown with status 500 and the prefixed message. */
  function CreateFailure(cause: Failure): (f: Failure)
    ensures f.statusCode == Some(500)
    ensures f.message == CREATE_ENTITY_PREFIX + cause.message
  {
    Status(500, CREATE_ENTITY_PREFIX + cause.message)
  }

  /**
   * What `createNewEntity` leaves: its result, the entity table and the user table. The entity is
   * inserted when its name is not blank; with a truthy email its admin user is saved after it, so
   * a rejected admin leaves the entity in place.
   */
  function Created(entities: Table<Entity>, users: Table<User>, form: EntityForm): (Result<Id>, Table<Entity>, Table<User>)
  {
    var errors := EntityErrors(Stored(Some(EntityName(form))));
    if errors != [] then (Err(CreateFailure(SyllabusStore.ValidationError(errors))), entities, users)
    else
      var (inserted, eid) := Insert(entities, NewEntity(form));
      if !Truthy(form.email) then (Ok(eid), inserted, users)
      else if AdminErrors(form) != [] then (Err(CreateFailure(SyllabusStore.ValidationError(AdminErrors(form)))), inserted, users)
      else (Ok(eid), inserted, Insert(users, AdminUser(form, eid)).0)
  }

  /**
   * A blank entity name is refused and creates nothing; otherwise the entity takes the next id,
   * and the admin is inserted after it exactly when the email is truthy and the admin fields pass.
   */
  lemma CreatedSpec(entities: Table<Entity>, users: Table<User>, form: EntityForm)
    ensures var (r, es, us) := Created(entities, users, form);
      && (AllSpace(EntityName(form)) ==>
            r == Err(CreateFailure(SyllabusStore.ValidationError([ENTITY_NAME_EMPTY]))) && es == entities && us == users)
      && (!AllSpace(EntityName(form)) ==>
            var eid := entities.next;
            && es.rows == entities.rows[eid := NewEntity(form)]
            && (!Truthy(form.email) ==> r == Ok(eid) && us == users)
            && (Truthy(form.email) && AdminErrors(form) != [] ==>
                  r == Err(CreateFailure(SyllabusStore.ValidationError(AdminErrors(form)))) && us == users)
            && (Truthy(form.email) && AdminErrors(form) == [] ==>
                  r == Ok(eid) && us.rows == users.rows[users.next := AdminUser(form, eid)]))
  {
    EntityAcceptedIffNonBlank(EntityName(form));
  }

  /** `createNewEntity`: the entity, then its admin when an email is given; see `Created`. */
  method CreateNewEntity(db: Database, form: EntityForm) returns (r: Result<Id>)
    modifies db
    ensures (r, db.entities, db.users) == Created(old(db.entities), old(db.users), form)
    ensures db.syllabi == old(db.syllabi) && db.lessons == old(db.lessons) && db.userLessons == old(db.userLessons)
    ensures db.messages == old(db.messages) && db.subscriptions == old(db.subscriptions)
  {
    var errors := EntityErrors(Stored(Some(EntityName(form))));
    if errors != [] {
      return Err(CreateFailure(SyllabusStore.ValidationError(errors)));
    }
    var inserted := Insert(db.entities, NewEntity(form));
    db.entities := inserted.0;
    var eid := inserted.1;
    if Truthy(form.email) {
      var adminErrors := AdminErrors(form);
      if adminErrors != [] {
        return Err(CreateFailure(SyllabusStore.ValidationError(adminErrors)));
      }
      db.users := Insert(db.users, AdminUser(form, eid)).0;
    }
    r := Ok(eid);
  }

  /** Every user belongs to a stored entity (the `entityId` foreign key). */
  predicate UsersReferToEntities(users: Table<User>, entities: Table<Entity>)
  {
    forall k :: k in users.rows ==> users.rows[k].entityId in entities.rows
  }

  /** When the sign-up rules held (first name not blank), the fallback name always passes the entity schema. */
  lemma {:induction false} FallbackNameAccepted(form: EntityForm)
    requires !Truthy(form.orgName) && !AllSpace(form.firstName)
    ensures EntityErrors(Stored(Some(EntityName(form)))) == []
  {
    var i :| 0 <= i < |form.firstName| && !IsSpace(form.firstName[i]);
    assert EntityName(form)[i] == form.firstName[i];
    EntityAcceptedIffNonBlank(EntityName(form));
  }

  /**
   * A new entity starts with no users, and creating it with its admin gives it exactly one admin and
   * keeps every user pointing at a stored entity.
   */
  lemma NewEntityHasOneAdmin(users: Table<User>, entities: Table<Entity>, form: EntityForm, active: Option<Date> -> bool)
    requires UsersReferToEntities(users, entities) && form.email.Some?
    requires !AllSpace(EntityName(form))
    ensures var eid := entities.next;
      && CountUsers(users, eid, {ADMIN}, active) == 0
      && (active(None) ==> CountUsers(Insert(users, AdminUser(form, eid)).0, eid, {ADMIN}, active) == 1)
      && UsersReferToEntities(Insert(users, AdminUser(form, eid)).0, Insert(entities, NewEntity(form)).0)
  {
    var eid := entities.next;
    CountWithoutUsers(users, eid, {ADMIN}, active);
    var after := Insert(users, AdminUser(form, eid)).0;
    if active(None) {
      var counted := CountedUsers(after, eid, {ADMIN}, active);
      assert forall k :: k in users.rows ==> after.rows[k] == users.rows[k] && users.rows[k].entityId != eid;
      assert users.next in counted;
      assert counted == {users.next};
    }
  }

  // ---------------------------------------------------------------------------------------------
  // getEntity

  /** An entity with its `subscription` include (a left join on `subscriptionId`). */
  datatype EntityView = EntityView(id: Id, entity: Entity, subscription: Option<Keyed<Subscription>>)

  const ENTITY_NOT_FOUND: Failure := Status(404, "Entity not found")

  function SubscriptionOf(subscriptions: Table<Subscription>, e: Entity): Option<Keyed<Subscription>>
  {
    if e.subscriptionId.Some? && e.subscriptionId.value in subscriptions.rows
    then Some(Keyed(e.subscriptionId.value, subscriptions.rows[e.subscriptionId.value]))
    else None
  }

  /** `getEntity(entityId)`: the entity with that id, or 404 when there is none. */
  function GetEntity(entities: Table<Entity>, subscriptions: Table<Subscription>, entityId: Id): (r: Result<EntityView>)
    ensures r.Err? <==> entityId !in entities.rows
    ensures r.Err? ==> r.error == ENTITY_NOT_FOUND
    ensures r.Ok? ==> r.value.id == entityId && r.value.entity == entities.rows[entityId]
    ensures r.Ok? ==> (r.value.subscription.Some? <==>
      r.value.entity.subscriptionId.Some? && r.value.entity.subscriptionId.value in subscriptions.rows)
  {
    match Get(entities, entityId)
    case None => Err(ENTITY_NOT_FOUND)
    case Some(e) => Ok(EntityView(entityId, e, SubscriptionOf(subscriptions, e)))
  }

  /** A newly created entity is found under the id its creation returned, as it was stored. */
  lemma CreatedEntityFound(entities: Table<Entity>, subscriptions: Table<Subscription>, form: EntityForm)
    ensures var (after, eid) := Insert(entities, NewEntity(form));
      GetEntity(after, subscriptions, eid).Ok? && GetEntity(after, subscriptions, eid).value.entity == NewEntity(form)
      && GetEntity(after, subscriptions, eid).value.entity.name == Trim(EntityName(form))
  {
  }

  // ---------------------------------------------------------------------------------------------
  // getAllEntities

  /** The active rule of this listing: a user counts only while `inactiveDate` is null. */
  function NullOnly(): Option<Date> -> bool
  {
    (d: Option<Date>) => d.None?
  }

  /** `getAllEntities({ name, entityId })`. */
  function GetAllEntities(entities: Table<Entity>, users: Table<User>, name: Option<string>, entityId: Option<Id>)
    : seq<EntityRow>
  {
    Listing(entities, users, name, entityId, NullOnly())
  }

  /** The listing is ordered by name, ignoring case, and holds each matching entity once, with the counts of this listing's active rule. */
  lemma GetAllEntitiesSpec(entities: Table<Entity>, users: Table<User>, name: Option<string>, entityId: Option<Id>)
    ensures var rows := GetAllEntities(entities, users, name, entityId);
      && SortedByName(rows)
      && (forall r :: r in rows ==>
            && r.id in entities.rows && EntityMatches(Keyed(r.id, entities.rows[r.id]), name, entityId)
            && r.cfiCount == CountUsers(users, r.id, {ADMIN, CFI}, NullOnly())
            && r.studentCount == CountUsers(users, r.id, {STUDENT}, NullOnly()))
      && (forall k :: k in entities.rows && EntityMatches(Keyed(k, entities.rows[k]), name, entityId) ==>
            exists r :: r in rows && r.id == k)
  {
    var rows := GetAllEntities(entities, users, name, entityId);
    ListingSpec(entities, users, name, entityId, NullOnly());
    forall k | k in entities.rows && EntityMatches(Keyed(k, entities.rows[k]), name, entityId)
      ensures exists r :: r in rows && r.id == k
    {
      var r := Row(Keyed(k, entities.rows[k]), users, NullOnly());
      assert multiset(rows)[r] == 1;
      assert r in rows;
    }
  }

  /**
   * A count of this listing is the number of the entity's users with those privileges and no
   * deactivation date; an entity without users counts 0.
   */
  lemma NullOnlyCount(users: Table<User>, entityId: Id, privileges: set<nat>)
    ensures CountUsers(users, entityId, privileges, NullOnly()) ==
      |set k | k in users.rows && users.rows[k].entityId == entityId && users.rows[k].privilegeId in privileges
                 && users.rows[k].inactiveDate.None?|
    ensures (forall k :: k in users.rows ==> users.rows[k].entityId != entityId) ==>
      CountUsers(users, entityId, privileges, NullOnly()) == 0
  {
    var a := CountedUsers(users, entityId, privileges, NullOnly());
    var b := set k | k in users.rows && users.rows[k].entityId == entityId && users.rows[k].privilegeId in privileges
                       && users.rows[k].inactiveDate.None?;
    assert a == b;
    if forall k :: k in users.rows ==> users.rows[k].entityId != entityId {
      CountWithoutUsers(users, entityId, privileges, NullOnly());
    }
  }

  // ---------------------------------------------------------------------------------------------
  // getEntityDashboard

  /** A missing query string is passed as `undefined`, which `getUsers` drops. */
  function SearchValue(s: Option<string>): UserController.WhereValue
  {
    if s.Some? then UserController.Text(s.value) else UserController.Null
  }

  function CfiWhere(entityId: Id, search: Option<string>): map<string, UserController.WhereValue>
  {
    map["entityId" := UserController.Number(entityId), "privilege" := UserController.Text("cfi"),
        "searchStr" := SearchValue(search)]
  }

  function StudentWhere(entityId: Id, search: Option<string>): map<string, UserController.WhereValue>
  {
    map["entityId" := UserController.Number(entityId), "privilege" := UserController.Text("student"),
        "searchStr" := SearchValue(search), "includeCfi" := UserController.Flag(true),
        "includeSyllabus" := UserController.Flag(true)]
  }

  /** The listed users as dashboard rows, before the loop writes their progress. */
  function Listed(us: seq<Keyed<User>>): (rows: seq<StudentRow>)
    ensures |rows| == |us|
    ensures forall i :: 0 <= i < |us| ==> rows[i] == StudentRow(us[i].id, us[i].row, None)
  {
    seq(|us|, i requires 0 <= i < |us| => StudentRow(us[i].id, us[i].row, None))
  }

  /** `['global', 'admin'].includes(req.session.user.privilege)`. */
  predicate CanEditUser(privilege: string)
  {
    privilege == "global" || privilege == "admin"
  }

  datatype AdminDashboard = AdminDashboard(
    currentEntity: EntityView,
    subscriptions: seq<SubscriptionController.SubscriptionView>,
    cfis: seq<Keyed<User>>,
    students: seq<StudentRow>,
    overallProgress: Option<real>,
    syllabi: seq<SyllabusController.SyllabusRecord>,
    canEditUser: bool)

  /**
   * What `getEntityDashboard` renders, or the error it passes on: the five queries (the first
   * failure in list order is the one reported), then each student's progress and their mean.
   */
  function AdminView(db: Database, entityId: Id, cfiSearch: Option<string>, studentSearch: Option<string>, privilege: string)
    : Result<AdminDashboard>
    reads db
  {
    match GetEntity(db.entities, db.subscriptions, entityId)
    case Err(e) => Err(e)
    case Ok(entity) =>
      match UserController.GetUsersResult(db.users, CfiWhere(entityId, cfiSearch), None)
      case Err(e) => Err(e)
      case Ok(cfis) =>
        match UserController.GetUsersResult(db.users, StudentWhere(entityId, studentSearch), None)
        case Err(e) => Err(e)
        case Ok(students) =>
          match ProgressList(db.users, db.lessons, db.userLessons, Listed(students))
          case Err(e) => Err(e)
          case Ok(ps) =>
            Ok(AdminDashboard(entity, SubscriptionController.GetSubscriptions(db.subscriptions, false, None).value,
                              cfis, Annotated(Listed(students), ps), Mean(ps),
                              SyllabusController.GetSyllabi(db.syllabi, db.lessons, SyllabusController.ByEntity(entityId), None).value,
                              CanEditUser(privilege)))
  }

  /** Each listed student's progress is written onto it; `overallProgress` is their mean. */
  method AnnotateStudents(db: Database, students: seq<Keyed<User>>) returns (r: Result<(seq<StudentRow>, Option<real>)>)
    ensures var ps := ProgressList(db.users, db.lessons, db.userLessons, Listed(students));
      && (ps.Err? ==> r == Err(ps.error))
      && (ps.Ok? ==> r == Ok((Annotated(Listed(students), ps.value), Mean(ps.value))))
  {
    var listed := Listed(students);
    var rows := new StudentRow[|listed|](i requires 0 <= i < |listed| => listed[i]);
    assert rows[..] == listed;
    var overall := AccumulateProgress(ProgressOfStudent(db.users, db.lessons, db.userLessons), rows);
    if overall.Err? {
      return Err(overall.error);
    }
    r := Ok((rows[..], overall.value));
  }

  /** `getEntityDashboard`: fetches the entity, its lists and its syllabi, then runs the progress loop. */
  method EntityDashboard(db: Database, entityId: Id, cfiSearch: Option<string>, studentSearch: Option<string>, privilege: string)
    returns (r: Result<AdminDashboard>)
    ensures r == AdminView(db, entityId, cfiSearch, studentSearch, privilege)
  {
    var entity := GetEntity(db.entities, db.subscriptions, entityId);
    if entity.Err? {
      return Err(entity.error);
    }
    var subscriptions := SubscriptionController.GetSubscriptions(db.subscriptions, false, None);
    var cfiWhere := new UserController.Where(CfiWhere(entityId, cfiSearch));
    var cfis := UserController.GetUsers(db.users, cfiWhere);
    if cfis.Err? {
      return Err(cfis.error);
    }
    var studentWhere := new UserController.Where(StudentWhere(entityId, studentSearch));
    var students := UserController.GetUsers(db.users, studentWhere);
    if students.Err? {
      return Err(students.error);
    }
    var syllabi := SyllabusController.GetSyllabi(db.syllabi, db.lessons, SyllabusController.ByEntity(entityId), None);
    var annotated := AnnotateStudents(db, students.value);
    if annotated.Err? {
      return Err(annotated.error);
    }
    r := Ok(AdminDashboard(entity.value, subscriptions.value, cfis.value, annotated.value.0, annotated.value.1,
                           syllabi.value, CanEditUser(privilege)));
  }

  /** The `where` both dashboard lists reach once rewritten: the entity and one privilege id. */
  function DashboardFields(entityId: Id, privilegeId: nat): map<string, UserController.WhereValue>
  {
    map["entityId" := UserController.Number(entityId), "privilegeId" := UserController.Number(privilegeId)]
  }

  /** The rewritten `where` of the instructor list: the entity and privilege 3, and the lower-cased search. */
  lemma CfiWherePrepared(entityId: Id, search: Option<string>)
    ensures UserController.Prepared(CfiWhere(entityId, search), None) == Ok((DashboardFields(entityId, CFI), SearchFilter(search)))
  {
    var fields := CfiWhere(entityId, search);
    var p := UserController.PrivilegeStep(fields);
    assert p.value == DashboardFields(entityId, CFI)["searchStr" := SearchValue(search)];
    assert UserController.IncludeStep(p.value) == p.value;
    assert p.value - {"searchStr"} == DashboardFields(entityId, CFI);
  }

  /** The rewritten `where` of the student list: the entity and privilege 4, and the lower-cased search. */
  lemma StudentWherePrepared(entityId: Id, search: Option<string>)
    ensures UserController.Prepared(StudentWhere(entityId, search), None) == Ok((DashboardFields(entityId, STUDENT), SearchFilter(search)))
  {
    var kept := DashboardFields(entityId, STUDENT)["searchStr" := SearchValue(search)];
    StudentWherePrivilege(entityId, search);
    StudentWhereIncludes(entityId, search);
    assert kept - {"searchStr"} == DashboardFields(entityId, STUDENT);
  }

  /** The privilege name "student" becomes privilege id 4. */
  lemma StudentWherePrivilege(entityId: Id, search: Option<string>)
    ensures UserController.PrivilegeStep(StudentWhere(entityId, search)) ==
      Ok(DashboardFields(entityId, STUDENT)["searchStr" := SearchValue(search)]
           ["includeCfi" := UserController.Flag(true)]["includeSyllabus" := UserController.Flag(true)])
  {
    var want := DashboardFields(entityId, STUDENT)["searchStr" := SearchValue(search)]
                  ["includeCfi" := UserController.Flag(true)]["includeSyllabus" := UserController.Flag(true)];
    assert PrivilegeId("student") == Some(STUDENT);
    var got := StudentWhere(entityId, search)["privilegeId" := UserController.Number(STUDENT)] - {"privilege"};
    assert got.Keys == want.Keys;
    assert got == want;
  }

  /** Both include flags are truthy, so both are dropped. */
  lemma StudentWhereIncludes(entityId: Id, search: Option<string>)
    ensures var kept := DashboardFields(entityId, STUDENT)["searchStr" := SearchValue(search)];
      UserController.IncludeStep(kept["includeCfi" := UserController.Flag(true)]["includeSyllabus" := UserController.Flag(true)]) == kept
  {
  }

  /** A user row satisfies the rewritten dashboard `where` exactly when it has that entity, privilege and name. */
  lemma DashboardMatch(u: Keyed<User>, entityId: Id, privilegeId: nat, search: Option<string>)
    ensures UserController.UserMatches(u, DashboardFields(entityId, privilegeId), search) <==>
      u.row.entityId == entityId && u.row.privilegeId == privilegeId && NameMatches(u.row, search)
  {
    var fields := DashboardFields(entityId, privilegeId);
    assert fields.Keys == {"entityId", "privilegeId"};
    assert UserController.ColumnMatches(u, "entityId", fields["entityId"]) <==> u.row.entityId == entityId;
    assert UserController.ColumnMatches(u, "privilegeId", fields["privilegeId"]) <==> u.row.privilegeId == privilegeId;
  }

  /** A dashboard list is exactly the users of that entity and privilege whose names match the search. */
  lemma DashboardListSpec(users: Table<User>, entityId: Id, privilegeId: nat, search: Option<string>)
    ensures var r := UserController.FindAll(users, DashboardFields(entityId, privilegeId), search);
      && r.Ok? && RowsOf(r.value, users.rows)
      && (forall j :: 0 <= j < |r.value| ==>
            r.value[j].row.entityId == entityId && r.value[j].row.privilegeId == privilegeId && NameMatches(r.value[j].row, search))
      && (forall k :: k in users.rows && users.rows[k].entityId == entityId && users.rows[k].privilegeId == privilegeId ==>
            NameMatches(users.rows[k], search) ==> Keyed(k, users.rows[k]) in r.value)
  {
    var fields := DashboardFields(entityId, privilegeId);
    assert fields.Keys == {"entityId", "privilegeId"};
    var r := UserController.FindAll(users, fields, search);
    forall j | 0 <= j < |r.value|
      ensures r.value[j].row.entityId == entityId && r.value[j].row.privilegeId == privilegeId && NameMatches(r.value[j].row, search)
    {
      DashboardMatch(r.value[j], entityId, privilegeId, search);
    }
    forall k | k in users.rows && users.rows[k].entityId == entityId && users.rows[k].privilegeId == privilegeId
      && NameMatches(users.rows[k], search)
      ensures Keyed(k, users.rows[k]) in r.value
    {
      DashboardMatch(Keyed(k, users.rows[k]), entityId, privilegeId, search);
    }
  }

  /** The student progress of a list drawn from the user table: defined, within [0, 100], with a mean. */
  lemma ListedProgress(db: Database, students: seq<Keyed<User>>)
    requires RowsOf(students, db.users.rows)
    ensures var ps := ProgressList(db.users, db.lessons, db.userLessons, Listed(students));
      && ps.Ok?
      && (Mean(ps.value).None? <==> students == [])
      && (Mean(ps.value).Some? ==> 0.0 <= Mean(ps.value).value <= 100.0)
  {
    var listed := Listed(students);
    ProgressListOfKnown(db.users, db.lessons, db.userLessons, listed);
    ProgressListSpec(db.users, db.lessons, db.userLessons, listed);
    var ps := ProgressList(db.users, db.lessons, db.userLessons, listed).value;
    forall i | 0 <= i < |ps| ensures 0.0 <= ps[i] <= 100.0 {
      StudentProgressSpec(db.users, db.lessons, db.userLessons, listed[i].id);
    }
    MeanSpec(ps);
  }

  /** The admin dashboard fails only with 404, for an unknown entity. */
  lemma AdminViewFails(db: Database, entityId: Id, cfiSearch: Option<string>, studentSearch: Option<string>, privilege: string)
    ensures var r := AdminView(db, entityId, cfiSearch, studentSearch, privilege);
      && (r.Err? <==> entityId !in db.entities.rows)
      && (r.Err? ==> r.error == ENTITY_NOT_FOUND)
  {
    if entityId in db.entities.rows {
      CfiWherePrepared(entityId, cfiSearch);
      DashboardListSpec(db.users, entityId, CFI, SearchFilter(cfiSearch));
      StudentListSpec(db.users, entityId, studentSearch);
      var students := UserController.GetUsersResult(db.users, StudentWhere(entityId, studentSearch), None).value;
      ListedProgress(db, students);
    }
  }

  /** The entity's student list is exactly its students whose names match, in the query's terms. */
  lemma StudentListSpec(users: Table<User>, entityId: Id, search: Option<string>)
    ensures var r := UserController.GetUsersResult(users, StudentWhere(entityId, search), None);
      && r.Ok? && RowsOf(r.value, users.rows)
      && (forall j :: 0 <= j < |r.value| ==>
            r.value[j].row.entityId == entityId && r.value[j].row.privilegeId == STUDENT && NameMatches(r.value[j].row, SearchFilter(search)))
      && (forall k :: k in users.rows && users.rows[k].entityId == entityId && users.rows[k].privilegeId == STUDENT ==>
            NameMatches(users.rows[k], SearchFilter(search)) ==> Keyed(k, users.rows[k]) in r.value)
  {
    StudentWherePrepared(entityId, search);
    DashboardListSpec(users, entityId, STUDENT, SearchFilter(search));
  }

  /** A rendered admin dashboard shows the entity, and lists only the entity's instructors whose names match the search. */
  lemma AdminViewCfis(db: Database, entityId: Id, cfiSearch: Option<string>, studentSearch: Option<string>, privilege: string)
    requires AdminView(db, entityId, cfiSearch, studentSearch, privilege).Ok?
    ensures var d := AdminView(db, entityId, cfiSearch, studentSearch, privilege).value;
      && d.currentEntity.entity == db.entities.rows[entityId]
      && (forall j :: 0 <= j < |d.cfis| ==>
            d.cfis[j].row.entityId == entityId && d.cfis[j].row.privilegeId == CFI && NameMatches(d.cfis[j].row, SearchFilter(cfiSearch)))
  {
    CfiWherePrepared(entityId, cfiSearch);
    DashboardListSpec(db.users, entityId, CFI, SearchFilter(cfiSearch));
  }

  /** The rows built from a student list keep each student's id and record, in order. */
  lemma AnnotatedListed(students: seq<Keyed<User>>, ps: seq<real>)
    requires |ps| == |students|
    ensures var rows := Annotated(Listed(students), ps);
      && |rows| == |students|
      && forall j :: 0 <= j < |rows| ==> rows[j].id == students[j].id && rows[j].user == students[j].row
  {
  }

  /** The students of a rendered admin dashboard are the rows of the entity's student query, in order. */
  lemma AdminViewRows(db: Database, entityId: Id, cfiSearch: Option<string>, studentSearch: Option<string>, privilege: string)
    requires AdminView(db, entityId, cfiSearch, studentSearch, privilege).Ok?
    ensures var d := AdminView(db, entityId, cfiSearch, studentSearch, privilege).value;
      var q := UserController.GetUsersResult(db.users, StudentWhere(entityId, studentSearch), None);
      && q.Ok? && |d.students| == |q.value|
      && forall j :: 0 <= j < |d.students| ==> d.students[j].id == q.value[j].id && d.students[j].user == q.value[j].row
  {
    var students := UserController.GetUsersResult(db.users, StudentWhere(entityId, studentSearch), None).value;
    var ps := ProgressList(db.users, db.lessons, db.userLessons, Listed(students)).value;
    AnnotatedListed(students, ps);
  }

  /**
   * A rendered admin dashboard lists exactly the entity's students whose names match the search.
   */
  lemma AdminViewStudents(db: Database, entityId: Id, cfiSearch: Option<string>, studentSearch: Option<string>, privilege: string)
    requires AdminView(db, entityId, cfiSearch, studentSearch, privilege).Ok?
    ensures var d := AdminView(db, entityId, cfiSearch, studentSearch, privilege).value;
      && (forall j :: 0 <= j < |d.students| ==>
            && d.students[j].user.entityId == entityId && d.students[j].user.privilegeId == STUDENT
            && NameMatches(d.students[j].user, SearchFilter(studentSearch)))
      && (forall k :: k in db.users.rows && db.users.rows[k].entityId == entityId && db.users.rows[k].privilegeId == STUDENT ==>
            NameMatches(db.users.rows[k], SearchFilter(studentSearch)) ==> exists j :: 0 <= j < |d.students| && d.students[j].id == k)
  {
    AdminViewRows(db, entityId, cfiSearch, studentSearch, privilege);
    StudentListSpec(db.users, entityId, studentSearch);
    var students := UserController.GetUsersResult(db.users, StudentWhere(entityId, studentSearch), None).value;
    var rows := AdminView(db, entityId, cfiSearch, studentSearch, privilege).value.students;
    forall k | k in db.users.rows && db.users.rows[k].entityId == entityId && db.users.rows[k].privilegeId == STUDENT
      && NameMatches(db.users.rows[k], SearchFilter(studentSearch))
      ensures exists j :: 0 <= j < |rows| && rows[j].id == k
    {
      var j :| 0 <= j < |students| && students[j] == Keyed(k, db.users.rows[k]);
      assert rows[j].id == k;
    }
  }

  /**
   * Each student of a rendered admin dashboard carries its own progress, and `overallProgress` is
   * their mean: undefined (NaN) with no students, otherwise within [0, 100].
   */
  lemma AdminViewProgress(db: Database, entityId: Id, cfiSearch: Option<string>, studentSearch: Option<string>, privilege: string)
    requires AdminView(db, entityId, cfiSearch, studentSearch, privilege).Ok?
    ensures var d := AdminView(db, entityId, cfiSearch, studentSearch, privilege).value;
      && (forall j :: 0 <= j < |d.students| ==>
            d.students[j].progress.Some?
            && StudentProgress(db.users, db.lessons, db.userLessons, d.students[j].id) == Ok(d.students[j].progress.value))
      && (d.overallProgress.None? <==> d.students == [])
      && (d.overallProgress.Some? ==> 0.0 <= d.overallProgress.value <= 100.0)
  {
    StudentListSpec(db.users, entityId, studentSearch);
    var students := UserController.GetUsersResult(db.users, StudentWhere(entityId, studentSearch), None).value;
    ListedProgress(db, students);
    ProgressListSpec(db.users, db.lessons, db.userLessons, Listed(students));
    var ps := ProgressList(db.users, db.lessons, db.userLessons, Listed(students)).value;
    assert AdminView(db, entityId, cfiSearch, studentSearch, privilege).value.students == Annotated(Listed(students), ps);
    assert AdminView(db, entityId, cfiSearch, studentSearch, privilege).value.overallProgress == Mean(ps);
  }

  // ---------------------------------------------------------------------------------------------
  // updateSubscription

  /** `entity.update({ subscriptionId }, { where: { id } })`: a missing id updates nothing. */
  function Resubscribed(entities: Table<Entity>, entityId: Id, subscriptionId: Option<Id>): Table<Entity>
  {
    if entityId in entities.rows
    then Update(entities, entityId, entities.rows[entityId].(subscriptionId := subscriptionId))
    else entities
  }

  /** Only the subscription of the named entity moves; applying the change twice is applying it once. */
  lemma ResubscribedSpec(entities: Table<Entity>, entityId: Id, subscriptionId: Option<Id>)
    ensures var after := Resubscribed(entities, entityId, subscriptionId);
      && after.rows.Keys == entities.rows.Keys && after.next == entities.next
      && (forall k :: k in entities.rows && k != entityId ==> after.rows[k] == entities.rows[k])
      && (entityId in entities.rows ==>
            && after.rows[entityId].subscriptionId == subscriptionId
            && after.rows[entityId].(subscriptionId := entities.rows[entityId].subscriptionId) == entities.rows[entityId])
      && Resubscribed(after, entityId, subscriptionId) == after
  {
  }

  /** `updateSubscription`: a request that failed validation is refused with 422 before any write. */
  method UpdateSubscription(db: Database, requestValid: bool, entityId: Id, subscriptionId: Option<Id>) returns (r: Result<Id>)
    modifies db
    ensures !requestValid ==> r == Err(VALIDATION_FAILED) && db.entities == old(db.entities)
    ensures requestValid ==> r == Ok(entityId) && db.entities == Resubscribed(old(db.entities), entityId, subscriptionId)
    ensures db.users == old(db.users) && db.syllabi == old(db.syllabi) && db.lessons == old(db.lessons)
    ensures db.userLessons == old(db.userLessons) && db.messages == old(db.messages)
    ensures db.subscriptions == old(db.subscriptions)
  {
    if !requestValid {
      return Err(VALIDATION_FAILED);
    }
    if entityId in db.entities.rows {
      var e := db.entities.rows[entityId];
      db.entities := Update(db.entities, entityId, e.(subscriptionId := subscriptionId));
    }
    r := Ok(entityId);
  }
}
