/**
 * `controllers/entity.js`, the older lineage of the entity handlers: provisioning that always creates
 * the admin user, listings whose "active" rule also accepts a deactivation date not yet reached,
 * the instructor and student lists, and the dashboard page with its visibility rules and totals.
 */
module EntityLineage {
  import opened Wrappers
  import opened Tables
  import opened Text
  import opened Schemas
  import opened Directory
  import SyllabusStore
  import SyllabusLineage
  import EntityController

  /**
   * `createNewEntity`: the entity and its admin user (privilege 2) in one `create` with an include.
   * Errors are not wrapped; a rejected admin leaves the entity in place.
   */
  method CreateNewEntity(db: Database, form: EntityController.EntityForm) returns (r: Result<Id>)
    modifies db
    ensures AllSpace(EntityController.EntityName(form)) ==>
      && r == Err(SyllabusStore.ValidationError([ENTITY_NAME_EMPTY]))
      && db.entities == old(db.entities) && db.users == old(db.users)
    ensures !AllSpace(EntityController.EntityName(form)) ==>
      var eid := old(db.entities).next;
      && db.entities.rows == old(db.entities).rows[eid := EntityController.NewEntity(form)]
      && (EntityController.AdminErrors(form) != [] ==>
            r == Err(SyllabusStore.ValidationError(EntityController.AdminErrors(form))) && db.users == old(db.users))
      && (EntityController.AdminErrors(form) == [] ==>
            && form.email.Some? && r == Ok(eid)
            && db.users.rows == old(db.users).rows[old(db.users).next := EntityController.AdminUser(form, eid)])
    ensures db.syllabi == old(db.syllabi) && db.lessons == old(db.lessons) && db.userLessons == old(db.userLessons)
    ensures db.messages == old(db.messages) && db.subscriptions == old(db.subscriptions)
  {
    var name := EntityController.EntityName(form);
    var errors := EntityErrors(Stored(Some(name)));
    EntityAcceptedIffNonBlank(name);
    if errors != [] {
      return Err(SyllabusStore.ValidationError(errors));
    }
    var inserted := Insert(db.entities, EntityController.NewEntity(form));
    db.entities := inserted.0;
    var adminErrors := EntityController.AdminErrors(form);
    if adminErrors != [] {
      return Err(SyllabusStore.ValidationError(adminErrors));
    }
    db.users := Insert(db.users, EntityController.AdminUser(form, inserted.1)).0;
    r := Ok(inserted.1);
  }

  /** Without an email the controller creates a bare entity, while this lineage rejects the admin. */
  lemma AdminRuleDiffers(form: EntityController.EntityForm)
    requires form.email.None?
    ensures !Truthy(form.email) && EntityController.AdminErrors(form) != []
  {
  }

  // ---------------------------------------------------------------------------------------------
  // getAllEntities

  /** `inactiveDate IS NULL OR CURRENT_DATE <= inactiveDate`. */
  function ActiveOn(today: Date): Option<Date> -> bool
  {
    (d: Option<Date>) => d.None? || today <= d.value
  }

  /** `getAllEntities({ name, entityId })` on the day `today`. */
  function GetAllEntities(entities: Table<Entity>, users: Table<User>, name: Option<string>, entityId: Option<Id>, today: Date)
    : seq<EntityRow>
  {
    Listing(entities, users, name, entityId, ActiveOn(today))
  }

  /**
   * The two lineages list the same entities in the same order; this one never counts fewer users, and
   * it counts the same as the controller when no user of the entity has a deactivation date.
   */
  lemma LineageCountsAtLeast(entities: Table<Entity>, users: Table<User>, e: Id, privileges: set<nat>, today: Date)
    ensures CountUsers(users, e, privileges, EntityController.NullOnly()) <= CountUsers(users, e, privileges, ActiveOn(today))
    ensures (forall k :: k in users.rows && users.rows[k].entityId == e ==> users.rows[k].inactiveDate.None?) ==>
      CountUsers(users, e, privileges, EntityController.NullOnly()) == CountUsers(users, e, privileges, ActiveOn(today))
  {
    CountMonotone(users, e, privileges, EntityController.NullOnly(), ActiveOn(today));
    if forall k :: k in users.rows && users.rows[k].entityId == e ==> users.rows[k].inactiveDate.None? {
      assert CountedUsers(users, e, privileges, EntityController.NullOnly()) == CountedUsers(users, e, privileges, ActiveOn(today));
    }
  }

  /** A user deactivated for a future day still counts here; it does not count in the controller. */
  lemma FutureDateCountsHere(users: Table<User>, k: Id, today: Date)
    requires k in users.rows && users.rows[k].inactiveDate == Some(today + 1)
    ensures var u := users.rows[k];
      k in CountedUsers(users, u.entityId, {u.privilegeId}, ActiveOn(today))
      && k !in CountedUsers(users, u.entityId, {u.privilegeId}, EntityController.NullOnly())
  {
  }

  /** A listing narrowed to one id holds that entity alone, or nothing when there is no such entity. */
  lemma SingleEntityListing(entities: Table<Entity>, users: Table<User>, id: Id, today: Date)
    ensures GetAllEntities(entities, users, None, Some(id), today) ==
      if id in entities.rows then [Row(Keyed(id, entities.rows[id]), users, ActiveOn(today))] else []
  {
    var s := GetAllEntities(entities, users, None, Some(id), today);
    ListingSpec(entities, users, None, Some(id), ActiveOn(today));
    if id in entities.rows {
      var x := Row(Keyed(id, entities.rows[id]), users, ActiveOn(today));
      assert EntityMatches(Keyed(id, entities.rows[id]), None, Some(id));
      assert forall i :: 0 <= i < |s| ==> s[i] == x by {
        forall i | 0 <= i < |s| ensures s[i] == x {
          assert s[i] in s;
        }
      }
      OnlyElement(s, x);
    }
  }

  lemma {:induction false} OnlyElement<T>(s: seq<T>, x: T)
    requires forall i :: 0 <= i < |s| ==> s[i] == x
    requires multiset(s)[x] == 1
    ensures s == [x]
  {
    assert s == [s[0]] + s[1..];
  }

  // ---------------------------------------------------------------------------------------------
  // getAllCFIs and getAllStudents

  /** `getAllCFIs(entityId, { searchStr })`: admins and cfis of the entity, with no active rule. */
  function GetAllCfis(users: Table<User>, entityId: Id, searchStr: Option<string>): (r: seq<Keyed<User>>)
    ensures Ascending(r) && RowsOf(r, users.rows)
    ensures forall j :: 0 <= j < |r| ==>
      r[j].row.entityId == entityId && r[j].row.privilegeId in {ADMIN, CFI} && NameMatches(r[j].row, SearchFilter(searchStr))
    ensures forall k :: k in users.rows && users.rows[k].entityId == entityId && users.rows[k].privilegeId in {ADMIN, CFI} ==>
      NameMatches(users.rows[k], SearchFilter(searchStr)) ==> Keyed(k, users.rows[k]) in r
  {
    var m := (u: Keyed<User>) => u.row.entityId == entityId && u.row.privilegeId in {ADMIN, CFI} && NameMatches(u.row, SearchFilter(searchStr));
    var r := Select(users, m);
    assert forall j :: 0 <= j < |r| ==> m(r[j]);
    r
  }

  /** `getAllStudents(entityId, { searchStr, cfiId })`: students of the entity, narrowed to one cfi when a truthy id is given. */
  function GetAllStudents(users: Table<User>, entityId: Id, searchStr: Option<string>, cfiId: Option<Id>): (r: seq<Keyed<User>>)
    ensures Ascending(r) && RowsOf(r, users.rows)
    ensures forall j :: 0 <= j < |r| ==>
      && r[j].row.entityId == entityId && r[j].row.privilegeId == STUDENT && NameMatches(r[j].row, SearchFilter(searchStr))
      && (cfiId.Some? && cfiId.value != 0 ==> r[j].row.cfiId == cfiId)
    ensures forall k :: k in users.rows && users.rows[k].entityId == entityId && users.rows[k].privilegeId == STUDENT ==>
      NameMatches(users.rows[k], SearchFilter(searchStr)) && (cfiId.Some? && cfiId.value != 0 ==> users.rows[k].cfiId == cfiId) ==>
      Keyed(k, users.rows[k]) in r
  {
    var m := (u: Keyed<User>) => u.row.entityId == entityId && u.row.privilegeId == STUDENT && NameMatches(u.row, SearchFilter(searchStr))
                                && (cfiId.Some? && cfiId.value != 0 ==> u.row.cfiId == cfiId);
    var r := Select(users, m);
    assert forall j :: 0 <= j < |r| ==> m(r[j]);
    r
  }

  // ---------------------------------------------------------------------------------------------
  // getDashboardPage

  function TotalStudents(rows: seq<EntityRow>): nat
  {
    if rows == [] then 0 else TotalStudents(rows[..|rows| - 1]) + rows[|rows| - 1].studentCount
  }

  function TotalCfis(rows: seq<EntityRow>): nat
  {
    if rows == [] then 0 else TotalCfis(rows[..|rows| - 1]) + rows[|rows| - 1].cfiCount
  }

  /** Each listed entity's counts are part of the totals, and an empty list totals 0. */
  lemma {:induction false} TotalsCover(rows: seq<EntityRow>, i: nat)
    requires i < |rows|
    ensures rows[i].studentCount <= TotalStudents(rows) && rows[i].cfiCount <= TotalCfis(rows)
    ensures TotalStudents(rows[..0]) == 0 && TotalCfis(rows[..0]) == 0
  {
    assert rows[..0] == [];
    if i < |rows| - 1 {
      TotalsCover(rows[..|rows| - 1], i);
    }
  }

  /** `['global'].includes(priv)`. */
  predicate SeesEntities(priv: string)
  {
    priv == "global"
  }

  /** `['global', 'admin'].includes(priv)`. */
  predicate SeesCfis(priv: string)
  {
    priv == "global" || priv == "admin"
  }

  /** `['global', 'admin', 'cfi'].includes(priv)`. */
  predicate SeesStudents(priv: string)
  {
    priv == "global" || priv == "admin" || priv == "cfi"
  }

  /** What `getDashboardPage` renders. */
  datatype DashboardPage = DashboardPage(
    userEntity: Option<EntityRow>,
    currentEntity: Option<EntityRow>,
    entities: seq<EntityRow>,
    cfis: seq<Keyed<User>>,
    students: seq<Keyed<User>>,
    syllabuses: seq<SyllabusLineage.Summary>,
    subscriptions: seq<Keyed<Subscription>>,
    priv: string,
    studentCount: nat,
    cfiCount: nat)

  function FirstRow(rows: seq<EntityRow>): Option<EntityRow>
  {
    if rows == [] then None else Some(rows[0])
  }

  /**
   * `getDashboardPage`: the route's entity or else the viewer's own; entities and subscriptions only
   * for global, cfis and syllabi for global and admin, students for global, admin and cfi. The entity
   * list is asked for with `searchStr`, a key the listing does not read, so `entityQuery` filters
   * nothing. The totals add up the listed entities' counts.
   */
  method GetDashboardPage(db: Database, routeEntityId: Option<Id>, viewerEntityId: Id, priv: string,
                          entityQuery: Option<string>, cfiQuery: Option<string>, studentQuery: Option<string>, today: Date)
    returns (page: DashboardPage)
    ensures var entityId := if routeEntityId.Some? then routeEntityId.value else viewerEntityId;
      && page.priv == priv
      && page.entities == (if SeesEntities(priv) then GetAllEntities(db.entities, db.users, None, None, today) else [])
      && page.subscriptions == (if SeesEntities(priv) then All(db.subscriptions) else [])
      && page.cfis == (if SeesCfis(priv) then GetAllCfis(db.users, entityId, cfiQuery) else [])
      && page.syllabuses == (if SeesCfis(priv)
                             then SyllabusLineage.Summaries(db.syllabi, db.lessons, entityId, SyllabusLineage.SearchCriteria(None, false))
                             else [])
      && page.students == (if SeesStudents(priv) then GetAllStudents(db.users, entityId, studentQuery, None) else [])
      && page.currentEntity == FirstRow(GetAllEntities(db.entities, db.users, None, Some(entityId), today))
      && page.userEntity == FirstRow(GetAllEntities(db.entities, db.users, None, Some(viewerEntityId), today))
      && page.studentCount == TotalStudents(page.entities) && page.cfiCount == TotalCfis(page.entities)
  {
    var entityId := if routeEntityId.Some? then routeEntityId.value else viewerEntityId;
    var entities: seq<EntityRow> := [];
    var cfis: seq<Keyed<User>> := [];
    var students: seq<Keyed<User>> := [];
    var syllabuses: seq<SyllabusLineage.Summary> := [];
    var subscriptions: seq<Keyed<Subscription>> := [];
    if SeesEntities(priv) {
      subscriptions := All(db.subscriptions);
      entities := GetAllEntities(db.entities, db.users, None, None, today);
    }
    if SeesCfis(priv) {
      cfis := GetAllCfis(db.users, entityId, cfiQuery);
      syllabuses := SyllabusLineage.GetAllSyllabuses(db.syllabi, db.lessons, entityId, SyllabusLineage.SearchCriteria(None, false));
    }
    if SeesStudents(priv) {
      students := GetAllStudents(db.users, entityId, studentQuery, None);
    }
    var currentEntity := FirstRow(GetAllEntities(db.entities, db.users, None, Some(entityId), today));
    var userEntity := FirstRow(GetAllEntities(db.entities, db.users, None, Some(viewerEntityId), today));
    var studentCount, cfiCount := SumCounts(entities);
    page := DashboardPage(userEntity, currentEntity, entities, cfis, students, syllabuses, subscriptions, priv,
                          studentCount, cfiCount);
  }

  /** The `entities.reduce(...)` step: the student and instructor counts of the listed entities, added up. */
  method SumCounts(entities: seq<EntityRow>) returns (studentCount: nat, cfiCount: nat)
    ensures studentCount == TotalStudents(entities) && cfiCount == TotalCfis(entities)
  {
    studentCount, cfiCount := 0, 0;
    var i := 0;
    while i < |entities|
      invariant 0 <= i <= |entities|
      invariant studentCount == TotalStudents(entities[..i]) && cfiCount == TotalCfis(entities[..i])
    {
      assert entities[..i + 1][..i] == entities[..i];
      studentCount := studentCount + entities[i].studentCount;
      cfiCount := cfiCount + entities[i].cfiCount;
      i := i + 1;
    }
    assert entities[..i] == entities;
  }

  /**
   * The dashboard's entity is the one it names: the listing finds it exactly when it exists, and then
   * carries its counts under this lineage's active rule.
   */
  lemma CurrentEntitySpec(entities: Table<Entity>, users: Table<User>, id: Id, today: Date)
    ensures FirstRow(GetAllEntities(entities, users, None, Some(id), today)).Some? <==> id in entities.rows
    ensures id in entities.rows ==>
      FirstRow(GetAllEntities(entities, users, None, Some(id), today)) == Some(Row(Keyed(id, entities.rows[id]), users, ActiveOn(today)))
  {
    SingleEntityListing(entities, users, id, today);
  }

  /** The global view lists every entity, whatever entity search the request carried. */
  lemma GlobalListUnfiltered(entities: Table<Entity>, users: Table<User>, today: Date, k: Id)
    requires k in entities.rows
    ensures Row(Keyed(k, entities.rows[k]), users, ActiveOn(today)) in GetAllEntities(entities, users, None, None, today)
  {
    ListingComplete(entities, users, None, None, ActiveOn(today), k);
  }
}
