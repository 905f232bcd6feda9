/**
 * `controllers/user.controller.js`: the user queries and the account operations on the user table.
 * The student-progress functions of the same file are in module `Progress`; the dashboard dispatch
 * and the instructor dashboard are in module `Dashboard`.
 */
module UserController {
  import opened Wrappers
  import opened Text
  import opened Tables
  import opened Directory
  import opened Schemas
  import SyllabusStore

  /** `findUser({ id })`: the user with that id, or `null`. */
  function FindUser(users: Table<User>, id: Id): (r: Option<User>)
    ensures r.Some? <==> id in users.rows
    ensures r.Some? ==> r.value == users.rows[id]
  {
    Get(users, id)
  }

  // ---------------------------------------------------------------------------------------------
  // getUsers

  /** A value of the `where` object the callers build. */
  datatype WhereValue = Text(s: string) | Number(n: int) | Flag(b: bool) | Null

  /** JavaScript truthiness of a present value. */
  predicate Truthy(v: WhereValue)
  {
    match v
    case Text(s) => s != ""
    case Number(n) => n != 0
    case Flag(b) => b
    case Null => false
  }

  predicate TruthyField(fields: map<string, WhereValue>, key: string)
  {
    key in fields && Truthy(fields[key])
  }

  /** The prefix of every error `getUsers` rethrows. */
  const USERS_ERROR: string := "Could not fetch users: "

  /** The object `getUsers` is given and rewrites in place: its own keys, and the `[Op.or]` name condition. */
  class Where {
    var fields: map<string, WhereValue>
    /** `where[Op.or]`: the lower-cased search string both name columns are matched against. */
    var nameSearch: Option<string>

    constructor (fields: map<string, WhereValue>)
      ensures this.fields == fields && nameSearch.None?
    {
      this.fields := fields;
      nameSearch := None;
    }
  }

  /** Keys the rewriting adds or removes; every other key passes through unchanged. */
  predicate Helper(k: string)
  {
    k in {"privilege", "privilegeId", "includeCfi", "includeSyllabus", "searchStr"}
  }

  predicate KeepsOthers(before: map<string, WhereValue>, after: map<string, WhereValue>)
  {
    forall k :: k in after && !Helper(k) ==> k in before && after[k] == before[k]
  }

  /** The error `getUsers` rethrows when the privilege lookup finds no row. */
  const NO_PRIVILEGE: Failure := Crash(USERS_ERROR + "TypeError: Cannot destructure property 'id' of null")
  /** The error `getUsers` rethrows when the search string has no `toLowerCase`. */
  const NOT_A_STRING: Failure := Crash(USERS_ERROR + "TypeError: where.searchStr.toLowerCase is not a function")

  /** A truthy privilege name is looked up and replaced by `privilegeId`. */
  function PrivilegeStep(fields: map<string, WhereValue>): (r: Result<map<string, WhereValue>>)
    ensures r.Err? <==> TruthyField(fields, "privilege") && (!fields["privilege"].Text? || PrivilegeId(fields["privilege"].s).None?)
    ensures r.Ok? && TruthyField(fields, "privilege") ==>
      && "privilege" !in r.value && "privilegeId" in r.value
      && fields["privilege"].Text? && PrivilegeId(fields["privilege"].s).Some?
      && r.value["privilegeId"] == Number(PrivilegeId(fields["privilege"].s).value)
    ensures r.Ok? && !TruthyField(fields, "privilege") ==> r.value == fields
    ensures r.Ok? ==> KeepsOthers(fields, r.value)
  {
    if TruthyField(fields, "privilege") then
      var v := fields["privilege"];
      if v.Text? && PrivilegeId(v.s).Some? then
        Ok((fields["privilegeId" := Number(PrivilegeId(v.s).value)]) - {"privilege"})
      else Err(NO_PRIVILEGE)
    else Ok(fields)
  }

  /** A truthy `includeCfi` or `includeSyllabus` is deleted once the include is set up. */
  function IncludeStep(fields: map<string, WhereValue>): (r: map<string, WhereValue>)
    ensures !TruthyField(r, "includeCfi") && !TruthyField(r, "includeSyllabus")
    ensures forall k :: k in r ==> k in fields && r[k] == fields[k]
    ensures forall k :: k in fields && k != "includeCfi" && k != "includeSyllabus" ==> k in r
  {
    var f := if TruthyField(fields, "includeCfi") then fields - {"includeCfi"} else fields;
    if TruthyField(f, "includeSyllabus") then f - {"includeSyllabus"} else f
  }

  /** A truthy search string becomes the lower-cased name condition; the key is deleted in every case. */
  function SearchStep(fields: map<string, WhereValue>, nameSearch: Option<string>)
    : (r: Result<(map<string, WhereValue>, Option<string>)>)
    ensures r.Err? <==> TruthyField(fields, "searchStr") && !fields["searchStr"].Text?
    ensures r.Ok? ==> r.value.0 == fields - {"searchStr"}
    ensures r.Ok? && TruthyField(fields, "searchStr") ==> r.value.1 == Some(Lower(fields["searchStr"].s))
    ensures r.Ok? && !TruthyField(fields, "searchStr") ==> r.value.1 == nameSearch
  {
    if TruthyField(fields, "searchStr") then
      var v := fields["searchStr"];
      if v.Text? then Ok((fields - {"searchStr"}, Some(Lower(v.s)))) else Err(NOT_A_STRING)
    else Ok((fields - {"searchStr"}, nameSearch))
  }

  /**
   * What the rewriting of the `where` object leaves: the privilege name replaced by its id, the
   * truthy include flags dropped, the name condition added for a truthy search string, and the
   * search string dropped. An unknown privilege name, or a search string that is not a string,
   * makes the rewriting throw.
   */
  function Prepared(fields: map<string, WhereValue>, nameSearch: Option<string>)
    : Result<(map<string, WhereValue>, Option<string>)>
  {
    match PrivilegeStep(fields)
    case Err(e) => Err(e)
    case Ok(f) => SearchStep(IncludeStep(f), nameSearch)
  }

  /** The rewritten object keeps the caller's own keys and values and drops every helper key. */
  lemma PreparedSpec(fields: map<string, WhereValue>, nameSearch: Option<string>)
    ensures var r := Prepared(fields, nameSearch);
      && (r.Ok? ==> "searchStr" !in r.value.0)
      && (r.Ok? && TruthyField(fields, "privilege") ==> "privilege" !in r.value.0)
      && (r.Ok? ==> !TruthyField(r.value.0, "includeCfi") && !TruthyField(r.value.0, "includeSyllabus"))
      && (r.Ok? ==> KeepsOthers(fields, r.value.0))
      && (r.Ok? && TruthyField(fields, "privilege") ==>
            && fields["privilege"].Text? && PrivilegeId(fields["privilege"].s).Some? && "privilegeId" in r.value.0
            && r.value.0["privilegeId"] == Number(PrivilegeId(fields["privilege"].s).value))
      && (r.Ok? && TruthyField(fields, "searchStr") ==> r.value.1 == Some(Lower(fields["searchStr"].s)))
      && (r.Ok? && !TruthyField(fields, "searchStr") ==> r.value.1 == nameSearch)
      && (r.Err? <==>
            || (TruthyField(fields, "privilege") && (!fields["privilege"].Text? || PrivilegeId(fields["privilege"].s).None?))
            || (TruthyField(fields, "searchStr") && !fields["searchStr"].Text?))
  {
    var p := PrivilegeStep(fields);
    if p.Ok? {
      var f := IncludeStep(p.value);
      assert "searchStr" in fields ==> "searchStr" in p.value && p.value["searchStr"] == fields["searchStr"];
      assert "searchStr" in p.value ==> "searchStr" in f && f["searchStr"] == p.value["searchStr"];
    }
  }

  /** The user columns a `where` key can name. */
  predicate IsColumn(key: string)
  {
    key in {"id", "firstName", "lastName", "email", "privilegeId", "entityId", "inactiveDate", "hasGoldSeal", "cfiId", "syllabusId"}
  }

  /** `column = value` for a nullable id or date column; `null` means `IS NULL`. */
  predicate NullableEquals(x: Option<int>, v: WhereValue)
  {
    match v
    case Number(n) => x == Some(n)
    case Null => x.None?
    case _ => false
  }

  /** One `column = value` condition of the `where` object on a user row. */
  predicate ColumnMatches(u: Keyed<User>, key: string, v: WhereValue)
  {
    if key == "id" then v == Number(u.id)
    else if key == "firstName" then v == Text(u.row.firstName)
    else if key == "lastName" then v == Text(u.row.lastName)
    else if key == "email" then v == Text(u.row.email)
    else if key == "privilegeId" then v == Number(u.row.privilegeId)
    else if key == "entityId" then v == Number(u.row.entityId)
    else if key == "inactiveDate" then NullableEquals(u.row.inactiveDate, v)
    else if key == "hasGoldSeal" then v == Flag(u.row.hasGoldSeal)
    else if key == "cfiId" then NullableEquals(if u.row.cfiId.Some? then Some(u.row.cfiId.value) else None, v)
    else if key == "syllabusId" then NullableEquals(if u.row.syllabusId.Some? then Some(u.row.syllabusId.value) else None, v)
    else false
  }

  /** The row satisfies every key of the `where` object and the name condition. */
  predicate UserMatches(u: Keyed<User>, fields: map<string, WhereValue>, nameSearch: Option<string>)
  {
    (forall k :: k in fields ==> ColumnMatches(u, k, fields[k])) && NameMatches(u.row, nameSearch)
  }

  function UserMatcher(fields: map<string, WhereValue>, nameSearch: Option<string>): Keyed<User> -> bool
  {
    (u: Keyed<User>) => UserMatches(u, fields, nameSearch)
  }

  /** `models.user.findAll({ where })`: a key that is not a column makes the query fail. */
  function FindAll(users: Table<User>, fields: map<string, WhereValue>, nameSearch: Option<string>)
    : (r: Result<seq<Keyed<User>>>)
    ensures r.Err? <==> exists k :: k in fields && !IsColumn(k)
    ensures r.Ok? ==> Ascending(r.value) && RowsOf(r.value, users.rows)
    ensures r.Ok? ==> forall j :: 0 <= j < |r.value| ==> UserMatches(r.value[j], fields, nameSearch)
    ensures r.Ok? ==> forall k :: k in users.rows && UserMatches(Keyed(k, users.rows[k]), fields, nameSearch) ==>
      Keyed(k, users.rows[k]) in r.value
  {
    if exists k :: k in fields && !IsColumn(k) then Err(Crash(USERS_ERROR + "SequelizeDatabaseError: Unknown column"))
    else
      var s := Select(users, UserMatcher(fields, nameSearch));
      assert forall j :: 0 <= j < |s| ==> UserMatcher(fields, nameSearch)(s[j]);
      Ok(s)
  }

  /** The users `getUsers` returns for a `where` object, or the error it rethrows. */
  function GetUsersResult(users: Table<User>, fields: map<string, WhereValue>, nameSearch: Option<string>)
    : Result<seq<Keyed<User>>>
  {
    match Prepared(fields, nameSearch)
    case Err(e) => Err(e)
    case Ok(p) => FindAll(users, p.0, p.1)
  }

  /** `getUsers(where)`: rewrites the `where` object step by step, then queries the user table with it. */
  method GetUsers(users: Table<User>, where: Where) returns (r: Result<seq<Keyed<User>>>)
    modifies where
    ensures r == GetUsersResult(users, old(where.fields), old(where.nameSearch))
    ensures Prepared(old(where.fields), old(where.nameSearch)).Ok? ==>
      (where.fields, where.nameSearch) == Prepared(old(where.fields), old(where.nameSearch)).value
  {
    if TruthyField(where.fields, "privilege") {
      var v := where.fields["privilege"];
      if !v.Text? || PrivilegeId(v.s).None? {
        return Err(NO_PRIVILEGE);
      }
      var privilegeId := PrivilegeId(v.s).value;
      where.fields := where.fields["privilegeId" := Number(privilegeId)];
      where.fields := where.fields - {"privilege"};
    }
    if TruthyField(where.fields, "includeCfi") {
      where.fields := where.fields - {"includeCfi"};
    }
    if TruthyField(where.fields, "includeSyllabus") {
      where.fields := where.fields - {"includeSyllabus"};
    }
    if TruthyField(where.fields, "searchStr") {
      var v := where.fields["searchStr"];
      if !v.Text? {
        return Err(NOT_A_STRING);
      }
      where.nameSearch := Some(Lower(v.s));
    }
    where.fields := where.fields - {"searchStr"};
    r := FindAll(users, where.fields, where.nameSearch);
  }

  /** With a search string every returned user has it, compared case-insensitively, in the first or the last name. */
  lemma GetUsersSearch(users: Table<User>, fields: map<string, WhereValue>, j: nat)
    requires GetUsersResult(users, fields, None).Ok? && TruthyField(fields, "searchStr")
    requires j < |GetUsersResult(users, fields, None).value|
    ensures fields["searchStr"].Text?
    ensures var u := GetUsersResult(users, fields, None).value[j].row;
      LikeAnywhere(u.firstName, Lower(fields["searchStr"].s)) || LikeAnywhere(u.lastName, Lower(fields["searchStr"].s))
  {
    PreparedSpec(fields, None);
    var p := Prepared(fields, None).value;
    assert UserMatches(FindAll(users, p.0, p.1).value[j], p.0, p.1);
  }

  /** With a privilege name every returned user holds that privilege. */
  lemma GetUsersPrivilege(users: Table<User>, fields: map<string, WhereValue>, j: nat)
    requires GetUsersResult(users, fields, None).Ok? && TruthyField(fields, "privilege")
    requires j < |GetUsersResult(users, fields, None).value|
    ensures fields["privilege"].Text?
    ensures PrivilegeId(fields["privilege"].s) == Some(GetUsersResult(users, fields, None).value[j].row.privilegeId)
  {
    PreparedSpec(fields, None);
    var p := Prepared(fields, None).value;
    var u := FindAll(users, p.0, p.1).value[j];
    assert UserMatches(u, p.0, p.1);
    assert ColumnMatches(u, "privilegeId", p.0["privilegeId"]);
  }

  /** A user satisfying every condition of the rewritten `where` object is returned. */
  lemma GetUsersComplete(users: Table<User>, fields: map<string, WhereValue>, nameSearch: Option<string>, k: Id)
    requires GetUsersResult(users, fields, nameSearch).Ok?
    requires k in users.rows
    requires UserMatches(Keyed(k, users.rows[k]), Prepared(fields, nameSearch).value.0, Prepared(fields, nameSearch).value.1)
    ensures Keyed(k, users.rows[k]) in GetUsersResult(users, fields, nameSearch).value
  {
  }

  // ---------------------------------------------------------------------------------------------
  // createUser and updateUser

  /** The `ratings` field of a submitted user form: absent, one value, or an array of values. */
  datatype RatingsInput = NoRatings | Single(id: Id) | List(ids: seq<Id>)

  /** The user form of `createUser` and `updateUser`. */
  datatype UserForm = UserForm(
    kind: Option<string>,
    firstName: string,
    lastName: string,
    email: string,
    hasGoldSeal: Option<string>,
    ratings: RatingsInput,
    entityId: Id,
    cfiId: Option<Id>,
    syllabusId: Option<Id>)

  /** The privilege a user type names: admin and cfi in any letter case, and student for anything else. */
  function PrivilegeFor(kind: string): (p: nat)
    ensures Lower(kind) == "admin" ==> p == ADMIN
    ensures Lower(kind) == "cfi" ==> p == CFI
    ensures Lower(kind) != "admin" && Lower(kind) != "cfi" ==> p == STUDENT
  {
    var lowered := Lower(kind);
    if lowered == "cfi" then CFI else if lowered == "admin" then ADMIN else STUDENT
  }

  /** The mapping ignores letter case and never yields the global privilege. */
  lemma PrivilegeForCaseInsensitive(kind: string)
    ensures PrivilegeFor(Lower(kind)) == PrivilegeFor(kind)
    ensures PrivilegeFor(kind) in {ADMIN, CFI, STUDENT} && PrivilegeName(PrivilegeFor(kind)).Some?
  {
    LowerIdempotent(kind);
  }

  /** `hasGoldSeal === 'true'`: only that exact string sets the flag. */
  function GoldSeal(hasGoldSeal: Option<string>): (b: bool)
    ensures b <==> hasGoldSeal == Some("true")
  {
    match hasGoldSeal
    case Some(s) => s == "true"
    case None => false
  }

  /** The ratings `createUser` attaches: a non-empty input is set, anything else leaves none. */
  function CreatedRatings(input: RatingsInput): (r: set<Id>)
    ensures input.Single? ==> r == {input.id}
    ensures input.List? ==> forall id :: id in r <==> id in input.ids
    ensures input.NoRatings? ==> r == {}
  {
    match input
    case NoRatings => {}
    case Single(id) => {id}
    case List(ids) => set i | 0 <= i < |ids| :: ids[i]
  }

  /** The ratings `updateUser` leaves: an array replaces them wholesale, anything else clears them. */
  function UpdatedRatings(input: RatingsInput): (r: set<Id>)
    ensures input.List? ==> forall id :: id in r <==> id in input.ids
    ensures !input.List? ==> r == {}
  {
    match input
    case List(ids) => set i | 0 <= i < |ids| :: ids[i]
    case _ => {}
  }

  /** The two operations agree except on a single rating, which `createUser` keeps and `updateUser` drops. */
  lemma RatingsDisagreeOnSingle(input: RatingsInput)
    ensures CreatedRatings(input) != UpdatedRatings(input) <==> input.Single?
  {
    if input.Single? {
      assert input.id in CreatedRatings(input);
    }
  }

  /**
   * The row `createUser` inserts: the names and email as the trim hook leaves them, the mapped
   * privilege; the form sets no password and leaves the user active.
   */
  function NewUser(form: UserForm, kind: string): (u: User)
    ensures u.privilegeId == PrivilegeFor(kind) && u.hasGoldSeal == GoldSeal(form.hasGoldSeal)
    ensures u.ratings == CreatedRatings(form.ratings) && u.inactiveDate.None? && u.passwrd.None?
    ensures (u.firstName, u.lastName, u.email) == (Trim(form.firstName), Trim(form.lastName), Trim(form.email))
    ensures Trimmed(u.firstName) && Trimmed(u.lastName) && Trimmed(u.email)
    ensures (u.entityId, u.cfiId, u.syllabusId) == (form.entityId, form.cfiId, form.syllabusId)
  {
    TrimIsTrimmed(form.firstName);
    TrimIsTrimmed(form.lastName);
    TrimIsTrimmed(form.email);
    User(Trim(form.firstName), Trim(form.lastName), Trim(form.email), None, PrivilegeFor(kind), form.entityId, None,
         GoldSeal(form.hasGoldSeal), form.cfiId, form.syllabusId, CreatedRatings(form.ratings))
  }

  /**
   * `createUser`: a request that failed validation is refused with 422 and a form without a type
   * crashes on `toLowerCase`, both before any write; otherwise one user is inserted and its id returned.
   */
  method CreateUser(db: Database, requestValid: bool, form: UserForm) returns (r: Result<Id>)
    modifies db
    ensures !requestValid ==> r == Err(VALIDATION_FAILED)
    ensures requestValid && form.kind.None? ==> r.Err? && r.error.statusCode.None?
    ensures r.Err? ==> db.users == old(db.users)
    ensures r.Ok? ==> requestValid && form.kind.Some? && r.value == old(db.users).next && r.value !in old(db.users).rows
    ensures r.Ok? ==> db.users.rows == old(db.users).rows[r.value := NewUser(form, form.kind.value)]
    ensures db.entities == old(db.entities) && db.syllabi == old(db.syllabi) && db.lessons == old(db.lessons)
    ensures db.userLessons == old(db.userLessons) && db.messages == old(db.messages)
    ensures db.subscriptions == old(db.subscriptions)
  {
    if !requestValid {
      return Err(VALIDATION_FAILED);
    }
    if form.kind.None? {
      return Err(Crash("Cannot read properties of undefined (reading 'toLowerCase')"));
    }
    var user := NewUser(form, form.kind.value);
    var inserted := Insert(db.users, user);
    db.users := inserted.0;
    r := Ok(inserted.1);
  }

  /**
   * The row after `updateUser`: the form's editable columns, the names and email as the trim hook
   * leaves them, and the replaced ratings; nothing else moves.
   */
  function EditedUser(u: User, form: UserForm): (v: User)
    ensures v.privilegeId == u.privilegeId && v.entityId == u.entityId && v.inactiveDate == u.inactiveDate
    ensures v.passwrd == u.passwrd
    ensures v.ratings == UpdatedRatings(form.ratings) && v.hasGoldSeal == GoldSeal(form.hasGoldSeal)
    ensures (v.firstName, v.lastName, v.email) == (Trim(form.firstName), Trim(form.lastName), Trim(form.email))
    ensures Trimmed(v.firstName) && Trimmed(v.lastName) && Trimmed(v.email)
    ensures (v.cfiId, v.syllabusId) == (form.cfiId, form.syllabusId)
  {
    TrimIsTrimmed(form.firstName);
    TrimIsTrimmed(form.lastName);
    TrimIsTrimmed(form.email);
    u.(firstName := Trim(form.firstName), lastName := Trim(form.lastName), email := Trim(form.email),
       hasGoldSeal := GoldSeal(form.hasGoldSeal), cfiId := form.cfiId, syllabusId := form.syllabusId,
       ratings := UpdatedRatings(form.ratings))
  }

  /** Editing with the same form twice leaves what editing once leaves. */
  lemma EditedUserIdempotent(u: User, form: UserForm)
    ensures EditedUser(EditedUser(u, form), form) == EditedUser(u, form)
  {
  }

  /**
   * `updateUser`: an unknown id crashes on `null.update`; a blank name or email is nulled by the
   * trim hook and refused by the user model, with no write; otherwise the user's row is edited in place.
   */
  method UpdateUser(db: Database, userId: Id, form: UserForm) returns (r: Result<()>)
    modifies db
    ensures userId !in old(db.users).rows ==> r.Err? && r.error.statusCode.None? && db.users == old(db.users)
    ensures userId in old(db.users).rows && UserNameErrors(form.firstName, form.lastName, form.email) != [] ==>
      && r == Err(SyllabusStore.ValidationError(UserNameErrors(form.firstName, form.lastName, form.email)))
      && db.users == old(db.users)
    ensures userId in old(db.users).rows && UserNameErrors(form.firstName, form.lastName, form.email) == [] ==>
      && r.Ok? && db.users.next == old(db.users).next
      && db.users.rows == old(db.users).rows[userId := EditedUser(old(db.users).rows[userId], form)]
    ensures db.entities == old(db.entities) && db.syllabi == old(db.syllabi) && db.lessons == old(db.lessons)
    ensures db.userLessons == old(db.userLessons) && db.messages == old(db.messages)
    ensures db.subscriptions == old(db.subscriptions)
  {
    var found := FindUser(db.users, userId);
    if found.None? {
      return Err(Crash("Cannot read properties of null (reading 'update')"));
    }
    var errors := UserNameErrors(form.firstName, form.lastName, form.email);
    if errors != [] {
      return Err(SyllabusStore.ValidationError(errors));
    }
    var user := found.value;
    // `user.update(data)` on the base columns, then `setRatings([])` and `setRatings(ratings)`.
    user := user.(firstName := Trim(form.firstName), lastName := Trim(form.lastName), email := Trim(form.email),
                  hasGoldSeal := GoldSeal(form.hasGoldSeal), cfiId := form.cfiId, syllabusId := form.syllabusId);
    user := user.(ratings := {});
    if form.ratings.List? {
      user := user.(ratings := set i | 0 <= i < |form.ratings.ids| :: form.ratings.ids[i]);
    }
    db.users := Update(db.users, userId, user);
    r := Ok(());
  }

  // ---------------------------------------------------------------------------------------------
  // deactivateUser and reactivateUser

  /** The active rule of the user listings: no deactivation date. */
  predicate Active(u: User)
  {
    u.inactiveDate.None?
  }

  function Deactivated(u: User, today: Date): (v: User)
    ensures !Active(v) && v.inactiveDate == Some(today)
  {
    u.(inactiveDate := Some(today))
  }

  function Reactivated(u: User): (v: User)
    ensures Active(v)
  {
    u.(inactiveDate := None)
  }

  /** Deactivating and then reactivating an active user gives back the same row; only the date moves. */
  lemma ReactivateUndoesDeactivate(u: User, today: Date)
    ensures Active(u) ==> Reactivated(Deactivated(u, today)) == u
    ensures Deactivated(u, today).(inactiveDate := u.inactiveDate) == u
    ensures Reactivated(u).(inactiveDate := u.inactiveDate) == u
  {
  }

  /**
   * `deactivateUser` with `today` for `dayjs().format('YYYY-MM-DD')` (true) or `reactivateUser` (false):
   * the user's entity id comes back for the redirect; an unknown id crashes on `null.update`.
   */
  method SetActive(db: Database, userId: Id, deactivate: bool, today: Date) returns (r: Result<Id>)
    modifies db
    ensures userId !in old(db.users).rows ==> r.Err? && r.error.statusCode.None? && db.users == old(db.users)
    ensures userId in old(db.users).rows ==>
      var u := old(db.users).rows[userId];
      r == Ok(u.entityId) && db.users.next == old(db.users).next
      && db.users.rows == old(db.users).rows[userId := if deactivate then Deactivated(u, today) else Reactivated(u)]
    ensures db.entities == old(db.entities) && db.syllabi == old(db.syllabi) && db.lessons == old(db.lessons)
    ensures db.userLessons == old(db.userLessons) && db.messages == old(db.messages)
    ensures db.subscriptions == old(db.subscriptions)
  {
    var found := FindUser(db.users, userId);
    if found.None? {
      return Err(Crash("Cannot read properties of null (reading 'update')"));
    }
    var user := found.value;
    var inactiveDate: Option<Date> := if deactivate then Some(today) else None;
    db.users := Update(db.users, userId, user.(inactiveDate := inactiveDate));
    r := Ok(user.entityId);
  }
}
