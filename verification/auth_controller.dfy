/**
 * `controllers/auth.controller.js`: sign-up creates an entity with its admin and signs the admin
 * in; login looks the user up by email and checks the password; logout ends the session. The
 * session is an object whose `user` property these handlers assign.
 */
module AuthController {
  import opened Wrappers
  import opened Text
  import opened Tables
  import opened Schemas
  import opened Directory
  import SyllabusStore
  import EntityController
  import AuthRoutes
  import Dashboard

  /** `req.session`: the signed-in user, if any. */
  class Session {
    var user: Option<Dashboard.SessionUser>

    constructor ()
      ensures user.None?
    {
      user := None;
    }
  }

  /**
   * `findUser({ email })`: the first user, by id, whose email equals the given one under the
   * column's case-insensitive collation (ASCII case folding).
   */
  function FindByEmail(users: Table<User>, email: string): (r: Option<Keyed<User>>)
    ensures r.None? <==> forall k :: k in users.rows ==> Lower(users.rows[k].email) != Lower(email)
    ensures r.Some? ==>
      r.value.id in users.rows && r.value.row == users.rows[r.value.id] && Lower(r.value.row.email) == Lower(email)
    ensures r.Some? ==> forall k :: k in users.rows && Lower(users.rows[k].email) == Lower(email) ==> r.value.id <= k
  {
    First(users, EmailIs(email))
  }

  function EmailIs(email: string): Keyed<User> -> bool
  {
    (u: Keyed<User>) => Lower(u.row.email) == Lower(email)
  }

  /** Emails that differ only in the case of their letters find the same user. */
  lemma FindByEmailIgnoresCase(users: Table<User>, a: string, b: string)
    requires Lower(a) == Lower(b)
    ensures FindByEmail(users, a) == FindByEmail(users, b)
  {
    var ra, rb := FindByEmail(users, a), FindByEmail(users, b);
    if ra.Some? && rb.Some? {
      assert ra.value.id <= rb.value.id && rb.value.id <= ra.value.id;
    }
  }

  /** What reading `user.privilege.name` throws when the privilege row is missing. */
  const NO_PRIVILEGE: Failure := Crash("Cannot read properties of null (reading 'name')")

  /**
   * The session object built from a user row: the model declares no `fullName` attribute, so it is
   * undefined; then the id, the privilege name and the entity.
   */
  function SessionOf(u: Keyed<User>): (r: Result<Dashboard.SessionUser>)
    ensures r.Err? <==> PrivilegeName(u.row.privilegeId).None?
    ensures r.Err? ==> r.error == NO_PRIVILEGE
    ensures r.Ok? ==> r.value.fullName.None? && r.value.id == u.id && r.value.entityId == u.row.entityId
    ensures r.Ok? ==> PrivilegeId(r.value.privilege) == Some(u.row.privilegeId)
  {
    match PrivilegeName(u.row.privilegeId)
    case None => Err(NO_PRIVILEGE)
    case Some(name) => Ok(Dashboard.SessionUser(None, u.id, name, u.row.entityId))
  }

  // ---------------------------------------------------------------------------------------------
  // postSignUp

  /** The sign-up page is shown again with these errors, or the new admin is signed in. */
  datatype SignUpOutcome = SignUpPage(errors: seq<AuthRoutes.FieldError>) | SignedUp(session: Dashboard.SessionUser)

  const EMAIL_TAKEN := AuthRoutes.FieldError("email", "Email already exists in another account")
  /** What the ORM throws for `findOne({ where: { email: undefined } })`. */
  const UNDEFINED_EMAIL: Failure := Crash("WHERE parameter \"email\" has invalid \"undefined\" value")
  /** What reading `user.fullName` throws when the lookup after creation finds nobody. */
  const NO_USER: Failure := Crash("Cannot read properties of null (reading 'fullName')")

  /** The body as `createNewEntity` reads it, with the subscription id the database stores for the posted value. */
  function AsEntityForm(b: AuthRoutes.SignUpBody, subscriptionId: Option<Id>): EntityController.EntityForm
  {
    EntityController.EntityForm(b.orgName, Some(b.orgPhone), subscriptionId, b.firstName, b.lastName,
                                Some(b.email), Some(b.password))
  }

  /** The end of sign-up: the user found by the email is put in the session. */
  function SignInByEmail(users: Table<User>, email: string): Result<SignUpOutcome>
  {
    match FindByEmail(users, email)
    case None => Err(NO_USER)
    case Some(u) =>
      match SessionOf(u)
      case Err(e) => Err(e)
      case Ok(s) => Ok(SignedUp(s))
  }

  predicate SignedIn(r: Result<SignUpOutcome>)
  {
    r.Ok? && r.value.SignedUp?
  }

  /**
   * `postSignUp`. `errors` is the validation result of the sign-up chains and `form` the sanitized
   * body. Failed validation shows the page again with its errors; a taken email shows it with the
   * email error and creates nothing; otherwise the entity and its admin are created, the user with
   * that email is looked up again and put in the session.
   */
  method PostSignUp(db: Database, session: Session, errors: seq<AuthRoutes.FieldError>, form: EntityController.EntityForm)
    returns (r: Result<SignUpOutcome>)
    modifies db, session
    ensures errors != [] ==> r == Ok(SignUpPage(errors)) && unchanged(db)
    ensures errors == [] && form.email.None? ==> r == Err(UNDEFINED_EMAIL) && unchanged(db)
    ensures errors == [] && form.email.Some? && FindByEmail(old(db.users), form.email.value).Some? ==>
      r == Ok(SignUpPage([EMAIL_TAKEN])) && unchanged(db)
    ensures errors == [] && form.email.Some? && FindByEmail(old(db.users), form.email.value).None? ==>
      && (AllSpace(EntityController.EntityName(form)) ==>
            r == Err(EntityController.CreateFailure(SyllabusStore.ValidationError([ENTITY_NAME_EMPTY])))
            && db.entities == old(db.entities) && db.users == old(db.users))
      && (!AllSpace(EntityController.EntityName(form)) ==>
            var eid := old(db.entities).next;
            && db.entities.rows == old(db.entities).rows[eid := EntityController.NewEntity(form)]
            && (!Truthy(form.email) ==> db.users == old(db.users) && r == SignInByEmail(db.users, form.email.value))
            && (Truthy(form.email) && EntityController.AdminErrors(form) != [] ==>
                  r == Err(EntityController.CreateFailure(SyllabusStore.ValidationError(EntityController.AdminErrors(form))))
                  && db.users == old(db.users))
            && (Truthy(form.email) && EntityController.AdminErrors(form) == [] ==>
                  && db.users.rows == old(db.users).rows[old(db.users).next := EntityController.AdminUser(form, eid)]
                  && r == SignInByEmail(db.users, form.email.value)))
    ensures db.syllabi == old(db.syllabi) && db.lessons == old(db.lessons) && db.userLessons == old(db.userLessons)
    ensures db.messages == old(db.messages) && db.subscriptions == old(db.subscriptions)
    ensures SignedIn(r) ==> session.user == Some(r.value.session)
    ensures !SignedIn(r) ==> session.user == old(session.user)
  {
    if errors != [] {
      return Ok(SignUpPage(errors));
    }
    if form.email.None? {
      return Err(UNDEFINED_EMAIL);
    }
    var existing := FindByEmail(db.users, form.email.value);
    if existing.Some? {
      return Ok(SignUpPage([EMAIL_TAKEN]));
    }
    EntityController.CreatedSpec(db.entities, db.users, form);
    var created := EntityController.CreateNewEntity(db, form);
    if created.Err? {
      return Err(created.error);
    }
    r := SignInByEmail(db.users, form.email.value);
    if SignedIn(r) {
      session.user := Some(r.value.session);
    }
  }

  /** No two users share an email, ignoring case. */
  predicate UniqueEmails(users: Table<User>)
  {
    forall a, b :: a in users.rows && b in users.rows && a != b ==> Lower(users.rows[a].email) != Lower(users.rows[b].email)
  }

  /**
   * When the email was free and is stored as posted, sign-up signs in the admin it has just
   * created: a session for the new user id, with privilege `admin`, in the new entity. Emails stay unique.
   */
  lemma SignUpSignsInTheAdmin(users: Table<User>, form: EntityController.EntityForm, eid: Id)
    requires form.email.Some? && Trim(form.email.value) == form.email.value
    requires FindByEmail(users, form.email.value).None?
    requires EntityController.AdminErrors(form) == []
    ensures var after := Insert(users, EntityController.AdminUser(form, eid)).0;
      && SignInByEmail(after, form.email.value) == Ok(SignedUp(Dashboard.SessionUser(None, users.next, "admin", eid)))
      && (UniqueEmails(users) ==> UniqueEmails(after))
  {
    var u := EntityController.AdminUser(form, eid);
    assert u.email == form.email.value;
    FoundAfterInsert(users, u);
    InsertKeepsEmailsUnique(users, u);
  }

  /** A user inserted with a free email is the one a lookup by that email finds. */
  lemma FoundAfterInsert(users: Table<User>, u: User)
    requires FindByEmail(users, u.email).None?
    ensures FindByEmail(Insert(users, u).0, u.email) == Some(Keyed(users.next, u))
  {
    var after := Insert(users, u).0;
    var found := FindByEmail(after, u.email);
    assert after.rows[users.next] == u;
    assert forall k :: k in users.rows ==> after.rows[k].email != u.email;
    assert found.value.id == users.next;
  }

  /** Inserting a user with a free email keeps the emails unique. */
  lemma InsertKeepsEmailsUnique(users: Table<User>, u: User)
    requires FindByEmail(users, u.email).None?
    ensures UniqueEmails(users) ==> UniqueEmails(Insert(users, u).0)
  {
  }

  /** A taken email is reported exactly when some stored user has it, ignoring case. */
  lemma EmailTakenSpec(users: Table<User>, email: string)
    ensures FindByEmail(users, email).Some? <==> exists k :: k in users.rows && Lower(users.rows[k].email) == Lower(email)
    ensures UniqueEmails(users) && FindByEmail(users, email).Some? ==>
      forall k :: k in users.rows && Lower(users.rows[k].email) == Lower(email) ==> FindByEmail(users, email).value.id == k
  {
  }

  /**
   * A body the sign-up chains accept never makes `createNewEntity` fail: its entity name is not
   * blank and its admin fields pass the user model, given that `isEmail` rejects blank strings.
   */
  lemma AcceptedSignUpCreates(b: AuthRoutes.SignUpBody, v: AuthRoutes.Validators, subscriptionId: Option<Id>)
    requires AuthRoutes.SignUpErrors(b, v) == []
    requires forall s :: v.isEmail(s) ==> !AllSpace(s)
    ensures var form := AsEntityForm(AuthRoutes.SanitizedSignUp(b), subscriptionId);
      && !AllSpace(EntityController.EntityName(form))
      && Truthy(form.email)
      && EntityController.AdminErrors(form) == []
  {
    AuthRoutes.SignUpAccepted(b, v);
    AuthRoutes.AcceptedSignUpSanitized(b, v);
    var s := AuthRoutes.SanitizedSignUp(b);
    var form := AsEntityForm(s, subscriptionId);
    assert b.email != "";
    if Truthy(form.orgName) {
      AuthRoutes.TrimmedNonEmptyNotBlank(s.orgName.value);
    } else {
      var i :| 0 <= i < |s.firstName| && !IsSpace(s.firstName[i]);
      assert EntityController.EntityName(form)[i] == s.firstName[i];
    }
  }

  // ---------------------------------------------------------------------------------------------
  // postLogin

  /** The login page is shown again with the validation errors, or with a 403 and one message, or the user is signed in. */
  datatype LoginOutcome =
    | LoginPage(errors: seq<AuthRoutes.FieldError>)
    | Denied(status: nat, msg: string)
    | LoggedIn(session: Dashboard.SessionUser)

  const INVALID_CREDENTIALS := "Invalid credentials"
  /** What comparing against a user with no stored password hash throws. */
  const NO_HASH: Failure := Crash("data and hash arguments required")

  /**
   * What `postLogin` decides. `verify(hash, password)` is the password check, taken as given.
   * An unknown email and a wrong password get the same 403 answer.
   */
  function LoginDecision(users: Table<User>, errors: seq<AuthRoutes.FieldError>, email: string, password: string,
                         verify: (string, string) -> bool): Result<LoginOutcome>
  {
    if errors != [] then Ok(LoginPage(errors))
    else
      match FindByEmail(users, email)
      case None => Ok(Denied(403, INVALID_CREDENTIALS))
      case Some(u) =>
        if u.row.passwrd.None? then Err(NO_HASH)
        else if !verify(u.row.passwrd.value, password) then Ok(Denied(403, INVALID_CREDENTIALS))
        else
          match SessionOf(u)
          case Err(e) => Err(e)
          case Ok(s) => Ok(LoggedIn(s))
  }

  /** `postLogin`: the decision, and the session user set when it signs the user in. */
  method PostLogin(users: Table<User>, session: Session, errors: seq<AuthRoutes.FieldError>, email: string,
                   password: string, verify: (string, string) -> bool) returns (r: Result<LoginOutcome>)
    modifies session
    ensures r == LoginDecision(users, errors, email, password, verify)
    ensures r.Ok? && r.value.LoggedIn? ==> session.user == Some(r.value.session)
    ensures !(r.Ok? && r.value.LoggedIn?) ==> session.user == old(session.user)
  {
    if errors != [] {
      return Ok(LoginPage(errors));
    }
    var user := FindByEmail(users, email);
    if user.None? {
      return Ok(Denied(403, INVALID_CREDENTIALS));
    }
    if user.value.row.passwrd.None? {
      return Err(NO_HASH);
    }
    var matched := verify(user.value.row.passwrd.value, password);
    if !matched {
      return Ok(Denied(403, INVALID_CREDENTIALS));
    }
    var s := SessionOf(user.value);
    if s.Err? {
      return Err(s.error);
    }
    session.user := Some(s.value);
    r := Ok(LoggedIn(s.value));
  }

  /**
   * A login succeeds exactly when the body passed validation, a user has that email, its stored
   * hash verifies the password and its privilege is known; the session then describes that user.
   */
  lemma LoginSucceeds(users: Table<User>, errors: seq<AuthRoutes.FieldError>, email: string, password: string,
                      verify: (string, string) -> bool)
    ensures var r := LoginDecision(users, errors, email, password, verify);
      var u := FindByEmail(users, email);
      && ((r.Ok? && r.value.LoggedIn?) <==>
            errors == [] && u.Some? && u.value.row.passwrd.Some? && verify(u.value.row.passwrd.value, password)
            && PrivilegeName(u.value.row.privilegeId).Some?)
      && (r.Ok? && r.value.LoggedIn? ==>
            && r.value.session.id == u.value.id && r.value.session.id in users.rows
            && Lower(users.rows[r.value.session.id].email) == Lower(email)
            && r.value.session.entityId == users.rows[r.value.session.id].entityId
            && Some(r.value.session.privilege) == PrivilegeName(users.rows[r.value.session.id].privilegeId))
  {
  }

  /** An unknown email and a wrong password are answered identically, so the answer does not reveal which it was. */
  lemma LoginDenialsAlike(users: Table<User>, email: string, password: string, verify: (string, string) -> bool)
    requires FindByEmail(users, email).Some? ==>
      FindByEmail(users, email).value.row.passwrd.Some? && !verify(FindByEmail(users, email).value.row.passwrd.value, password)
    ensures LoginDecision(users, [], email, password, verify) == Ok(Denied(403, INVALID_CREDENTIALS))
    ensures LoginDecision(users, [], email, password, verify) ==
      LoginDecision(EmptyTable(), [], email, password, verify)
  {
  }

  /** A hash as `bcrypt.hash` writes it: `$2a$`, `$2b$` or `$2y$`, then 56 more characters. */
  predicate BcryptShaped(h: string)
  {
    |h| == 60 && h[0] == '$' && h[1] == '2' && (h[2] == 'a' || h[2] == 'b' || h[2] == 'y') && h[3] == '$'
  }

  /** A password check that, like `bcrypt.compare`, accepts a password only against a stored bcrypt hash. */
  ghost predicate ComparesHashes(verify: (string, string) -> bool)
  {
    forall h, p :: verify(h, p) ==> BcryptShaped(h)
  }

  /**
   * Sign-up stores the password as typed (trimmed), not its hash, so logging in right after
   * sign-up with the same email and password is refused as invalid credentials whenever the
   * typed password does not itself look like a bcrypt hash.
   */
  lemma SignUpThenLogin(users: Table<User>, form: EntityController.EntityForm, eid: Id, verify: (string, string) -> bool)
    requires form.email.Some? && Trim(form.email.value) == form.email.value
    requires FindByEmail(users, form.email.value).None?
    requires EntityController.AdminErrors(form) == []
    requires ComparesHashes(verify)
    requires !BcryptShaped(Trim(form.password.value))
    ensures var after := Insert(users, EntityController.AdminUser(form, eid)).0;
      LoginDecision(after, [], form.email.value, form.password.value, verify) == Ok(Denied(403, INVALID_CREDENTIALS))
  {
    SignUpSignsInTheAdmin(users, form, eid);
    var after := Insert(users, EntityController.AdminUser(form, eid)).0;
    var u := FindByEmail(after, form.email.value).value;
    assert u.id == users.next;
    assert u.row.passwrd == Some(Trim(form.password.value));
  }

  /**
   * The admin row sign-up evidently means to store: the one it stores, with the posted password
   * replaced by `hashPassword(password)`.
   */
  function HashedAdminUser(form: EntityController.EntityForm, eid: Id, hash: string -> string): (u: User)
    requires form.email.Some?
    ensures u.email == Trim(form.email.value) && u.privilegeId == ADMIN && u.entityId == eid
    ensures form.password.Some? ==> u.passwrd == Some(hash(form.password.value))
  {
    var stored := EntityController.AdminUser(form, eid);
    stored.(passwrd := if form.password.Some? then Some(hash(form.password.value)) else stored.passwrd)
  }

  /**
   * With the password hashed at sign-up, logging in right after sign-up with the same email and
   * password gives the session sign-up gave, for any hash the password check accepts.
   */
  lemma HashedSignUpThenLogin(users: Table<User>, form: EntityController.EntityForm, eid: Id,
                              hash: string -> string, verify: (string, string) -> bool)
    requires form.email.Some? && Trim(form.email.value) == form.email.value
    requires FindByEmail(users, form.email.value).None?
    requires EntityController.AdminErrors(form) == []
    requires forall p :: verify(hash(p), p)
    ensures var after := Insert(users, HashedAdminUser(form, eid, hash)).0;
      LoginDecision(after, [], form.email.value, form.password.value, verify)
        == Ok(LoggedIn(Dashboard.SessionUser(None, users.next, "admin", eid)))
  {
    var u := HashedAdminUser(form, eid, hash);
    FoundAfterInsert(users, u);
    var after := Insert(users, u).0;
    assert FindByEmail(after, form.email.value).value.id == users.next;
    assert verify(hash(form.password.value), form.password.value);
  }

  // ---------------------------------------------------------------------------------------------
  // logout

  /** `logout`: the session is destroyed, so nobody is signed in any more. */
  method Logout(session: Session)
    modifies session
    ensures session.user.None?
  {
    session.user := None;
  }
}
