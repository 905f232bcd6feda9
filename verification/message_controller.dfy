/**
 * `controllers/message.controller.js`: the contact messages — created from the contact form, listed
 * while unresolved, resolved and deleted from the global dashboard.
 */
module MessageController {
  import opened Wrappers
  import opened Text
  import opened Tables
  import Schemas

  /** The contact form as submitted; absent fields are `None`. */
  datatype MessageForm = MessageForm(
    kind: Option<string>,
    orgName: Option<string>,
    contactName: Option<string>,
    email: Option<string>,
    body: Option<string>)

  /**
   * The form after the trim hook: blank STRING and TEXT values are stored as null and the others
   * trimmed; the ENUM `type` is left as posted.
   */
  function StoredForm(form: MessageForm): (f: MessageForm)
    ensures f.kind == form.kind
    ensures f.orgName == Schemas.Stored(form.orgName) && f.contactName == Schemas.Stored(form.contactName)
    ensures f.email == Schemas.Stored(form.email) && f.body == Schemas.Stored(form.body)
  {
    MessageForm(form.kind, Schemas.Stored(form.orgName), Schemas.Stored(form.contactName),
                Schemas.Stored(form.email), Schemas.Stored(form.body))
  }

  /** The values of the `type` column, `ENUM('sales', 'general')`. */
  predicate InTypeEnum(kind: string)
  {
    kind == "sales" || kind == "general"
  }

  /**
   * `validate: { isIn: ['sales', 'general'] }` as the ORM runs it: the array is spread into the
   * validator's arguments, so the check made is `isIn(value, 'sales')`, which for a string argument
   * is `'sales'.indexOf(value) >= 0`.
   */
  predicate TypePassesIsIn(kind: string)
  {
    Contains("sales", kind)
  }

  /** The constraints on the fields other than `type`, the same in both readings of the type check. */
  predicate OtherFieldsValid(form: MessageForm, isEmail: string -> bool)
  {
    && (form.orgName.None? || |form.orgName.value| >= 1)
    && form.contactName.Some? && |form.contactName.value| >= 1
    && form.email.Some? && isEmail(form.email.value)
    && form.body.Some? && |form.body.value| >= 5
  }

  /**
   * The message model's constraints on the stored values: a type that passes the `isIn` check as
   * the ORM runs it and that the ENUM column holds (strict mode refuses any other), an optional
   * organisation name that is not empty, a contact name, an e-mail address `isEmail` accepts, and a
   * message of at least five characters.
   */
  predicate MessageValid(form: MessageForm, isEmail: string -> bool)
  {
    && form.kind.Some? && TypePassesIsIn(form.kind.value) && InTypeEnum(form.kind.value)
    && OtherFieldsValid(form, isEmail)
  }

  /**
   * As written, `sales` is the only type a message can have: `general` fails the `isIn` check, and
   * the other strings that pass it (`""`, `"sal"`, …) are not values of the ENUM column.
   */
  lemma OnlySalesAccepted(kind: string)
    ensures TypePassesIsIn(kind) && InTypeEnum(kind) <==> kind == "sales"
    ensures TypePassesIsIn("") && TypePassesIsIn("sal") && !TypePassesIsIn("general")
  {
    assert OccursAt("sales", "sales", 0);
    assert OccursAt("sales", "", 0);
    assert OccursAt("sales", "sal", 0);
  }

  /** A contact message of type `general` is refused, whatever its other fields. */
  lemma GeneralMessageRefused(form: MessageForm, isEmail: string -> bool)
    requires form.kind == Some("general")
    ensures !MessageValid(StoredForm(form), isEmail)
  {
    OnlySalesAccepted("general");
  }

  /** The check as evidently intended, `isIn: [['sales', 'general']]`: the type is one of the list. */
  predicate MessageValidIntended(form: MessageForm, isEmail: string -> bool)
  {
    form.kind.Some? && InTypeEnum(form.kind.value) && OtherFieldsValid(form, isEmail)
  }

  /**
   * The intended check accepts a form exactly when its type is `sales` or `general` and the form
   * with type `sales` passes the check as written: it differs only in also accepting `general`.
   */
  lemma IntendedAcceptsBothTypes(form: MessageForm, isEmail: string -> bool)
    ensures MessageValidIntended(form, isEmail) <==>
      form.kind.Some? && InTypeEnum(form.kind.value) && MessageValid(form.(kind := Some("sales")), isEmail)
    ensures form.kind == Some("general") && MessageValidIntended(form, isEmail) ==> !MessageValid(form, isEmail)
  {
    OnlySalesAccepted("sales");
    OnlySalesAccepted("general");
  }

  /** A blank organisation name is stored as null, which the model allows. */
  lemma BlankOrgNameAllowed(form: MessageForm, isEmail: string -> bool)
    requires form.orgName.Some? && AllSpace(form.orgName.value)
    ensures MessageValid(StoredForm(form), isEmail) <==> MessageValid(StoredForm(form.(orgName := None)), isEmail)
  {
  }

  /** The row `message.create(req.body)` inserts; a new message is unresolved. */
  function NewMessage(form: MessageForm): (m: Message)
    requires form.kind.Some? && form.contactName.Some? && form.email.Some? && form.body.Some?
    ensures !m.resolved
  {
    Message(form.kind.value, form.orgName, form.contactName.value, form.email.value, form.body.value, false)
  }

  /**
   * `createMessage`: a request that failed validation is refused with 422, and a form the model
   * rejects with an error of no status code; neither inserts anything. Otherwise exactly one
   * unresolved message is inserted.
   */
  method CreateMessage(db: Database, requestValid: bool, form: MessageForm, isEmail: string -> bool) returns (r: Result<Id>)
    modifies db
    ensures !requestValid ==> r == Err(VALIDATION_FAILED)
    ensures requestValid && !MessageValid(StoredForm(form), isEmail) ==> r.Err? && r.error.statusCode.None?
    ensures r.Err? ==> db.messages == old(db.messages)
    ensures r.Ok? ==>
      && requestValid && MessageValid(StoredForm(form), isEmail)
      && r.value == old(db.messages).next
      && db.messages.rows == old(db.messages).rows[r.value := NewMessage(StoredForm(form))]
    ensures db.users == old(db.users) && db.entities == old(db.entities) && db.syllabi == old(db.syllabi)
    ensures db.lessons == old(db.lessons) && db.userLessons == old(db.userLessons)
    ensures db.subscriptions == old(db.subscriptions)
  {
    if !requestValid {
      return Err(VALIDATION_FAILED);
    }
    r := InsertMessage(db, StoredForm(form), isEmail);
  }

  /** `message.create` on the stored values: the model's checks, then the insert. */
  method InsertMessage(db: Database, stored: MessageForm, isEmail: string -> bool) returns (r: Result<Id>)
    modifies db
    ensures !MessageValid(stored, isEmail) ==> r.Err? && r.error.statusCode.None? && db.messages == old(db.messages)
    ensures MessageValid(stored, isEmail) ==>
      && r == Ok(old(db.messages).next)
      && db.messages.rows == old(db.messages).rows[r.value := NewMessage(stored)]
    ensures db.users == old(db.users) && db.entities == old(db.entities) && db.syllabi == old(db.syllabi)
    ensures db.lessons == old(db.lessons) && db.userLessons == old(db.userLessons)
    ensures db.subscriptions == old(db.subscriptions)
  {
    if !MessageValid(stored, isEmail) {
      return Err(Crash("SequelizeValidationError: Validation error"));
    }
    var id := db.messages.next;
    db.messages := Insert(db.messages, NewMessage(stored)).0;
    r := Ok(id);
  }

  function Unresolved(m: Keyed<Message>): bool
  {
    !m.row.resolved
  }

  /** The prefix of the error `getAllMessages` rethrows. */
  const MESSAGES_ERROR := "Could not fetch messages: "

  /**
   * `getAllMessages`: the unresolved messages in id order. `queryError` is the error the query
   * throws, if any (a broken connection); it is rethrown with the prefix and no status code.
   */
  function GetAllMessages(messages: Table<Message>, queryError: Option<string>): (r: Result<seq<Keyed<Message>>>)
    ensures queryError.Some? <==> r.Err?
    ensures r.Err? ==> r.error == Crash(MESSAGES_ERROR + queryError.value)
    ensures r.Ok? ==> Ascending(r.value) && RowsOf(r.value, messages.rows)
    ensures r.Ok? ==> forall j :: 0 <= j < |r.value| ==> !r.value[j].row.resolved
    ensures r.Ok? ==> forall k :: k in messages.rows && !messages.rows[k].resolved ==> Keyed(k, messages.rows[k]) in r.value
  {
    match queryError
    case Some(e) => Err(Crash(MESSAGES_ERROR + e))
    case None =>
      var s := Select(messages, Unresolved);
      assert forall j :: 0 <= j < |s| ==> Unresolved(s[j]);
      Ok(s)
  }

  /** `message.update({ resolved: true }, { where: { id } })`: an unknown id updates nothing. */
  function Resolved(messages: Table<Message>, id: Id): (t: Table<Message>)
    ensures t.next == messages.next && t.rows.Keys == messages.rows.Keys
    ensures id in t.rows ==> t.rows[id].resolved && t.rows[id] == messages.rows[id].(resolved := true)
    ensures forall k :: k in messages.rows && k != id ==> t.rows[k] == messages.rows[k]
  {
    if id in messages.rows then Update(messages, id, messages.rows[id].(resolved := true)) else messages
  }

  /** Resolving twice is resolving once. */
  lemma ResolveIdempotent(messages: Table<Message>, id: Id)
    ensures Resolved(Resolved(messages, id), id) == Resolved(messages, id)
  {
  }

  /** What the listing shows after resolving was listed before, and is not the resolved message. */
  lemma ResolvedListedBefore(messages: Table<Message>, id: Id, m: Keyed<Message>)
    requires m in GetAllMessages(Resolved(messages, id), None).value
    ensures m.id != id && m in GetAllMessages(messages, None).value
  {
    var after := GetAllMessages(Resolved(messages, id), None).value;
    var j :| 0 <= j < |after| && after[j] == m;
    assert m.id != id;
    assert m == Keyed(m.id, messages.rows[m.id]);
  }

  /** Every other message the listing showed before is still shown. */
  lemma ResolvedKeepsOthers(messages: Table<Message>, id: Id, m: Keyed<Message>)
    requires m.id != id && m in GetAllMessages(messages, None).value
    ensures m in GetAllMessages(Resolved(messages, id), None).value
  {
    var before := GetAllMessages(messages, None).value;
    var j :| 0 <= j < |before| && before[j] == m;
    assert m.id in Resolved(messages, id).rows;
    assert m == Keyed(m.id, Resolved(messages, id).rows[m.id]);
  }

  /** After resolving, the listing holds exactly the messages it held before other than that one. */
  lemma ResolvedLeavesListing(messages: Table<Message>, id: Id, m: Keyed<Message>)
    ensures m in GetAllMessages(Resolved(messages, id), None).value <==>
      m.id != id && m in GetAllMessages(messages, None).value
  {
    if m in GetAllMessages(Resolved(messages, id), None).value {
      ResolvedListedBefore(messages, id, m);
    }
    if m.id != id && m in GetAllMessages(messages, None).value {
      ResolvedKeepsOthers(messages, id, m);
    }
  }

  /** `resolveMessage`: after the request check, the message's flag is set; nothing else changes. */
  method ResolveMessage(db: Database, requestValid: bool, id: Id) returns (r: Result<()>)
    modifies db
    ensures !requestValid ==> r == Err(VALIDATION_FAILED) && db.messages == old(db.messages)
    ensures requestValid ==> r.Ok? && db.messages == Resolved(old(db.messages), id)
    ensures db.users == old(db.users) && db.entities == old(db.entities) && db.syllabi == old(db.syllabi)
    ensures db.lessons == old(db.lessons) && db.userLessons == old(db.userLessons)
    ensures db.subscriptions == old(db.subscriptions)
  {
    if !requestValid {
      return Err(VALIDATION_FAILED);
    }
    if id in db.messages.rows {
      db.messages := Update(db.messages, id, db.messages.rows[id].(resolved := true));
    }
    r := Ok(());
  }

  /** `deleteMessage`: after the request check, exactly the message with that id is removed. */
  method DeleteMessage(db: Database, requestValid: bool, id: Id) returns (r: Result<()>)
    modifies db
    ensures !requestValid ==> r == Err(VALIDATION_FAILED) && db.messages == old(db.messages)
    ensures requestValid ==>
      && r.Ok? && id !in db.messages.rows
      && db.messages.rows == map k | k in old(db.messages).rows && k != id :: old(db.messages).rows[k]
    ensures db.users == old(db.users) && db.entities == old(db.entities) && db.syllabi == old(db.syllabi)
    ensures db.lessons == old(db.lessons) && db.userLessons == old(db.userLessons)
    ensures db.subscriptions == old(db.subscriptions)
  {
    if !requestValid {
      return Err(VALIDATION_FAILED);
    }
    db.messages := Remove(db.messages, {id});
    r := Ok(());
  }
}
