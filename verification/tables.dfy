/**
 * The relational store behind the ORM, as in-memory tables.
 *
 * Every table maps a row id to a row and keeps its auto-increment counter. A `findAll` without an
 * `order` option, and the explicit `order: [['id', 'asc']]`, are both read as a scan in ascending id
 * order; every query of the controllers is a filter of that scan.
 */
module Tables {
  import opened Wrappers

  type Id = nat

  /** A calendar day (`YYYY-MM-DD`), as a day number. */
  type Date = int

  // Privilege ids fixed by seeding the privilege table with global, admin, cfi and student.
  const GLOBAL: nat := 1
  const ADMIN: nat := 2
  const CFI: nat := 3
  const STUDENT: nat := 4

  /** The seeded privilege table: id to name. */
  function PrivilegeName(privilegeId: nat): (name: Option<string>)
    ensures name.Some? <==> GLOBAL <= privilegeId <= STUDENT
  {
    if privilegeId == GLOBAL then Some("global")
    else if privilegeId == ADMIN then Some("admin")
    else if privilegeId == CFI then Some("cfi")
    else if privilegeId == STUDENT then Some("student")
    else None
  }

  /** `privilege.findOne({ where: { name } })`: name to id. */
  function PrivilegeId(name: string): (id: Option<nat>)
    ensures id.Some? ==> PrivilegeName(id.value) == Some(name)
    ensures forall p: nat :: PrivilegeName(p) == Some(name) ==> id == Some(p)
  {
    if name == "global" then Some(GLOBAL)
    else if name == "admin" then Some(ADMIN)
    else if name == "cfi" then Some(CFI)
    else if name == "student" then Some(STUDENT)
    else None
  }

  datatype User = User(
    firstName: string,
    lastName: string,
    email: string,
    passwrd: Option<string>,
    privilegeId: nat,
    entityId: Id,
    inactiveDate: Option<Date>,
    hasGoldSeal: bool,
    cfiId: Option<Id>,
    syllabusId: Option<Id>,
    ratings: set<Id>)

  datatype Entity = Entity(name: string, phone: Option<string>, subscriptionId: Option<Id>, inactiveDate: Option<Date>)

  datatype Syllabus = Syllabus(title: string, version: real, ratingId: Option<Id>, entityId: Id)

  datatype Lesson = Lesson(syllabusId: Option<Id>, title: string, objective: string, content: string, completion: string)

  datatype UserLesson = UserLesson(userId: Id, lessonId: Id, status: string, notes: Option<string>)

  datatype Message = Message(kind: string, orgName: Option<string>, contactName: string, email: string, body: string, resolved: bool)

  datatype Subscription = Subscription(key: string, caption: string, features: seq<string>)

  /** A row together with its primary key. */
  datatype Keyed<T> = Keyed(id: Id, row: T)

  datatype RawTable<T> = RawTable(rows: map<Id, T>, next: Id)

  /** A table whose auto-increment counter is above every id in use. */
  type Table<T> = t: RawTable<T> | (forall k :: k in t.rows ==> k < t.next) witness RawTable(map[], 1)

  function EmptyTable<T>(): Table<T>
  {
    RawTable(map[], 1)
  }

  /** An auto-increment insert: the new row gets the counter's value as its id. */
  function Insert<T>(t: Table<T>, row: T): (r: (Table<T>, Id))
    ensures r.1 == t.next && r.1 !in t.rows
    ensures r.0.rows == t.rows[r.1 := row]
  {
    (RawTable(t.rows[t.next := row], t.next + 1), t.next)
  }

  /** An insert or overwrite with an explicit id; the counter moves past it as MySQL's does. */
  function Put<T>(t: Table<T>, id: Id, row: T): (r: Table<T>)
    ensures r.rows == t.rows[id := row]
    ensures r.next >= t.next
  {
    RawTable(t.rows[id := row], if id + 1 > t.next then id + 1 else t.next)
  }

  /** `row.update(...)` of a row that exists: its id and the counter stay. */
  function Update<T>(t: Table<T>, id: Id, row: T): (r: Table<T>)
    requires id in t.rows
    ensures r.rows == t.rows[id := row] && r.rows.Keys == t.rows.Keys
    ensures r.next == t.next
  {
    RawTable(t.rows[id := row], t.next)
  }

  /** Removes the rows whose ids are in `ids`. */
  function Remove<T>(t: Table<T>, ids: set<Id>): (r: Table<T>)
    ensures r.rows == map k | k in t.rows && k !in ids :: t.rows[k]
    ensures r.next == t.next
  {
    RawTable(map k | k in t.rows && k !in ids :: t.rows[k], t.next)
  }

  function IdsOf<T>(s: seq<Keyed<T>>): set<Id>
  {
    set j | 0 <= j < |s| :: s[j].id
  }

  predicate Ascending<T>(s: seq<Keyed<T>>)
  {
    forall i, j :: 0 <= i < j < |s| ==> s[i].id < s[j].id
  }

  /** Every element of `s` is the row its table holds under its id. */
  predicate RowsOf<T(==)>(s: seq<Keyed<T>>, m: map<Id, T>)
  {
    forall j :: 0 <= j < |s| ==> s[j].id in m && m[s[j].id] == s[j].row
  }

  lemma IdsOfConcat<T>(a: seq<Keyed<T>>, b: seq<Keyed<T>>)
    ensures IdsOf(a + b) == IdsOf(a) + IdsOf(b)
  {
    var ab := a + b;
    forall k | k in IdsOf(b) ensures k in IdsOf(ab) {
      var j :| 0 <= j < |b| && b[j].id == k;
      assert ab[|a| + j] == b[j];
    }
    forall k | k in IdsOf(a) ensures k in IdsOf(ab) {
      var j :| 0 <= j < |a| && a[j].id == k;
      assert ab[j] == a[j];
    }
  }

  /** The rows of `m` with ids in [lo, hi), in ascending id order. */
  function Scan<T>(m: map<Id, T>, lo: nat, hi: nat): seq<Keyed<T>>
    decreases hi - lo
  {
    if lo >= hi then []
    else (if lo in m then [Keyed(lo, m[lo])] else []) + Scan(m, lo + 1, hi)
  }

  lemma {:induction false} ScanRows<T>(m: map<Id, T>, lo: nat, hi: nat)
    ensures RowsOf(Scan(m, lo, hi), m)
    ensures forall j :: 0 <= j < |Scan(m, lo, hi)| ==> lo <= Scan(m, lo, hi)[j].id < hi
    decreases hi - lo
  {
    if lo < hi {
      ScanRows(m, lo + 1, hi);
      var rest := Scan(m, lo + 1, hi);
      var head := if lo in m then [Keyed(lo, m[lo])] else [];
      var r := head + rest;
      assert r == Scan(m, lo, hi);
      forall j | 0 <= j < |r| ensures lo <= r[j].id < hi && r[j].id in m && m[r[j].id] == r[j].row {
        if j >= |head| { assert r[j] == rest[j - |head|]; }
      }
    }
  }

  lemma {:induction false} ScanAscending<T>(m: map<Id, T>, lo: nat, hi: nat)
    ensures Ascending(Scan(m, lo, hi))
    decreases hi - lo
  {
    if lo < hi {
      ScanAscending(m, lo + 1, hi);
      ScanRows(m, lo + 1, hi);
      var rest := Scan(m, lo + 1, hi);
      var head := if lo in m then [Keyed(lo, m[lo])] else [];
      var r := head + rest;
      assert r == Scan(m, lo, hi);
      forall i, j | 0 <= i < j < |r| ensures r[i].id < r[j].id {
        assert r[j] == rest[j - |head|];
        if i >= |head| { assert r[i] == rest[i - |head|]; }
      }
    }
  }

  lemma {:induction false} ScanComplete<T>(m: map<Id, T>, lo: nat, hi: nat)
    ensures forall k :: k in m && lo <= k < hi ==> k in IdsOf(Scan(m, lo, hi))
    decreases hi - lo
  {
    if lo < hi {
      ScanComplete(m, lo + 1, hi);
      var rest := Scan(m, lo + 1, hi);
      var head := if lo in m then [Keyed(lo, m[lo])] else [];
      assert head + rest == Scan(m, lo, hi);
      IdsOfConcat(head, rest);
      if lo in m {
        assert head[0].id == lo;
      }
    }
  }

  /** Every row of the table, in ascending id order. */
  function All<T>(t: Table<T>): (r: seq<Keyed<T>>)
    ensures Ascending(r) && RowsOf(r, t.rows)
    ensures forall k :: k in t.rows ==> k in IdsOf(r)
  {
    ScanRows(t.rows, 0, t.next);
    ScanAscending(t.rows, 0, t.next);
    ScanComplete(t.rows, 0, t.next);
    Scan(t.rows, 0, t.next)
  }

  /** `array.filter(p)`. */
  function Filter<T(==)>(s: seq<T>, p: T -> bool): (r: seq<T>)
    ensures |r| <= |s|
    ensures forall j :: 0 <= j < |r| ==> r[j] in s && p(r[j])
    ensures forall j :: 0 <= j < |s| && p(s[j]) ==> s[j] in r
  {
    if s == [] then []
    else if p(s[0]) then [s[0]] + Filter(s[1..], p)
    else Filter(s[1..], p)
  }

  /** A filter keeps the order of what it keeps. */
  lemma {:induction false} FilterKeepsAscending<T>(s: seq<Keyed<T>>, p: Keyed<T> -> bool)
    requires Ascending(s)
    ensures Ascending(Filter(s, p))
  {
    if s != [] {
      FilterKeepsAscending(s[1..], p);
      var rest := Filter(s[1..], p);
      forall i | 0 <= i < |rest| ensures s[0].id < rest[i].id {
        var j :| 0 <= j < |s[1..]| && s[1..][j] == rest[i];
        assert s[j + 1] == rest[i];
      }
    }
  }

  /** `findAll({ where })`: the rows satisfying `p`, in ascending id order. */
  function Select<T(==)>(t: Table<T>, p: Keyed<T> -> bool): (r: seq<Keyed<T>>)
    ensures Ascending(r) && RowsOf(r, t.rows)
    ensures forall j :: 0 <= j < |r| ==> p(r[j])
    ensures forall k :: k in t.rows && p(Keyed(k, t.rows[k])) ==> Keyed(k, t.rows[k]) in r
  {
    var all := All(t);
    FilterKeepsAscending(all, p);
    forall k | k in t.rows ensures Keyed(k, t.rows[k]) in all {
      var j :| 0 <= j < |all| && all[j].id == k;
    }
    Filter(all, p)
  }

  /** `findOne({ where })`: the matching row with the smallest id. */
  function First<T(==)>(t: Table<T>, p: Keyed<T> -> bool): (r: Option<Keyed<T>>)
    ensures r.None? <==> forall k :: k in t.rows ==> !p(Keyed(k, t.rows[k]))
    ensures r.Some? ==> r.value.id in t.rows && r.value.row == t.rows[r.value.id] && p(r.value)
    ensures r.Some? ==> forall k :: k in t.rows && p(Keyed(k, t.rows[k])) ==> r.value.id <= k
  {
    var s := Select(t, p);
    if s == [] then None
    else
      assert forall k :: k in t.rows && p(Keyed(k, t.rows[k])) ==> s[0].id <= k by {
        forall k | k in t.rows && p(Keyed(k, t.rows[k])) ensures s[0].id <= k {
          var j :| 0 <= j < |s| && s[j] == Keyed(k, t.rows[k]);
        }
      }
      Some(s[0])
  }

  /** Rewriting the first match with another matching row keeps it the first match. */
  lemma FirstAfterUpdate<T>(t: Table<T>, p: Keyed<T> -> bool, id: Id, row: T)
    requires First(t, p).Some? && First(t, p).value.id == id && p(Keyed(id, row))
    ensures First(Update(t, id, row), p) == Some(Keyed(id, row))
  {
    var after := Update(t, id, row);
    forall k | k in after.rows && p(Keyed(k, after.rows[k])) ensures id <= k {
      if k != id {
        assert after.rows[k] == t.rows[k];
      }
    }
  }

  /** A matching row inserted where nothing matched becomes the first match. */
  lemma FirstAfterInsert<T>(t: Table<T>, p: Keyed<T> -> bool, row: T)
    requires First(t, p).None? && p(Keyed(t.next, row))
    ensures First(Insert(t, row).0, p) == Some(Keyed(t.next, row))
  {
    var after := Insert(t, row).0;
    assert after.rows == t.rows[t.next := row];
    var r := First(after, p);
    assert r.Some? by {
      assert t.next in after.rows && p(Keyed(t.next, after.rows[t.next]));
    }
    assert forall k :: k in after.rows && k != t.next ==> !p(Keyed(k, after.rows[k]));
  }

  /** `findByPk(id)`. */
  function Get<T>(t: Table<T>, id: Id): (r: Option<T>)
    ensures r.Some? <==> id in t.rows
    ensures r.Some? ==> r.value == t.rows[id]
  {
    if id in t.rows then Some(t.rows[id]) else None
  }

  /** The in-memory database: one field per table the controllers read or write. */
  class Database {
    var users: Table<User>
    var entities: Table<Entity>
    var syllabi: Table<Syllabus>
    var lessons: Table<Lesson>
    var userLessons: Table<UserLesson>
    var messages: Table<Message>
    var subscriptions: Table<Subscription>

    constructor ()
      ensures users == EmptyTable() && entities == EmptyTable() && syllabi == EmptyTable()
      ensures lessons == EmptyTable() && userLessons == EmptyTable() && messages == EmptyTable()
      ensures subscriptions == EmptyTable()
    {
      users := EmptyTable();
      entities := EmptyTable();
      syllabi := EmptyTable();
      lessons := EmptyTable();
      userLessons := EmptyTable();
      messages := EmptyTable();
      subscriptions := EmptyTable();
    }
  }
}
