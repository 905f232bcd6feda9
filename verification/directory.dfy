/**
 * The query shapes the directory pages share: the name search on users, the per-entity counts of
 * instructors and students, and entity listings ordered by name.
 */
module Directory {
  import opened Wrappers
  import opened Text
  import opened Tables

  /** A truthy query string: present and not empty. */
  predicate Truthy(s: Option<string>)
  {
    s.Some? && s.value != ""
  }

  /** `searchStr.toLowerCase()` when the search string is truthy; no name condition otherwise. */
  function SearchFilter(searchStr: Option<string>): (r: Option<string>)
    ensures r.Some? <==> Truthy(searchStr)
    ensures r.Some? ==> r.value == Lower(searchStr.value)
  {
    if Truthy(searchStr) then Some(Lower(searchStr.value)) else None
  }

  /** `firstName LIKE '%s%' OR lastName LIKE '%s%'`, or no condition. */
  predicate NameMatches(u: User, search: Option<string>)
  {
    search.None? || LikeAnywhere(u.firstName, search.value) || LikeAnywhere(u.lastName, search.value)
  }

  /** The users of an entity with one of the given privileges that the active rule accepts. */
  function CountedUsers(users: Table<User>, entityId: Id, privileges: set<nat>, active: Option<Date> -> bool): set<Id>
  {
    set k | k in users.rows && users.rows[k].entityId == entityId && users.rows[k].privilegeId in privileges
              && active(users.rows[k].inactiveDate)
  }

  /** `COUNT(*)` of those users. */
  function CountUsers(users: Table<User>, entityId: Id, privileges: set<nat>, active: Option<Date> -> bool): nat
  {
    |CountedUsers(users, entityId, privileges, active)|
  }

  /** A looser active rule never counts fewer users. */
  lemma CountMonotone(users: Table<User>, entityId: Id, privileges: set<nat>, strict: Option<Date> -> bool, loose: Option<Date> -> bool)
    requires forall d :: strict(d) ==> loose(d)
    ensures CountUsers(users, entityId, privileges, strict) <= CountUsers(users, entityId, privileges, loose)
  {
    SubsetCardinality(CountedUsers(users, entityId, privileges, strict), CountedUsers(users, entityId, privileges, loose));
  }

  /** An entity no user belongs to counts nobody, whatever the privileges and the active rule. */
  lemma CountWithoutUsers(users: Table<User>, entityId: Id, privileges: set<nat>, active: Option<Date> -> bool)
    requires forall k :: k in users.rows ==> users.rows[k].entityId != entityId
    ensures CountUsers(users, entityId, privileges, active) == 0
  {
    assert CountedUsers(users, entityId, privileges, active) == {};
  }

  lemma SubsetCardinality<T>(a: set<T>, b: set<T>)
    requires a <= b
    ensures |a| <= |b|
  {
    assert b == a + (b - a);
  }

  /** One row of the entity listing: the entity with its two counts. */
  datatype EntityRow = EntityRow(id: Id, name: string, subscriptionId: Option<Id>, cfiCount: nat, studentCount: nat)

  /** Code-point order on strings. */
  predicate CodeLe(a: string, b: string)
  {
    a == [] || (b != [] && (a[0] < b[0] || (a[0] == b[0] && CodeLe(a[1..], b[1..]))))
  }

  lemma {:induction false} CodeLeTotal(a: string, b: string)
    ensures CodeLe(a, b) || CodeLe(b, a)
  {
    if a != [] && b != [] && a[0] == b[0] {
      CodeLeTotal(a[1..], b[1..]);
    }
  }

  lemma {:induction false} CodeLeTransitive(a: string, b: string, c: string)
    requires CodeLe(a, b) && CodeLe(b, c)
    ensures CodeLe(a, c)
  {
    if a != [] && b != [] && c != [] && a[0] == b[0] && b[0] == c[0] {
      CodeLeTransitive(a[1..], b[1..], c[1..]);
    }
  }

  lemma {:induction false} CodeLeReflexive(a: string)
    ensures CodeLe(a, a)
  {
    if a != [] {
      CodeLeReflexive(a[1..]);
    }
  }

  /**
   * `ORDER BY name` under the column's case-insensitive collation: code-point order on the names
   * with ASCII letters lower-cased, so names that differ only in case tie.
   */
  predicate NameLe(a: string, b: string)
  {
    CodeLe(Lower(a), Lower(b))
  }

  lemma NameLeTotal(a: string, b: string)
    ensures NameLe(a, b) || NameLe(b, a)
  {
    CodeLeTotal(Lower(a), Lower(b));
  }

  lemma NameLeTransitive(a: string, b: string, c: string)
    requires NameLe(a, b) && NameLe(b, c)
    ensures NameLe(a, c)
  {
    CodeLeTransitive(Lower(a), Lower(b), Lower(c));
  }

  /** Names that differ only in the case of their letters tie: either may come first. */
  lemma NameLeIgnoresCase(a: string, b: string)
    requires Lower(a) == Lower(b)
    ensures NameLe(a, b) && NameLe(b, a)
  {
    CodeLeReflexive(Lower(a));
  }

  predicate SortedByName(s: seq<EntityRow>)
  {
    forall i, j :: 0 <= i < j < |s| ==> NameLe(s[i].name, s[j].name)
  }

  /** Puts a row into a sorted listing, after the rows whose names are not greater. */
  function InsertByName(r: EntityRow, s: seq<EntityRow>): (t: seq<EntityRow>)
    requires SortedByName(s)
    ensures SortedByName(t)
    ensures multiset(t) == multiset(s) + multiset{r}
  {
    if s == [] then [r]
    else if NameLe(s[0].name, r.name) then
      var rest := InsertByName(r, s[1..]);
      assert s == [s[0]] + s[1..];
      SortedAfterHead(s, r, rest);
      [s[0]] + rest
    else
      SortedBeforeHead(s, r);
      [r] + s
  }

  lemma SortedAfterHead(s: seq<EntityRow>, r: EntityRow, rest: seq<EntityRow>)
    requires s != [] && SortedByName(s) && NameLe(s[0].name, r.name)
    requires SortedByName(rest) && multiset(rest) == multiset(s[1..]) + multiset{r}
    ensures SortedByName([s[0]] + rest)
  {
    forall j | 0 <= j < |rest| ensures NameLe(s[0].name, rest[j].name) {
      assert rest[j] in multiset(rest);
      if rest[j] != r {
        assert rest[j] in multiset(s[1..]);
        var k :| 0 <= k < |s[1..]| && s[1..][k] == rest[j];
        assert s[k + 1] == rest[j];
      }
    }
    var t := [s[0]] + rest;
    forall i, j | 0 <= i < j < |t| ensures NameLe(t[i].name, t[j].name) {
      assert t[j] == rest[j - 1];
      if i > 0 { assert t[i] == rest[i - 1]; }
    }
  }

  lemma SortedBeforeHead(s: seq<EntityRow>, r: EntityRow)
    requires s != [] && SortedByName(s) && !NameLe(s[0].name, r.name)
    ensures SortedByName([r] + s)
  {
    NameLeTotal(s[0].name, r.name);
    var t := [r] + s;
    forall i, j | 0 <= i < j < |t| ensures NameLe(t[i].name, t[j].name) {
      assert t[j] == s[j - 1];
      if i > 0 {
        assert t[i] == s[i - 1];
      } else if j > 1 {
        NameLeTransitive(r.name, s[0].name, s[j - 1].name);
      }
    }
  }

  /** `order: ['name']`: the rows sorted by name. */
  function SortByName(s: seq<EntityRow>): (t: seq<EntityRow>)
    ensures SortedByName(t)
    ensures multiset(t) == multiset(s)
  {
    if s == [] then []
    else
      assert s == [s[0]] + s[1..];
      InsertByName(s[0], SortByName(s[1..]))
  }

  /** The `where` of the entity listing: a name `LIKE '%name%'` and an exact id, each only when given. */
  predicate EntityMatches(e: Keyed<Entity>, name: Option<string>, entityId: Option<Id>)
  {
    (!Truthy(name) || LikeAnywhere(e.row.name, name.value)) && (entityId.None? || e.id == entityId.value)
  }

  function Row(e: Keyed<Entity>, users: Table<User>, active: Option<Date> -> bool): EntityRow
  {
    EntityRow(e.id, e.row.name, e.row.subscriptionId,
              CountUsers(users, e.id, {ADMIN, CFI}, active), CountUsers(users, e.id, {STUDENT}, active))
  }

  function Rows(es: seq<Keyed<Entity>>, users: Table<User>, active: Option<Date> -> bool): (r: seq<EntityRow>)
    ensures |r| == |es|
    ensures forall i :: 0 <= i < |es| ==> r[i] == Row(es[i], users, active)
  {
    if es == [] then [] else [Row(es[0], users, active)] + Rows(es[1..], users, active)
  }

  function Matcher(name: Option<string>, entityId: Option<Id>): Keyed<Entity> -> bool
  {
    (e: Keyed<Entity>) => EntityMatches(e, name, entityId)
  }

  /**
   * `getAllEntities`: the matching entities with their instructor (admin or cfi) and student counts
   * under the given active rule, ordered by name.
   */
  function Listing(entities: Table<Entity>, users: Table<User>, name: Option<string>, entityId: Option<Id>,
                   active: Option<Date> -> bool): seq<EntityRow>
  {
    SortByName(Rows(Select(entities, Matcher(name, entityId)), users, active))
  }

  /** Every listed row is a matching entity with its own counts. */
  lemma ListingSound(entities: Table<Entity>, users: Table<User>, name: Option<string>, entityId: Option<Id>,
                     active: Option<Date> -> bool, r: EntityRow)
    requires r in Listing(entities, users, name, entityId, active)
    ensures r.id in entities.rows && EntityMatches(Keyed(r.id, entities.rows[r.id]), name, entityId)
    ensures r == Row(Keyed(r.id, entities.rows[r.id]), users, active)
  {
    var es := Select(entities, Matcher(name, entityId));
    var rows := Rows(es, users, active);
    assert r in multiset(Listing(entities, users, name, entityId, active));
    assert r in multiset(rows);
    var i :| 0 <= i < |rows| && rows[i] == r;
    assert Matcher(name, entityId)(es[i]);
  }

  /** Every matching entity is listed exactly once. */
  lemma ListingComplete(entities: Table<Entity>, users: Table<User>, name: Option<string>, entityId: Option<Id>,
                        active: Option<Date> -> bool, k: Id)
    requires k in entities.rows && EntityMatches(Keyed(k, entities.rows[k]), name, entityId)
    ensures multiset(Listing(entities, users, name, entityId, active))[Row(Keyed(k, entities.rows[k]), users, active)] == 1
  {
    var es := Select(entities, Matcher(name, entityId));
    var e := Keyed(k, entities.rows[k]);
    assert Matcher(name, entityId)(e);
    var i :| 0 <= i < |es| && es[i] == e;
    RowOccursOnce(es, users, active, i);
  }

  /**
   * The listing is sorted by name and holds exactly one row per matching entity, with that
   * entity's counts.
   */
  lemma ListingSpec(entities: Table<Entity>, users: Table<User>, name: Option<string>, entityId: Option<Id>,
                    active: Option<Date> -> bool)
    ensures SortedByName(Listing(entities, users, name, entityId, active))
    ensures forall r :: r in Listing(entities, users, name, entityId, active) ==>
      r.id in entities.rows && EntityMatches(Keyed(r.id, entities.rows[r.id]), name, entityId)
      && r == Row(Keyed(r.id, entities.rows[r.id]), users, active)
    ensures forall k :: k in entities.rows && EntityMatches(Keyed(k, entities.rows[k]), name, entityId) ==>
      multiset(Listing(entities, users, name, entityId, active))[Row(Keyed(k, entities.rows[k]), users, active)] == 1
  {
    forall r | r in Listing(entities, users, name, entityId, active)
      ensures r.id in entities.rows && EntityMatches(Keyed(r.id, entities.rows[r.id]), name, entityId)
      ensures r == Row(Keyed(r.id, entities.rows[r.id]), users, active)
    {
      ListingSound(entities, users, name, entityId, active, r);
    }
    forall k | k in entities.rows && EntityMatches(Keyed(k, entities.rows[k]), name, entityId)
      ensures multiset(Listing(entities, users, name, entityId, active))[Row(Keyed(k, entities.rows[k]), users, active)] == 1
    {
      ListingComplete(entities, users, name, entityId, active, k);
    }
  }

  /** Rows of distinct ids are distinct, so each listed entity occurs once. */
  lemma {:induction false} RowOccursOnce(es: seq<Keyed<Entity>>, users: Table<User>, active: Option<Date> -> bool, i: nat)
    requires i < |es|
    requires Ascending(es)
    ensures multiset(Rows(es, users, active))[Row(es[i], users, active)] == 1
  {
    var rows := Rows(es, users, active);
    assert rows == [rows[0]] + rows[1..];
    assert Rows(es[1..], users, active) == rows[1..];
    if i == 0 {
      assert Row(es[0], users, active) !in rows[1..] by {
        forall j | 0 <= j < |rows[1..]| ensures rows[1..][j] != Row(es[0], users, active) {
          assert rows[1..][j].id == es[j + 1].id;
        }
      }
    } else {
      RowOccursOnce(es[1..], users, active, i - 1);
      assert rows[0].id == es[0].id < es[i].id;
    }
  }
}
