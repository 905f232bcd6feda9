/**
 * `models/index.js` and `routes/index.js`: every file of a directory whose name ends in the
 * suffix (`.model.js`, `.route.js`) is registered under a camel-case key derived from its name.
 */
module Registry {
  import opened Wrappers
  import opened Text
  import opened StringUtils

  const MODEL_SUFFIX: string := ".model.js"
  const ROUTE_SUFFIX: string := ".route.js"

  /** `path.basename(file, suffix)` on a name that ends in the suffix. */
  function BaseName(file: string, suffix: string): (r: string)
    requires EndsWith(file, suffix)
    ensures r + suffix == file
  {
    file[..|file| - |suffix|]
  }

  /** Each piece upper-cased on its first letter. */
  function CapitalizeAll(parts: seq<string>): (r: seq<string>)
    ensures |r| == |parts|
    ensures forall i :: 0 <= i < |parts| ==> r[i] == CapitalizeFirstLetter(parts[i])
  {
    seq(|parts|, i requires 0 <= i < |parts| => CapitalizeFirstLetter(parts[i]))
  }

  /** `.map((val, i) => i == 0 ? val : capitalizeFirstLetter(val))`. */
  function CapitalizeTail(parts: seq<string>): seq<string>
  {
    if parts == [] then [] else [parts[0]] + CapitalizeAll(parts[1..])
  }

  /** `.split('-').map(...).join('')`: the key a base name is registered under. */
  function KeyOf(name: string): string
  {
    Join(CapitalizeTail(Split(name, '-')), "")
  }

  lemma CapitalizeTailIsPieces(parts: seq<string>)
    requires parts != []
    ensures CapitalizeTail(parts) == Pieces(parts, false)
  {
  }

  /**
   * A reference reading of the same rule, one character at a time: every '-' is dropped and the
   * character right after it is upper-cased; `up` says whether the previous character was a '-'.
   */
  function Camel(s: string, up: bool): string
  {
    if s == [] then []
    else if s[0] == '-' then Camel(s[1..], true)
    else [if up then UpperChar(s[0]) else s[0]] + Camel(s[1..], false)
  }

  lemma {:induction false} CamelNoDash(s: string, up: bool)
    requires '-' !in s
    ensures Camel(s, up) == if up then CapitalizeFirstLetter(s) else s
  {
    if s != [] {
      CamelNoDash(s[1..], false);
    }
  }

  lemma {:induction false} CamelDash(x: string, y: string, up: bool)
    requires '-' !in x
    ensures Camel(x + "-" + y, up) == Camel(x, up) + Camel(y, true)
  {
    if x != [] {
      assert (x + "-" + y)[1..] == x[1..] + "-" + y;
      CamelDash(x[1..], y, false);
    } else {
      assert (x + "-" + y)[1..] == y;
    }
  }

  lemma JoinNoSep(parts: seq<string>)
    requires parts != []
    ensures Join(parts, "") == parts[0] + Join(parts[1..], "")
  {
  }

  /** The pieces of a split as the pipeline leaves them; the first one is capitalised only when `up`. */
  function Pieces(parts: seq<string>, up: bool): seq<string>
    requires parts != []
  {
    [if up then CapitalizeFirstLetter(parts[0]) else parts[0]] + CapitalizeAll(parts[1..])
  }

  /** With the first piece capitalised too, the pieces are every part capitalised. */
  lemma PiecesUp(parts: seq<string>)
    requires parts != []
    ensures Pieces(parts, true) == CapitalizeAll(parts)
  {
    var p := Pieces(parts, true);
    assert forall i :: 0 <= i < |parts| ==> p[i] == CapitalizeFirstLetter(parts[i]);
  }

  /** The split/capitalise/join pipeline and the character reading agree on every string. */
  lemma {:induction false} CamelOfSplit(s: string, up: bool)
    ensures Camel(s, up) == Join(Pieces(Split(s, '-'), up), "")
    decreases |s|
  {
    if '-' !in s {
      SplitWithoutDash(s, up);
    } else {
      CamelOfSplit(AfterDash(s), true);
      CamelAtFirstDash(s, up);
      PiecesOfSplit(s, up);
    }
  }

  /** What precedes the first '-', capitalised when `up`. */
  function BeforeDash(s: string, up: bool): string
    requires '-' in s
  {
    var first := s[..IndexOf(s, '-')];
    if up then CapitalizeFirstLetter(first) else first
  }

  /** What follows the first '-'. */
  function AfterDash(s: string): (r: string)
    requires '-' in s
    ensures |r| < |s|
  {
    s[IndexOf(s, '-') + 1..]
  }

  /** Without a '-' there is one piece, and the reading copies the string (capitalised when `up`). */
  lemma SplitWithoutDash(s: string, up: bool)
    requires '-' !in s
    ensures Camel(s, up) == Join(Pieces(Split(s, '-'), up), "")
  {
    CamelNoDash(s, up);
    assert Split(s, '-') == [s];
    assert Pieces([s], up) == [if up then CapitalizeFirstLetter(s) else s];
  }

  /** Reading up to the first '-': the first piece as it is (capitalised when `up`), then the rest read with `up`. */
  lemma CamelAtFirstDash(s: string, up: bool)
    requires '-' in s
    ensures Camel(s, up) == BeforeDash(s, up) + Camel(AfterDash(s), true)
  {
    var i := IndexOf(s, '-');
    assert s == s[..i] + "-" + s[i + 1..];
    CamelDash(s[..i], s[i + 1..], up);
    CamelNoDash(s[..i], up);
  }

  /** Splitting at the first '-': the first piece, then the pieces of the rest, all capitalised. */
  lemma PiecesOfSplit(s: string, up: bool)
    requires '-' in s
    ensures Join(Pieces(Split(s, '-'), up), "") == BeforeDash(s, up) + Join(Pieces(Split(AfterDash(s), '-'), true), "")
  {
    var i := IndexOf(s, '-');
    var more := Split(s[i + 1..], '-');
    var parts := Split(s, '-');
    assert parts == [s[..i]] + more;
    assert parts[1..] == more;
    PiecesUp(more);
    JoinNoSep(Pieces(parts, up));
  }

  /** The key drops every '-' and upper-cases the letter after it: user-lesson becomes userLesson. */
  lemma KeyIsCamel(name: string)
    ensures KeyOf(name) == Camel(name, false)
  {
    CamelOfSplit(name, false);
    CapitalizeTailIsPieces(Split(name, '-'));
  }

  /** A name without '-' is its own key. */
  lemma KeyWithoutDash(name: string)
    requires '-' !in name
    ensures KeyOf(name) == name
  {
    KeyIsCamel(name);
    CamelNoDash(name, false);
  }

  /** A key never contains '-' and is never longer than the name. */
  lemma {:induction false} CamelHasNoDash(s: string, up: bool)
    ensures '-' !in Camel(s, up) && |Camel(s, up)| <= |s|
  {
    if s != [] {
      CamelHasNoDash(s[1..], s[0] == '-');
    }
  }

  /** A two-word name: the second word is capitalised and the dash dropped. */
  lemma TwoWordKey(first: string, second: string)
    requires '-' !in first && '-' !in second
    ensures KeyOf(first + "-" + second) == first + CapitalizeFirstLetter(second)
  {
    KeyIsCamel(first + "-" + second);
    CamelDash(first, second, false);
    CamelNoDash(first, false);
    CamelNoDash(second, true);
  }

  /** The join table's file `user-lesson.model.js` is registered as `userLesson`. */
  lemma UserLessonKey()
    ensures KeyOf("user-lesson") == "userLesson"
  {
    TwoWordKey("user", "lesson");
    assert "user" + "-" + "lesson" == "user-lesson";
    assert "user" + CapitalizeFirstLetter("lesson") == "userLesson";
  }

  /** The key a file is registered under: `None` for a file without the suffix, which is skipped. */
  function FileKey(suffix: string): string -> Option<string>
  {
    (file: string) => if EndsWith(file, suffix) then Some(KeyOf(BaseName(file, suffix))) else None
  }

  /** What the `forEach` has registered after the given files, in directory order: later files overwrite. */
  function Registered(files: seq<string>, suffix: string): map<string, string>
  {
    RegisteredBy(files, FileKey(suffix))
  }

  /** The same registration, for any rule `key` that names a file's key or skips the file. */
  function RegisteredBy(files: seq<string>, key: string -> Option<string>): map<string, string>
  {
    if files == [] then map[]
    else
      var r := RegisteredBy(files[..|files| - 1], key);
      var f := files[|files| - 1];
      if key(f).Some? then r[key(f).value := f] else r
  }

  /** The file at position `j` is registered under key `k`. */
  predicate RegistersAs(files: seq<string>, key: string -> Option<string>, j: int, k: string)
    requires 0 <= j < |files|
  {
    key(files[j]) == Some(k)
  }

  /** The file at `j` is the last one registered under `k`. */
  predicate LastFor(files: seq<string>, key: string -> Option<string>, j: int, k: string)
  {
    0 <= j < |files| && RegistersAs(files, key, j, k) && forall j' :: j < j' < |files| ==> !RegistersAs(files, key, j', k)
  }

  /** Some file of the list derives key `k`. */
  predicate Derives(files: seq<string>, key: string -> Option<string>, k: string)
  {
    exists j :: 0 <= j < |files| && RegistersAs(files, key, j, k)
  }

  /** A file before the last one registers the same key in the list without the last file. */
  lemma RegistersAsInit(files: seq<string>, key: string -> Option<string>, j: int, k: string)
    requires 0 <= j < |files| - 1
    ensures RegistersAs(files[..|files| - 1], key, j, k) == RegistersAs(files, key, j, k)
  {
    assert files[..|files| - 1][j] == files[j];
  }

  /** The last file overwrites its own key and leaves every other key as it was. */
  lemma RegisteredSnoc(files: seq<string>, key: string -> Option<string>, k: string)
    requires files != []
    ensures var n := |files| - 1;
      && (RegistersAs(files, key, n, k) ==> k in RegisteredBy(files, key) && RegisteredBy(files, key)[k] == files[n])
      && (!RegistersAs(files, key, n, k) ==>
            (k in RegisteredBy(files, key) <==> k in RegisteredBy(files[..n], key))
            && (k in RegisteredBy(files, key) ==> RegisteredBy(files, key)[k] == RegisteredBy(files[..n], key)[k]))
  {
  }

  lemma {:induction false} DerivedIsRegistered(files: seq<string>, key: string -> Option<string>, k: string)
    requires Derives(files, key, k)
    ensures k in RegisteredBy(files, key)
  {
    var n := |files| - 1;
    RegisteredSnoc(files, key, k);
    if !RegistersAs(files, key, n, k) {
      var j :| 0 <= j < |files| && RegistersAs(files, key, j, k);
      RegistersAsInit(files, key, j, k);
      DerivedIsRegistered(files[..n], key, k);
    }
  }

  lemma {:induction false} RegisteredIsDerived(files: seq<string>, key: string -> Option<string>, k: string)
    requires k in RegisteredBy(files, key)
    ensures Derives(files, key, k)
  {
    var n := |files| - 1;
    RegisteredSnoc(files, key, k);
    if !RegistersAs(files, key, n, k) {
      RegisteredIsDerived(files[..n], key, k);
      var j :| 0 <= j < n && RegistersAs(files[..n], key, j, k);
      RegistersAsInit(files, key, j, k);
    }
  }

  /** The dictionary holds a key exactly when some file with the suffix derives it. */
  lemma RegisteredKeys(files: seq<string>, suffix: string)
    ensures forall k :: k in Registered(files, suffix) <==> Derives(files, FileKey(suffix), k)
  {
    var key := FileKey(suffix);
    forall k ensures k in RegisteredBy(files, key) <==> Derives(files, key, k) {
      if k in RegisteredBy(files, key) { RegisteredIsDerived(files, key, k); }
      if Derives(files, key, k) { DerivedIsRegistered(files, key, k); }
    }
  }

  /** The file last registered under a key stays the last one when a file with another key is added. */
  lemma LastForSnoc(files: seq<string>, key: string -> Option<string>, j: int, k: string)
    requires files != [] && LastFor(files[..|files| - 1], key, j, k)
    requires !RegistersAs(files, key, |files| - 1, k)
    ensures LastFor(files, key, j, k)
  {
    var n := |files| - 1;
    RegistersAsInit(files, key, j, k);
    forall j' | j < j' < |files| ensures !RegistersAs(files, key, j', k) {
      if j' < n { RegistersAsInit(files, key, j', k); }
    }
  }

  /** Under key `k` sits the last file that derives it. */
  lemma {:induction false} LastWinsFor(files: seq<string>, key: string -> Option<string>, k: string)
    requires k in RegisteredBy(files, key)
    ensures exists j :: LastFor(files, key, j, k) && RegisteredBy(files, key)[k] == files[j]
  {
    var n := |files| - 1;
    RegisteredSnoc(files, key, k);
    if RegistersAs(files, key, n, k) {
      assert LastFor(files, key, n, k);
    } else {
      LastWinsFor(files[..n], key, k);
      var j :| LastFor(files[..n], key, j, k) && RegisteredBy(files[..n], key)[k] == files[..n][j];
      LastForSnoc(files, key, j, k);
      assert files[..n][j] == files[j];
    }
  }

  /** Under each key sits the last file with the suffix that derives it; later files overwrite earlier ones. */
  lemma RegisteredLastWins(files: seq<string>, suffix: string)
    ensures forall k :: k in Registered(files, suffix) ==>
      exists j :: LastFor(files, FileKey(suffix), j, k) && Registered(files, suffix)[k] == files[j]
  {
    var key := FileKey(suffix);
    forall k | k in RegisteredBy(files, key)
      ensures exists j :: LastFor(files, key, j, k) && RegisteredBy(files, key)[k] == files[j]
    {
      LastWinsFor(files, key, k);
    }
  }

  /** A file has a key exactly when its name ends in the suffix; the key is derived from the base name. */
  lemma FileKeySpec(suffix: string, file: string)
    ensures FileKey(suffix)(file).Some? <==> EndsWith(file, suffix)
    ensures EndsWith(file, suffix) ==> FileKey(suffix)(file).value == Camel(BaseName(file, suffix), false)
  {
    if EndsWith(file, suffix) {
      KeyIsCamel(BaseName(file, suffix));
    }
  }

  /** How many of the files carry the suffix. */
  function Matching(files: seq<string>, suffix: string): nat
  {
    if files == [] then 0
    else Matching(files[..|files| - 1], suffix) + (if EndsWith(files[|files| - 1], suffix) then 1 else 0)
  }

  /** There are never more keys than matching files. */
  lemma {:induction false} KeysAtMostMatching(files: seq<string>, suffix: string)
    ensures |Registered(files, suffix).Keys| <= Matching(files, suffix)
  {
    if files != [] {
      KeysAtMostMatching(files[..|files| - 1], suffix);
    }
  }

  /** The directory listing loop, `fs.readdirSync(dir).forEach(...)`. */
  method Register(files: seq<string>, suffix: string) returns (registry: map<string, string>)
    ensures registry == Registered(files, suffix)
  {
    registry := map[];
    var i := 0;
    while i < |files|
      invariant 0 <= i <= |files|
      invariant registry == Registered(files[..i], suffix)
    {
      var file := files[i];
      if EndsWith(file, suffix) {
        var key := KeyOf(BaseName(file, suffix));
        registry := registry[key := file];
      }
      assert files[..i + 1][..i] == files[..i];
      i := i + 1;
    }
    assert files[..i] == files;
  }

  /** `auth.route.js` is registered under `auth`. */
  lemma AuthRouteKey()
    ensures FileKey(ROUTE_SUFFIX)("auth.route.js") == Some("auth")
  {
    assert EndsWith("auth.route.js", ROUTE_SUFFIX);
    assert BaseName("auth.route.js", ROUTE_SUFFIX) == "auth";
    KeyWithoutDash("auth");
  }

  /** `public.js` lacks the suffix and is skipped. */
  lemma PublicRouteSkipped()
    ensures FileKey(ROUTE_SUFFIX)("public.js") == None
  {
    assert !EndsWith("public.js", ROUTE_SUFFIX);
  }

  /** `routes/public.js` lacks the suffix and is not registered; `auth.route.js` is, under `auth`. */
  lemma RouteDirectory()
    ensures Registered(["auth.route.js", "public.js"], ROUTE_SUFFIX) == map["auth" := "auth.route.js"]
  {
    var files := ["auth.route.js", "public.js"];
    var key := FileKey(ROUTE_SUFFIX);
    AuthRouteKey();
    PublicRouteSkipped();
    assert files[..1] == ["auth.route.js"];
    assert [files[0]][..0] == [];
    assert RegisteredBy(files[..1], key) == map["auth" := "auth.route.js"];
  }
}
