/** String operations of the JavaScript runtime that the application relies on. */
module Text {

  /** JavaScript's WhiteSpace and LineTerminator code points, which `String.prototype.trim` removes. */
  predicate IsSpace(c: char)
  {
    var n := c as int;
    n == 0x20 || 0x09 <= n <= 0x0D || n == 0xA0 || n == 0x1680 || 0x2000 <= n <= 0x200A ||
    n == 0x2028 || n == 0x2029 || n == 0x202F || n == 0x205F || n == 0x3000 || n == 0xFEFF
  }

  predicate AllSpace(s: string)
  {
    forall i :: 0 <= i < |s| ==> IsSpace(s[i])
  }

  function TrimStart(s: string): (r: string)
    ensures |r| <= |s|
    ensures r == [] || !IsSpace(r[0])
    ensures forall i :: 0 <= i < |s| - |r| ==> IsSpace(s[i])
  {
    if s == [] || !IsSpace(s[0]) then s
    else
      var r := TrimStart(s[1..]);
      assert forall i :: 1 <= i < |s| - |r| ==> s[i] == s[1..][i - 1];
      r
  }

  function TrimEnd(s: string): (r: string)
    ensures |r| <= |s|
    ensures r == [] || !IsSpace(r[|r| - 1])
    ensures forall i :: |r| <= i < |s| ==> IsSpace(s[i])
  {
    if s == [] || !IsSpace(s[|s| - 1]) then s
    else
      var r := TrimEnd(s[..|s| - 1]);
      assert forall i :: |r| <= i < |s| - 1 ==> s[i] == s[..|s| - 1][i];
      r
  }

  /** What `TrimStart` leaves is a suffix of the string. */
  lemma {:induction false} TrimStartIsSuffix(s: string)
    ensures TrimStart(s) == s[|s| - |TrimStart(s)|..]
  {
    if s != [] && IsSpace(s[0]) {
      TrimStartIsSuffix(s[1..]);
    }
  }

  /** What `TrimEnd` leaves is a prefix of the string. */
  lemma {:induction false} TrimEndIsPrefix(s: string)
    ensures TrimEnd(s) == s[..|TrimEnd(s)|]
  {
    if s != [] && IsSpace(s[|s| - 1]) {
      TrimEndIsPrefix(s[..|s| - 1]);
    }
  }

  /** `String.prototype.trim`. */
  function Trim(s: string): string
  {
    TrimEnd(TrimStart(s))
  }

  /** The trimmed string neither starts nor ends with white space. */
  predicate Trimmed(s: string)
  {
    s == [] || (!IsSpace(s[0]) && !IsSpace(s[|s| - 1]))
  }

  lemma TrimIsTrimmed(s: string)
    ensures Trimmed(Trim(s))
    ensures |Trim(s)| <= |s|
  {
    var t := TrimStart(s);
    var r := TrimEnd(t);
    TrimEndIsPrefix(t);
    if r != [] {
      assert r[0] == t[0];
    }
  }

  lemma TrimmedIsFixed(s: string)
    requires Trimmed(s)
    ensures Trim(s) == s
  {
  }

  /** Trimming twice is trimming once. */
  lemma TrimIdempotent(s: string)
    ensures Trim(Trim(s)) == Trim(s)
  {
    TrimIsTrimmed(s);
    TrimmedIsFixed(Trim(s));
  }

  lemma {:induction false} TrimStartOfSpaces(s: string)
    requires AllSpace(s)
    ensures TrimStart(s) == []
  {
    if s != [] {
      TrimStartOfSpaces(s[1..]);
    }
  }

  /** Exactly the strings made only of white space trim to the empty string. */
  lemma TrimEmptyIffAllSpace(s: string)
    ensures Trim(s) == [] <==> AllSpace(s)
  {
    if AllSpace(s) {
      TrimStartOfSpaces(s);
    }
  }

  function LowerChar(c: char): char
  {
    if 'A' <= c <= 'Z' then (c as int + 32) as char else c
  }

  function UpperChar(c: char): char
  {
    if 'a' <= c <= 'z' then (c as int - 32) as char else c
  }

  /** `String.prototype.toLowerCase`, on the ASCII letters. */
  function Lower(s: string): (r: string)
    ensures |r| == |s|
    ensures forall i :: 0 <= i < |s| ==> r[i] == LowerChar(s[i])
  {
    if s == [] then [] else [LowerChar(s[0])] + Lower(s[1..])
  }

  /** Lower-casing twice is lower-casing once. */
  lemma LowerIdempotent(s: string)
    ensures Lower(Lower(s)) == Lower(s)
  {
  }

  predicate StartsWith(s: string, prefix: string)
  {
    |prefix| <= |s| && s[..|prefix|] == prefix
  }

  predicate EndsWith(s: string, suffix: string)
  {
    |suffix| <= |s| && s[|s| - |suffix|..] == suffix
  }

  /** `hay.includes(needle)`: `needle` occurs somewhere in `hay`. */
  predicate Contains(hay: string, needle: string)
  {
    exists i :: 0 <= i <= |hay| - |needle| && OccursAt(hay, needle, i)
  }

  predicate OccursAt(hay: string, needle: string, i: int)
    requires 0 <= i <= |hay| - |needle|
  {
    hay[i..i + |needle|] == needle
  }

  /**
   * SQL `hay LIKE pattern` under a case-insensitive collation (ASCII case folding): `%` matches any
   * run of characters, `_` any one character, and `\` makes the character after it literal; a `\`
   * that ends the pattern is itself literal.
   */
  predicate Like(hay: string, pattern: string)
    decreases |hay| + |pattern|
  {
    if pattern == [] then hay == []
    else if pattern[0] == '%' then Like(hay, pattern[1..]) || (hay != [] && Like(hay[1..], pattern))
    else if pattern[0] == '_' then hay != [] && Like(hay[1..], pattern[1..])
    else if pattern[0] == '\\' && |pattern| >= 2 then
      hay != [] && LowerChar(hay[0]) == LowerChar(pattern[1]) && Like(hay[1..], pattern[2..])
    else hay != [] && LowerChar(hay[0]) == LowerChar(pattern[0]) && Like(hay[1..], pattern[1..])
  }

  /**
   * SQL `LIKE '%needle%'`: the needle goes between the two `%` as it is, so a `%`, `_` or `\` in
   * it acts as a pattern character.
   */
  predicate LikeAnywhere(hay: string, needle: string)
  {
    Like(hay, "%" + needle + "%")
  }

  /** No character of `s` is special in a `LIKE` pattern. */
  predicate Literal(s: string)
  {
    forall i :: 0 <= i < |s| ==> s[i] != '%' && s[i] != '_' && s[i] != '\\'
  }

  /** A trailing `%` matches whatever is left. */
  lemma {:induction false} LikeRest(hay: string)
    ensures Like(hay, "%")
  {
    if hay != [] {
      LikeRest(hay[1..]);
    }
  }

  /** A literal pattern followed by `%` matches exactly the strings that start with it, ignoring case. */
  lemma {:induction false} LikeLiteralPrefix(hay: string, p: string)
    requires Literal(p)
    ensures Like(hay, p + "%") <==> StartsWith(Lower(hay), Lower(p))
  {
    if p == [] {
      assert p + "%" == "%";
      LikeRest(hay);
    } else {
      assert (p + "%")[1..] == p[1..] + "%";
      LikeLiteralPrefix(if hay == [] then hay else hay[1..], p[1..]);
      if hay != [] {
        assert Lower(hay) == [LowerChar(hay[0])] + Lower(hay[1..]);
        assert Lower(p) == [LowerChar(p[0])] + Lower(p[1..]);
      }
    }
  }

  /** A leading `%` lets the rest of the pattern match any suffix. */
  lemma {:induction false} LikeLeadingPercent(hay: string, q: string)
    ensures Like(hay, "%" + q) <==> exists i :: 0 <= i <= |hay| && Like(hay[i..], q)
  {
    var pat := "%" + q;
    assert pat[0] == '%' && pat[1..] == q;
    assert hay[0..] == hay;
    if hay != [] {
      LikeLeadingPercent(hay[1..], q);
      if Like(hay[1..], pat) {
        var j :| 0 <= j <= |hay[1..]| && Like(hay[1..][j..], q);
        assert hay[1..][j..] == hay[j + 1..];
      }
      if exists i :: 0 <= i <= |hay| && Like(hay[i..], q) {
        var i :| 0 <= i <= |hay| && Like(hay[i..], q);
        if i > 0 {
          assert hay[1..][i - 1..] == hay[i..];
          assert Like(hay[1..], pat);
        }
      }
    }
  }

  /** Lower-casing commutes with taking a suffix. */
  lemma LowerSuffix(s: string, i: nat)
    requires i <= |s|
    ensures Lower(s[i..]) == Lower(s)[i..]
  {
  }

  /**
   * A search text without `%`, `_` or `\` matches exactly the values that contain it as a
   * substring, ignoring case.
   */
  lemma LikeAnywhereLiteral(hay: string, needle: string)
    requires Literal(needle)
    ensures LikeAnywhere(hay, needle) <==> Contains(Lower(hay), Lower(needle))
  {
    assert "%" + needle + "%" == "%" + (needle + "%");
    LikeLeadingPercent(hay, needle + "%");
    if LikeAnywhere(hay, needle) {
      var i :| 0 <= i <= |hay| && Like(hay[i..], needle + "%");
      LikeLiteralPrefix(hay[i..], needle);
      LowerSuffix(hay, i);
      assert OccursAt(Lower(hay), Lower(needle), i);
    }
    if Contains(Lower(hay), Lower(needle)) {
      var i :| 0 <= i <= |Lower(hay)| - |Lower(needle)| && OccursAt(Lower(hay), Lower(needle), i);
      LowerSuffix(hay, i);
      LikeLiteralPrefix(hay[i..], needle);
    }
  }

  /** A search for `%` matches every value, the empty one included. */
  lemma PercentMatchesAll(hay: string)
    ensures LikeAnywhere(hay, "%")
  {
    LikeRest(hay);
    assert Like(hay, "%%") by { assert "%%"[1..] == "%"; }
    assert Like(hay, "%" + "%" + "%") by { assert ("%" + "%" + "%")[1..] == "%%"; }
  }

  /** A search for `_` matches exactly the non-empty values. */
  lemma UnderscoreMatchesNonEmpty(hay: string)
    ensures LikeAnywhere(hay, "_") <==> hay != []
  {
    var p := "%" + "_" + "%";
    LikeLeadingPercent(hay, "_%");
    assert p == "%" + "_%";
    if hay != [] {
      LikeRest(hay[1..]);
      assert Like(hay[0..], "_%") by { assert "_%"[1..] == "%"; assert hay[0..] == hay; }
    } else {
      assert !Like(hay, "_%");
    }
  }

  /** `s.split(sep)`: the pieces between occurrences of `sep`; there is always one more piece than separators. */
  function Split(s: string, sep: char): (parts: seq<string>)
    ensures |parts| >= 1
    ensures forall i :: 0 <= i < |parts| ==> sep !in parts[i]
    decreases |s|
  {
    if sep !in s then [s]
    else
      var i := IndexOf(s, sep);
      [s[..i]] + Split(s[i + 1..], sep)
  }

  /** The position of the first `c` in `s`. */
  function IndexOf(s: string, c: char): (i: nat)
    requires c in s
    ensures i < |s| && s[i] == c && c !in s[..i]
  {
    if s[0] == c then 0
    else
      assert c in s[1..] by { var k :| 0 <= k < |s| && s[k] == c; assert s[1..][k - 1] == c; }
      var j := IndexOf(s[1..], c);
      assert s[..j + 1] == [s[0]] + s[1..][..j];
      j + 1
  }

  /** `parts.join(sep)`. */
  function Join(parts: seq<string>, sep: string): string
  {
    if parts == [] then []
    else if |parts| == 1 then parts[0]
    else parts[0] + sep + Join(parts[1..], sep)
  }

  /** Joining the pieces of a split with the separator gives back the string. */
  lemma {:induction false} JoinSplit(s: string, sep: char)
    ensures Join(Split(s, sep), [sep]) == s
    decreases |s|
  {
    if sep in s {
      var i := IndexOf(s, sep);
      JoinSplit(s[i + 1..], sep);
      assert |Split(s[i + 1..], sep)| >= 1;
      assert s == s[..i] + [sep] + s[i + 1..];
    }
  }

  /** `s.split(' ').join('-')`: every space becomes a dash. */
  function DashForSpace(s: string): (r: string)
    ensures |r| == |s|
    ensures forall i :: 0 <= i < |s| ==> r[i] == if s[i] == ' ' then '-' else s[i]
  {
    if s == [] then [] else [if s[0] == ' ' then '-' else s[0]] + DashForSpace(s[1..])
  }

  /** Decimal rendering of a natural number, as template literals print integers. */
  function NatToString(n: nat): (r: string)
    ensures |r| >= 1
    ensures forall i :: 0 <= i < |r| ==> '0' <= r[i] <= '9'
  {
    if n < 10 then [Digit(n)] else NatToString(n / 10) + [Digit(n % 10)]
  }

  function Digit(d: nat): (c: char)
    requires d < 10
    ensures '0' <= c <= '9'
  {
    ('0' as int + d) as char
  }

  /** The value of a string of decimal digits. */
  function DigitsValue(s: string): nat
    requires forall i :: 0 <= i < |s| ==> '0' <= s[i] <= '9'
  {
    if s == [] then 0 else DigitsValue(s[..|s| - 1]) * 10 + (s[|s| - 1] as int - '0' as int)
  }

  /** Reading the digits back gives the number. */
  lemma {:induction false} NatToStringValue(n: nat)
    ensures DigitsValue(NatToString(n)) == n
  {
    if n >= 10 {
      NatToStringValue(n / 10);
      var r := NatToString(n);
      assert r[..|r| - 1] == NatToString(n / 10);
    }
  }
}
