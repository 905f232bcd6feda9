/** `utils/stringUtils.js`. */
module StringUtils {
  import opened Text

  /** `capitalizeFirstLetter`: the first character upper-cased, the rest as it was; '' stays ''. */
  function CapitalizeFirstLetter(s: string): (r: string)
    ensures s == [] ==> r == []
    ensures |r| == |s|
    ensures s != [] ==> r[0] == UpperChar(s[0]) && r[1..] == s[1..]
  {
    if |s| == 0 then [] else [UpperChar(s[0])] + s[1..]
  }

  /** Upper-casing is idempotent on a character. */
  lemma UpperCharIdempotent(c: char)
    ensures UpperChar(UpperChar(c)) == UpperChar(c)
    ensures !('a' <= UpperChar(c) <= 'z')
  {
  }

  /** Capitalising twice is capitalising once. */
  lemma CapitalizeIdempotent(s: string)
    ensures CapitalizeFirstLetter(CapitalizeFirstLetter(s)) == CapitalizeFirstLetter(s)
  {
    if s != [] {
      UpperCharIdempotent(s[0]);
      var r := CapitalizeFirstLetter(s);
      assert CapitalizeFirstLetter(r) == [UpperChar(r[0])] + r[1..];
    }
  }
}
