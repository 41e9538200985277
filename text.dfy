/** String helpers used by the permission check: Python's `str.startswith`
    and `str.lower`, the latter restricted to ASCII letters. */
module Text {

  /** `s.startswith(prefix)`: character by character, the first
      `|prefix|` characters of `s` are those of `prefix`. */
  predicate StartsWith(s: string, prefix: string)
    ensures StartsWith(s, prefix) <==>
              |prefix| <= |s| && forall i :: 0 <= i < |prefix| ==> s[i] == prefix[i]
  {
    |prefix| <= |s| && s[..|prefix|] == prefix
  }

  /** Lower-cases one ASCII letter and leaves every other character alone. */
  function LowerChar(c: char): char
  {
    if 'A' <= c <= 'Z' then (c as int + 32) as char else c
  }

  /** `s.lower()`, character by character. */
  function Lower(s: string): (r: string)
    ensures |r| == |s|
    ensures forall i :: 0 <= i < |s| ==> r[i] == LowerChar(s[i])
  {
    if s == [] then [] else [LowerChar(s[0])] + Lower(s[1..])
  }

  /** `s` begins with `prefix` when the case of letters is ignored: the
      declarative reading of `s.lower().startswith(prefix.lower())`. */
  predicate StartsWithIgnoringCase(s: string, prefix: string)
  {
    |prefix| <= |s| && forall i :: 0 <= i < |prefix| ==> LowerChar(s[i]) == LowerChar(prefix[i])
  }

  /** `s` holds no upper-case ASCII letter. */
  predicate IsLowercase(s: string)
  {
    forall i :: 0 <= i < |s| ==> !('A' <= s[i] <= 'Z')
  }

  /** Lower-casing and then testing a lower-case prefix is the same as a
      case-insensitive prefix test. */
  lemma LowerStartsWith(s: string, prefix: string)
    requires IsLowercase(prefix)
    ensures StartsWith(Lower(s), prefix) <==> StartsWithIgnoringCase(s, prefix)
  {
    var ls := Lower(s);
    if StartsWithIgnoringCase(s, prefix) {
      assert forall i :: 0 <= i < |prefix| ==> ls[..|prefix|][i] == prefix[i];
    }
    if StartsWith(ls, prefix) {
      forall i | 0 <= i < |prefix|
        ensures LowerChar(s[i]) == LowerChar(prefix[i])
      {
        assert ls[..|prefix|][i] == prefix[i];
      }
    }
  }
}
