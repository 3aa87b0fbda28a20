/**
  String operations the dashboard relies on: lower-casing, substring search,
  `split("_")[0]` and `str.replace`.  Strings are sequences of characters.
 */
module Text {

  /** Lower-cases an ASCII capital letter and leaves every other character alone. */
  function LowerChar(c: char): char
  {
    if 'A' <= c <= 'Z' then (c as int - 'A' as int + 'a' as int) as char else c
  }

  /** `s.lower()`, restricted to ASCII letters. */
  function Lower(s: string): (r: string)
    ensures |r| == |s|
  {
    seq(|s|, i requires 0 <= i < |s| => LowerChar(s[i]))
  }

  /** The lower-cased text has no capitals, and every character that is not a capital is kept. */
  lemma LowerSpec(s: string)
    ensures NoCapitals(Lower(s))
    ensures forall i :: 0 <= i < |s| && !('A' <= s[i] <= 'Z') ==> Lower(s)[i] == s[i]
    ensures Lower(Lower(s)) == Lower(s)
  {
  }

  /** True when no ASCII capital letter occurs in `s`. */
  predicate NoCapitals(s: string)
  {
    forall i :: 0 <= i < |s| ==> !('A' <= s[i] <= 'Z')
  }

  /** `sub` occurs in `s` starting at index `i`. */
  predicate OccursAt(s: string, sub: string, i: int)
  {
    0 <= i && i + |sub| <= |s| && s[i..i + |sub|] == sub
  }

  /** Python's `sub in s`. */
  predicate Contains(s: string, sub: string)
  {
    exists i :: 0 <= i <= |s| - |sub| && OccursAt(s, sub, i)
  }

  /** Lower-casing keeps every occurrence of a word that has no capitals. */
  lemma ContainsLower(s: string, sub: string)
    requires Contains(s, sub) && NoCapitals(sub)
    ensures Contains(Lower(s), sub)
  {
    var i :| 0 <= i <= |s| - |sub| && OccursAt(s, sub, i);
    assert Lower(s)[i..i + |sub|] == sub by {
      forall k | 0 <= k < |sub|
        ensures Lower(s)[i..i + |sub|][k] == sub[k]
      {
        assert s[i + k] == sub[k];
      }
    }
    assert OccursAt(Lower(s), sub, i);
  }

  /**
    `s.split("_")[0]`: the text before the first underscore, or all of `s`
    when it has none.
   */
  function FirstToken(s: string): (r: string)
    ensures '_' !in r
    ensures r <= s
    ensures '_' in s ==> |r| < |s| && s[|r|] == '_'
    ensures '_' !in s ==> r == s
  {
    if s == [] || s[0] == '_' then [] else [s[0]] + FirstToken(s[1..])
  }

  /**
    Python's `s.replace(pat, rep)` for a non-empty `pat`: occurrences are
    found from the left and never overlap.
   */
  function ReplaceAll(s: string, pat: string, rep: string): (r: string)
    requires |pat| > 0
    ensures |rep| <= |pat| ==> |r| <= |s|
    ensures |s| >= |pat| && s[..|pat|] == pat ==> rep <= r
    decreases |s|
  {
    if |s| < |pat| then s
    else if s[..|pat|] == pat then rep + ReplaceAll(s[|pat|..], pat, rep)
    else [s[0]] + ReplaceAll(s[1..], pat, rep)
  }

  /** A string in which `pat` does not occur comes back unchanged. */
  lemma {:induction false} ReplaceAllAbsent(s: string, pat: string, rep: string)
    requires |pat| > 0 && !Contains(s, pat)
    ensures ReplaceAll(s, pat, rep) == s
    decreases |s|
  {
    if |s| >= |pat| {
      assert !OccursAt(s, pat, 0);
      assert s[..|pat|] != pat;
      assert !Contains(s[1..], pat) by {
        forall i | 0 <= i <= |s[1..]| - |pat|
          ensures !OccursAt(s[1..], pat, i)
        {
          assert !OccursAt(s, pat, i + 1);
          assert s[1..][i..i + |pat|] == s[i + 1..i + 1 + |pat|];
        }
      }
      ReplaceAllAbsent(s[1..], pat, rep);
      assert [s[0]] + s[1..] == s;
    }
  }
}
