/**
 * The string matching the search boxes use: JavaScript's `includes` and
 * `toLowerCase`, and SQL's `LIKE '%…%'` under a case-insensitive collation.
 * Case folding covers the ASCII letters only.
 */
module Text {
  /** `A`..`Z` become `a`..`z`; every other character is kept. */
  function LowerChar(c: char): (l: char)
    ensures 'A' <= c <= 'Z' ==> l as int == c as int + 32
    ensures !('A' <= c <= 'Z') ==> l == c
    ensures !('A' <= l <= 'Z')
  {
    if 'A' <= c <= 'Z' then (c as int + 32) as char else c
  }

  /**
   * Lower-casing character by character, folding the ASCII letters only:
   * `toLowerCase()` and a case-insensitive collation also fold the other
   * cased letters, which this does not.
   */
  function Lower(s: string): (l: string)
    ensures |l| == |s|
    ensures forall k :: 0 <= k < |s| ==> l[k] == LowerChar(s[k])
    decreases |s|
  {
    if |s| == 0 then "" else [LowerChar(s[0])] + Lower(s[1..])
  }

  /** `s` starts with `p`. */
  predicate IsPrefix(p: string, s: string)
  {
    |p| <= |s| && s[..|p|] == p
  }

  /** `s.includes(sub)`: `sub` occurs somewhere in `s`; the empty string occurs everywhere. */
  predicate Contains(s: string, sub: string)
    decreases |s|
  {
    IsPrefix(sub, s) || (|s| > 0 && Contains(s[1..], sub))
  }

  /** `sub` occurs in `s` starting at position `i`. */
  predicate OccursAt(s: string, sub: string, i: nat)
  {
    i + |sub| <= |s| && s[i..i + |sub|] == sub
  }

  /** `Contains` agrees with the usual definition by an occurrence position. */
  lemma {:induction false} ContainsAt(s: string, sub: string)
    ensures Contains(s, sub) <==> exists i: nat :: OccursAt(s, sub, i)
    decreases |s|
  {
    if |s| > 0 {
      ContainsAt(s[1..], sub);
      if IsPrefix(sub, s) {
        assert OccursAt(s, sub, 0);
      }
      if Contains(s[1..], sub) {
        var i: nat :| OccursAt(s[1..], sub, i);
        assert OccursAt(s, sub, i + 1);
      }
      if exists i: nat :: OccursAt(s, sub, i) {
        var i: nat :| OccursAt(s, sub, i);
        if i > 0 {
          assert OccursAt(s[1..], sub, i - 1);
        } else {
          assert IsPrefix(sub, s);
        }
      }
    } else if Contains(s, sub) {
      assert OccursAt(s, sub, 0);
    }
  }

  /** Every string contains the empty string. */
  lemma ContainsEmpty(s: string)
    ensures Contains(s, "")
  {
    assert IsPrefix("", s);
  }
}
