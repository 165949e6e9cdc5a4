/**
  The few operations on Python `str` values that the modelled code uses:
  `strip()`, `strip(chars)`, `split(sep)[0]`, `startswith`, `endswith` and
  `replace(old, new)`. Strings are sequences of Unicode code points.
 */
module Text {

  /** Python's `str.isspace` for one code point, the set `str.strip()` removes. */
  predicate IsSpace(c: char) {
    var n := c as int;
    n == 0x20 || 0x09 <= n <= 0x0D || 0x1C <= n <= 0x1F || n == 0x85 || n == 0xA0
    || n == 0x1680 || 0x2000 <= n <= 0x200A || n == 0x2028 || n == 0x2029
    || n == 0x202F || n == 0x205F || n == 0x3000
  }

  /** The number of leading characters of `s` that `strip` removes. */
  function LeadingCount(s: string, stripped: char -> bool): (n: nat)
    ensures n <= |s|
    ensures forall k :: 0 <= k < n ==> stripped(s[k])
    ensures n < |s| ==> !stripped(s[n])
  {
    if s == [] || !stripped(s[0]) then 0 else 1 + LeadingCount(s[1..], stripped)
  }

  /** The number of trailing characters of `s` that `strip` removes. */
  function TrailingCount(s: string, stripped: char -> bool): (n: nat)
    ensures n <= |s|
    ensures forall k :: |s| - n <= k < |s| ==> stripped(s[k])
    ensures n < |s| ==> !stripped(s[|s| - 1 - n])
  {
    if s == [] || !stripped(s[|s| - 1]) then 0 else 1 + TrailingCount(s[..|s| - 1], stripped)
  }

  /**
    Python's `s.strip(chars)`: the longest slice of `s` that neither starts
    nor ends with a stripped character.
   */
  function StripBy(s: string, stripped: char -> bool): string {
    var t := s[LeadingCount(s, stripped)..];
    t[..|t| - TrailingCount(t, stripped)]
  }

  /** What `strip` keeps: a slice that is not stripped at either end, everything cut off being stripped. */
  lemma StripBySpec(s: string, stripped: char -> bool)
    ensures var r, lead := StripBy(s, stripped), LeadingCount(s, stripped);
      && lead + |r| <= |s|
      && r == s[lead..lead + |r|]
      && (forall k :: lead + |r| <= k < |s| ==> stripped(s[k]))
      && (r != [] ==> !stripped(r[0]) && !stripped(r[|r| - 1]))
      && (r == [] <==> forall k :: 0 <= k < |s| ==> stripped(s[k]))
  {
  }

  /** Concatenation regroups freely; stated once for every sequence type the proofs split. */
  lemma Associate<T>(a: seq<T>, b: seq<T>, c: seq<T>)
    ensures a + (b + c) == (a + b) + c
  {
  }

  /** Python's `s.strip()`. */
  function Strip(s: string): string {
    StripBy(s, IsSpace)
  }

  /** Python's `s.strip(c)` for a single character `c`. */
  function StripChar(s: string, c: char): string {
    StripBy(s, x => x == c)
  }

  predicate StartsWith(s: string, prefix: string) {
    prefix <= s
  }

  predicate EndsWith(s: string, c: char) {
    s != [] && s[|s| - 1] == c
  }

  /** `pat` occurs in `s` starting at index `i`. */
  predicate OccursAt(s: string, pat: string, i: int) {
    0 <= i && i + |pat| <= |s| && s[i..i + |pat|] == pat
  }

  predicate Contains(s: string, pat: string) {
    exists i :: 0 <= i <= |s| && OccursAt(s, pat, i)
  }

  /** Python's `s.find(pat, i)`, except that "not found" is `|s|` rather than -1. */
  function FindFrom(s: string, pat: string, i: nat): (k: nat)
    requires pat != [] && i <= |s|
    ensures i <= k <= |s|
    ensures k < |s| ==> OccursAt(s, pat, k)
    ensures forall j :: i <= j < k ==> !OccursAt(s, pat, j)
    decreases |s| - i
  {
    if i + |pat| > |s| then |s|
    else if s[i..i + |pat|] == pat then i
    else FindFrom(s, pat, i + 1)
  }

  /** Python's `s.split(pat)[0]`: the part of `s` before the first `pat`. */
  function Before(s: string, pat: string): (r: string)
    requires pat != []
    ensures r <= s
    ensures !Contains(r, pat)
    ensures r == s || OccursAt(s, pat, |r|)
    ensures forall j :: 0 <= j < |r| ==> !OccursAt(s, pat, j)
  {
    var k := FindFrom(s, pat, 0);
    var r := s[..k];
    assert forall j :: 0 <= j <= |r| && OccursAt(r, pat, j) ==> OccursAt(s, pat, j) by {
      forall j | 0 <= j <= |r| && OccursAt(r, pat, j) ensures OccursAt(s, pat, j) {
        assert s[j..j + |pat|] == r[j..j + |pat|];
      }
    }
    r
  }

  /**
    Python's `s.replace(pat, "")`: every occurrence of `pat` found scanning
    left to right, without overlaps, is deleted.
   */
  function RemoveAll(s: string, pat: string): (r: string)
    requires pat != []
    ensures |r| <= |s|
    decreases |s|
  {
    if |s| < |pat| then s
    else if pat <= s then RemoveAll(s[|pat|..], pat)
    else [s[0]] + RemoveAll(s[1..], pat)
  }

  /** Python's `s.replace(a, b)` for single characters. */
  function ReplaceChar(s: string, a: char, b: char): (r: string)
    ensures |r| == |s|
    ensures forall i :: 0 <= i < |s| ==> r[i] == if s[i] == a then b else s[i]
  {
    if s == [] then [] else [if s[0] == a then b else s[0]] + ReplaceChar(s[1..], a, b)
  }

  /** Python's `s.replace(pat, "")`, where an empty `pat` leaves `s` as it is. */
  function Remove(s: string, pat: string): string {
    if pat == [] then s else RemoveAll(s, pat)
  }

  /** Deleting every `c` leaves no `c` behind. */
  lemma {:induction false} RemoveCharLeavesNone(s: string, c: char)
    ensures c !in Remove(s, [c])
    decreases |s|
  {
    if |s| >= 1 {
      if [c] <= s {
        RemoveCharLeavesNone(s[1..], c);
      } else {
        assert s[0] != c;
        RemoveCharLeavesNone(s[1..], c);
      }
    }
  }

  /**
    Stripping `pre + c + post`, where `pre` and `post` are made of stripped
    characters and `c` neither starts nor ends with one, gives `c`.
   */
  lemma StripByIdentity(pre: string, c: string, post: string, stripped: char -> bool)
    requires forall k :: 0 <= k < |pre| ==> stripped(pre[k])
    requires forall k :: 0 <= k < |post| ==> stripped(post[k])
    requires c == [] || (!stripped(c[0]) && !stripped(c[|c| - 1]))
    ensures StripBy(pre + c + post, stripped) == c
  {
    var s := pre + c + post;
    var r := StripBy(s, stripped);
    var lead := LeadingCount(s, stripped);
    if c == [] {
      assert forall k :: 0 <= k < |s| ==> stripped(s[k]) by {
        forall k | 0 <= k < |s| ensures stripped(s[k]) {
          if k < |pre| { assert s[k] == pre[k]; } else { assert s[k] == post[k - |pre|]; }
        }
      }
    } else {
      forall k | 0 <= k < |pre| ensures s[k] == pre[k] && stripped(s[k]) { }
      assert s[|pre|] == c[0];
      assert lead == |pre|;
      assert s[|pre| + |c| - 1] == c[|c| - 1];
      assert |r| == |c|;
      assert r == s[|pre|..|pre| + |c|];
    }
  }
}
