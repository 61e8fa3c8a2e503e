/**
 * String matching as the browser performs it: `String.prototype.includes`,
 * regular-expression alternation with and without the `i` flag, and the
 * UTF-16 view of a string that `charCodeAt` exposes.
 */
module Text {

  /** A UTF-16 code unit, the value `charCodeAt` returns. */
  type CodeUnit = u: int | 0 <= u < 0x1_0000

  /** `pat` occurs in `s` at index `i`. */
  predicate OccursAt(s: string, pat: string, i: int)
  {
    0 <= i && i + |pat| <= |s| && s[i..i + |pat|] == pat
  }

  /** `s.includes(pat)`. */
  predicate Contains(s: string, pat: string)
  {
    exists i | 0 <= i <= |s| - |pat| :: OccursAt(s, pat, i)
  }

  /** Upper-casing restricted to ASCII letters. */
  function AsciiUpper(c: char): (u: char)
    ensures 'a' <= c <= 'z' ==> 'A' <= u <= 'Z' && u as int - c as int == 'A' as int - 'a' as int
    ensures !('a' <= c <= 'z') ==> u == c
  {
    if 'a' <= c <= 'z' then (c as int - 'a' as int + 'A' as int) as char else c
  }

  /** Two characters are equal under ASCII case folding. */
  predicate SameIgnoringCase(a: char, b: char)
  {
    AsciiUpper(a) == AsciiUpper(b)
  }

  /** `pat` occurs in `s` at index `i`, letters compared without regard to case. */
  predicate OccursAtIgnoringCase(s: string, pat: string, i: int)
  {
    0 <= i && i + |pat| <= |s| &&
    forall j | 0 <= j < |pat| :: SameIgnoringCase(s[i + j], pat[j])
  }

  /**
   * `/pat/i.test(s)` for an ASCII pattern. Without the `u` flag the regular
   * expression canonicalises with `toUpperCase` and never lets a non-ASCII
   * character fold onto an ASCII one, so for ASCII letters this is exactly
   * ASCII case folding.
   */
  predicate ContainsIgnoringCase(s: string, pat: string)
  {
    exists i | 0 <= i <= |s| - |pat| :: OccursAtIgnoringCase(s, pat, i)
  }

  /** `/p1|p2|.../.test(s)`, with or without the `i` flag. */
  predicate ContainsAny(s: string, pats: seq<string>, ignoreCase: bool)
  {
    exists k | 0 <= k < |pats| ::
      if ignoreCase then ContainsIgnoringCase(s, pats[k]) else Contains(s, pats[k])
  }

  /** A one-pattern alternation is the pattern itself. */
  lemma ContainsAnyOne(s: string, pat: string, ignoreCase: bool)
    ensures ContainsAny(s, [pat], ignoreCase) <==>
            if ignoreCase then ContainsIgnoringCase(s, pat) else Contains(s, pat)
  {
    assert [pat][0] == pat;
  }

  /** Substring containment is transitive. */
  lemma {:induction false} ContainsTransitive(s: string, mid: string, pat: string)
    requires Contains(s, mid) && Contains(mid, pat)
    ensures Contains(s, pat)
  {
    var i :| 0 <= i <= |s| - |mid| && OccursAt(s, mid, i);
    var j :| 0 <= j <= |mid| - |pat| && OccursAt(mid, pat, j);
    assert forall k | 0 <= k < |pat| :: pat[k] == mid[j + k] == s[i + j + k];
    assert forall k | 0 <= k < |pat| :: s[i + j..i + j + |pat|][k] == pat[k];
    assert OccursAt(s, pat, i + j);
  }

  /** Is `c` a Unicode scalar outside the Basic Multilingual Plane? */
  predicate IsAstral(c: char)
  {
    c as int >= 0x1_0000
  }

  /**
   * The UTF-16 code units of `s`: one unit per BMP character and a
   * surrogate pair per astral character.
   */
  function Utf16(s: string): (r: seq<CodeUnit>)
    ensures |s| <= |r| <= 2 * |s|
    ensures (forall i | 0 <= i < |s| :: !IsAstral(s[i])) ==>
              |r| == |s| && forall i | 0 <= i < |s| :: r[i] == s[i] as int
  {
    if |s| == 0 then []
    else
      var c := s[0] as int;
      var head: seq<CodeUnit> :=
        if c < 0x1_0000 then [c]
        else [0xD800 + (c - 0x1_0000) / 0x400, 0xDC00 + (c - 0x1_0000) % 0x400];
      var tail := Utf16(s[1..]);
      assert forall i | 1 <= i < |s| :: s[1..][i - 1] == s[i];
      head + tail
  }
}
