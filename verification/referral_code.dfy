/**
 * Referral codes: six symbols drawn from a 32-character alphabet with the
 * look-alike characters I, O, 0 and 1 removed. The random index choices are
 * an input instead of calls to `Math.random`.
 */
module ReferralCode {
  import opened Wrappers

  const Alphabet: string := "ABCDEFGHJKLMNPQRSTUVWXYZ23456789"
  const CodeLength: nat := 6

  /** An index `Math.floor(Math.random() * 32)` can produce. */
  type Pick = i: int | 0 <= i < 32

  /** The six index choices of one candidate code. */
  type Draw = d: seq<Pick> | |d| == 6 witness [0, 0, 0, 0, 0, 0]

  /**
   * The position of `c` in the alphabet, computed from character ranges:
   * A-H, J-N, P-Z, then 2-9.
   */
  function AlphabetIndex(c: char): (r: Option<Pick>)
  {
    if 'A' <= c <= 'H' then Some(c as int - 'A' as int)
    else if 'J' <= c <= 'N' then Some(c as int - 'A' as int - 1)
    else if 'P' <= c <= 'Z' then Some(c as int - 'A' as int - 2)
    else if '2' <= c <= '9' then Some(c as int - '2' as int + 24)
    else None
  }

  /** The symbol at index `i`, by the same character ranges. */
  function AlphabetChar(i: Pick): char
  {
    if i < 8 then ('A' as int + i) as char
    else if i < 13 then ('A' as int + i + 1) as char
    else if i < 24 then ('A' as int + i + 2) as char
    else ('2' as int + i - 24) as char
  }

  /** The literal alphabet is the range-built one, symbol by symbol. */
  lemma AlphabetByRanges()
    ensures |Alphabet| == 32
    ensures forall i: Pick :: Alphabet[i] == AlphabetChar(i)
  {
  }

  /** AlphabetIndex and the alphabet are inverse. */
  lemma AlphabetIndexInverts()
    ensures |Alphabet| == 32
    ensures forall i: Pick :: AlphabetIndex(Alphabet[i]) == Some(i)
    ensures forall c: char :: AlphabetIndex(c).Some? ==> Alphabet[AlphabetIndex(c).value] == c
  {
    AlphabetByRanges();
    forall i: Pick ensures AlphabetIndex(Alphabet[i]) == Some(i) {
      CharIndexRoundTrip(i);
    }
    forall c: char | AlphabetIndex(c).Some? ensures Alphabet[AlphabetIndex(c).value] == c {
      IndexCharRoundTrip(c);
    }
  }

  lemma CharIndexRoundTrip(i: Pick)
    ensures AlphabetIndex(AlphabetChar(i)) == Some(i)
  {
  }

  lemma IndexCharRoundTrip(c: char)
    requires AlphabetIndex(c).Some?
    ensures AlphabetChar(AlphabetIndex(c).value) == c
  {
  }

  /** The alphabet has no two equal symbols and none of I, O, 0, 1. */
  lemma AlphabetUnambiguous()
    ensures forall i: Pick, j: Pick :: i != j ==> Alphabet[i] != Alphabet[j]
    ensures forall i: Pick :: Alphabet[i] !in "IO01"
  {
    AlphabetIndexInverts();
    forall i: Pick ensures Alphabet[i] !in "IO01" {
      var c := Alphabet[i];
      assert AlphabetIndex(c).Some?;
      assert c != 'I' && c != 'O' && c != '0' && c != '1';
    }
  }

  /** A string of the shape a generated code has. */
  predicate IsCodeShaped(s: string)
  {
    |s| == CodeLength && forall i | 0 <= i < |s| :: s[i] in Alphabet
  }

  /** The inner loop of `generateUniqueReferralCode`: `code += chars.charAt(pick)`, six times. */
  function CodeOf(d: Draw): string
  {
    seq(6, i requires 0 <= i < 6 => Alphabet[d[i]])
  }

  /** Every candidate code has six symbols, all from the alphabet, none of them I, O, 0 or 1. */
  lemma CodeOfShape(d: Draw)
    ensures IsCodeShaped(CodeOf(d))
    ensures forall i | 0 <= i < |CodeOf(d)| :: CodeOf(d)[i] !in "IO01"
  {
    AlphabetUnambiguous();
  }

  /** Recovers the draw behind a code-shaped string. */
  function DrawOf(s: string): (r: Option<Draw>)
  {
    if |s| == 6 && forall i | 0 <= i < 6 :: AlphabetIndex(s[i]).Some? then
      Some(seq(6, i requires 0 <= i < 6 => AlphabetIndex(s[i]).value))
    else None
  }

  /** Each draw yields one code, and the draw can be read back from it. */
  lemma {:induction false} DrawRoundTrip(d: Draw)
    ensures DrawOf(CodeOf(d)) == Some(d)
  {
    AlphabetIndexInverts();
    var code := CodeOf(d);
    assert forall i | 0 <= i < 6 :: AlphabetIndex(code[i]) == Some(d[i]);
    var back: seq<Pick> := seq(6, i requires 0 <= i < 6 => AlphabetIndex(code[i]).value);
    assert back == d;
  }

  /** A string is some draw's code exactly when it is code-shaped. */
  lemma {:induction false} CodeShapedIffDrawn(s: string)
    ensures IsCodeShaped(s) <==> DrawOf(s).Some?
    ensures DrawOf(s).Some? ==> CodeOf(DrawOf(s).value) == s
  {
    AlphabetIndexInverts();
    if IsCodeShaped(s) {
      forall i | 0 <= i < 6 ensures AlphabetIndex(s[i]).Some? {
        var k :| 0 <= k < |Alphabet| && Alphabet[k] == s[i];
        assert AlphabetIndex(Alphabet[k]) == Some(k);
      }
    }
    if DrawOf(s).Some? {
      var code := CodeOf(DrawOf(s).value);
      assert forall i | 0 <= i < 6 :: code[i] == Alphabet[AlphabetIndex(s[i]).value] == s[i];
    }
  }

  /** Different draws give different codes: the 32^6 draws are all distinct codes. */
  lemma {:induction false} CodeOfInjective(d1: Draw, d2: Draw)
    ensures CodeOf(d1) == CodeOf(d2) ==> d1 == d2
  {
    DrawRoundTrip(d1);
    DrawRoundTrip(d2);
  }
}
