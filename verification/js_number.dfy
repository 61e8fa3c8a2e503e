/**
 * The pieces of JavaScript Number semantics that `simpleHash` relies on, for
 * integral values: ToInt32 (section 7.1.6 of ECMA-262), the `<<` and `&`
 * operators that apply it, `Math.abs`, and `Number.prototype.toString(36)`
 * (section 21.1.3.6 of ECMA-262). Every value involved is an integer below
 * 2^53 in magnitude, so the IEEE doubles are exact and are modelled as `int`.
 */
module JsNumber {

  const TwoTo31: int := 0x8000_0000
  const TwoTo32: int := 0x1_0000_0000

  predicate IsInt32(x: int)
  {
    -TwoTo31 <= x < TwoTo31
  }

  /**
   * ToInt32: the unique signed 32-bit integer congruent to `x` modulo 2^32.
   */
  function ToInt32(x: int): (r: int)
    ensures IsInt32(r)
    ensures (x - r) % TwoTo32 == 0
  {
    var m := x % TwoTo32;
    if m >= TwoTo31 then m - TwoTo32 else m
  }

  /** The two facts of ToInt32's contract pin its result down. */
  lemma ToInt32Unique(x: int, r: int)
    requires IsInt32(r) && (x - r) % TwoTo32 == 0
    ensures ToInt32(x) == r
  {
  }

  /** `x` and ToInt32(x) differ by a multiple of 2^32. */
  lemma ToInt32Quotient(x: int) returns (q: int)
    ensures x - ToInt32(x) == TwoTo32 * q
  {
    q := (x - ToInt32(x)) / TwoTo32;
  }

  /** Values a multiple of 2^32 apart have the same ToInt32. */
  lemma ToInt32OfMultiple(x: int, y: int, q: int)
    requires x - y == TwoTo32 * q
    ensures ToInt32(x) == ToInt32(y)
  {
  }

  function Pow2(n: nat): (r: nat)
    ensures r >= 1
  {
    if n == 0 then 1 else 2 * Pow2(n - 1)
  }

  /** `x << n` on a Number: shift ToInt32(x) left by `n mod 32`, keep 32 bits, signed. */
  function LeftShift(x: int, n: nat): (r: int)
    ensures IsInt32(r)
  {
    ToInt32(ToInt32(x) * Pow2(n % 32))
  }

  /** The low `n` bits of `a` and `b` and-ed together, as a number. */
  function AndLowBits(a: nat, b: nat, n: nat): (r: nat)
    ensures r < Pow2(n)
  {
    if n == 0 then 0
    else 2 * AndLowBits(a / 2, b / 2, n - 1) + (if a % 2 == 1 && b % 2 == 1 then 1 else 0)
  }

  /** `a & b` on Numbers: bitwise and of the two ToInt32 bit patterns, read back signed. */
  function BitAnd(a: int, b: int): (r: int)
    ensures IsInt32(r)
  {
    ToInt32(AndLowBits(a % TwoTo32, b % TwoTo32, 32))
  }

  lemma MulAtLeast(d: int, t: int)
    requires d > 0 && t >= 1
    ensures d * t >= d
  {
  }

  /** Euclidean remainder is determined by any quotient/remainder split. */
  lemma {:induction false} ModUnique(u: int, d: int, k: int, m: int)
    requires d > 0 && u == d * k + m && 0 <= m < d
    ensures u % d == m
  {
    var q0, r0 := u / d, u % d;
    assert u == d * q0 + r0 && 0 <= r0 < d;
    var t := k - q0;
    assert d * t == d * k - d * q0;
    assert d * t == r0 - m;
    if t >= 1 {
      MulAtLeast(d, t);
    } else if t <= -1 {
      MulAtLeast(d, -t);
    }
  }

  lemma {:induction false} ModDouble(u: nat, p: nat)
    requires p >= 1
    ensures u % (2 * p) == 2 * ((u / 2) % p) + u % 2
  {
    var q := u / 2;
    var k := q / p;
    var r := q % p;
    assert u == 2 * q + u % 2;
    assert q == p * k + r;
    assert u == (2 * p) * k + (2 * r + u % 2);
    ModUnique(u, 2 * p, k, 2 * r + u % 2);
  }

  /** And-ing a number with itself keeps its low `n` bits. */
  lemma {:induction false} AndSelf(u: nat, n: nat)
    ensures AndLowBits(u, u, n) == u % Pow2(n)
  {
    if n > 0 {
      AndSelf(u / 2, n - 1);
      ModDouble(u, Pow2(n - 1));
    }
  }

  /** `x & x` is ToInt32(x): the idiom `hash &= hash` only truncates to 32 bits. */
  lemma {:induction false} SelfAndIsToInt32(x: int)
    ensures BitAnd(x, x) == ToInt32(x)
  {
    var u := x % TwoTo32;
    AndSelfWord(u);
    assert u - x == TwoTo32 * -(x / TwoTo32);
    ToInt32OfMultiple(u, x, -(x / TwoTo32));
  }

  lemma {:induction false} AndSelfWord(u: nat)
    requires u < TwoTo32
    ensures AndLowBits(u, u, 32) == u
  {
    Pow2Value32();
    AndSelf(u, 32);
  }

  lemma Pow2Value32()
    ensures Pow2(32) == TwoTo32
  {
    assert Pow2(5) == 32;
    assert Pow2(10) == 1024;
    assert Pow2(20) == 1024 * 1024;
    assert Pow2(30) == 1024 * 1024 * 1024;
  }

  /** `Math.abs` on an integral Number. */
  function Abs(x: int): (r: nat)
    ensures r == x || r == -x
    ensures IsInt32(x) ==> r <= TwoTo31
  {
    if x < 0 then -x else x
  }

  // ---------------------------------------------------------------------------
  // Base-36 rendering
  // ---------------------------------------------------------------------------

  /** A digit of `toString(36)`: 0-9 then lower-case a-z. */
  predicate IsRadix36Digit(c: char)
  {
    '0' <= c <= '9' || 'a' <= c <= 'z'
  }

  /** The character for digit value `d`. */
  function DigitChar(d: int): (c: char)
    requires 0 <= d < 36
    ensures IsRadix36Digit(c)
    ensures DigitValue(c) == d
  {
    if d < 10 then ('0' as int + d) as char else ('a' as int + d - 10) as char
  }

  /** The value of a digit character. */
  function DigitValue(c: char): (d: int)
    requires IsRadix36Digit(c)
    ensures 0 <= d < 36
  {
    if '0' <= c <= '9' then c as int - '0' as int else c as int - 'a' as int + 10
  }

  lemma DigitCharValue(c: char)
    requires IsRadix36Digit(c)
    ensures DigitChar(DigitValue(c)) == c
  {
  }

  predicate AllRadix36Digits(s: string)
  {
    forall i | 0 <= i < |s| :: IsRadix36Digit(s[i])
  }

  /** The shortest rendering: non-empty, and no leading zero unless it is "0". */
  predicate IsCanonicalRadix36(s: string)
  {
    |s| >= 1 && AllRadix36Digits(s) && (s[0] == '0' ==> |s| == 1)
  }

  /** The number a string of base-36 digits denotes, most significant first. */
  function ParseRadix36(s: string): nat
    requires AllRadix36Digits(s)
  {
    if |s| == 0 then 0
    else 36 * ParseRadix36(s[..|s| - 1]) + DigitValue(s[|s| - 1])
  }

  /**
   * `n.toString(36)` for a non-negative integer: lower-case digits, most
   * significant first, no leading zeros; zero renders as "0".
   */
  function ToRadix36(n: nat): (r: string)
    ensures IsCanonicalRadix36(r)
    ensures ParseRadix36(r) == n
    ensures n < 36 <==> |r| == 1
  {
    if n < 36 then [DigitChar(n)]
    else
      var prefix := ToRadix36(n / 36);
      var r := prefix + [DigitChar(n % 36)];
      assert r[..|r| - 1] == prefix;
      r
  }

  lemma {:induction false} ParsePrefixBound(s: string)
    requires IsCanonicalRadix36(s) && s[0] != '0'
    ensures ParseRadix36(s) >= 1
    decreases |s|
  {
    if |s| > 1 {
      var p := s[..|s| - 1];
      assert p[0] == s[0];
      ParsePrefixBound(p);
    }
  }

  /** Every canonical string is the rendering of the number it denotes. */
  lemma {:induction false} Radix36RoundTrip(s: string)
    requires IsCanonicalRadix36(s)
    ensures ToRadix36(ParseRadix36(s)) == s
    decreases |s|
  {
    if |s| == 1 {
      DigitCharValue(s[0]);
      assert ToRadix36(ParseRadix36(s)) == [s[0]];
    } else {
      var p := s[..|s| - 1];
      var d := DigitValue(s[|s| - 1]);
      assert p[0] == s[0];
      ParsePrefixBound(p);
      var n := ParseRadix36(s);
      assert n == 36 * ParseRadix36(p) + d;
      assert n / 36 == ParseRadix36(p) && n % 36 == d;
      Radix36RoundTrip(p);
      DigitCharValue(s[|s| - 1]);
      assert s == p + [s[|s| - 1]];
    }
  }
}
