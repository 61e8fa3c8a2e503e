/**
 * The client fingerprint: UA-derived labels, the caller's IP and timezone,
 * and `simpleHash`, a 32-bit polynomial fold rendered in base 36.
 */
module Fingerprint {
  import opened Wrappers
  import opened Text
  import opened JsNumber
  import UserAgent

  // ---------------------------------------------------------------------------
  // simpleHash
  // ---------------------------------------------------------------------------

  /** One loop step: `hash = ((hash << 5) - hash) + char; hash = hash & hash`. */
  function HashStep(hash: int, c: CodeUnit): (h: int)
    ensures IsInt32(h)
  {
    var t := (LeftShift(hash, 5) - hash) + c;
    BitAnd(t, t)
  }

  /** The loop of `simpleHash` over the code units of `str`, starting from 0. */
  function HashFold(str: seq<CodeUnit>): (h: int)
    ensures IsInt32(h)
  {
    if |str| == 0 then 0 else HashStep(HashFold(str[..|str| - 1]), str[|str| - 1])
  }

  /** The polynomial hash `sum str[i] * 31^(n-1-i)`, unbounded. */
  function Polynomial(str: seq<CodeUnit>): int
  {
    if |str| == 0 then 0 else 31 * Polynomial(str[..|str| - 1]) + str[|str| - 1]
  }

  /** Each step is `h := ToInt32(31 * h + c)`. */
  lemma {:induction false} HashStepIsMultiplyAdd(hash: int, c: CodeUnit)
    ensures HashStep(hash, c) == ToInt32(31 * hash + c)
  {
    var s := ToInt32(hash);
    var q1 := ToInt32Quotient(hash);
    assert Pow2(5) == 32;
    var l := LeftShift(hash, 5);
    assert l == ToInt32(s * 32);
    var q2 := ToInt32Quotient(s * 32);
    var t := (l - hash) + c;
    assert (31 * hash + c) - t == TwoTo32 * (32 * q1 + q2);
    ToInt32OfMultiple(31 * hash + c, t, 32 * q1 + q2);
    SelfAndIsToInt32(t);
  }

  /** The folded value is the signed 32-bit reduction of the polynomial hash. */
  lemma {:induction false} HashFoldIsPolynomial(str: seq<CodeUnit>)
    ensures HashFold(str) == ToInt32(Polynomial(str))
    decreases |str|
  {
    if |str| > 0 {
      var p := str[..|str| - 1];
      var c := str[|str| - 1];
      var x := Polynomial(p);
      assert Polynomial(str) == 31 * x + c;
      HashFoldIsPolynomial(p);
      var h := HashFold(p);
      assert HashFold(str) == HashStep(h, c);
      HashStepIsMultiplyAdd(h, c);
      var q := ToInt32Quotient(x);
      assert x - h == TwoTo32 * q;
      assert (31 * x + c) - (31 * h + c) == TwoTo32 * (31 * q);
      ToInt32OfMultiple(31 * x + c, 31 * h + c, 31 * q);
    }
  }

  /**
   * `simpleHash(str)`: `Math.abs` of the fold, rendered by `toString(36)`.
   * The result is a non-empty base-36 string naming a value in [0, 2^31].
   */
  function SimpleHash(str: seq<CodeUnit>): (r: string)
    ensures IsCanonicalRadix36(r)
    ensures ParseRadix36(r) <= TwoTo31
    ensures ParseRadix36(r) == Abs(ToInt32(Polynomial(str)))
    ensures str == [] ==> r == "0"
  {
    HashFoldIsPolynomial(str);
    ToRadix36(Abs(HashFold(str)))
  }

  // ---------------------------------------------------------------------------
  // getQuickFingerprint, with the IP lookup and the timezone as inputs
  // ---------------------------------------------------------------------------

  datatype Fingerprint = Fingerprint(
    ip: Option<string>,
    timezone: string,
    browser: UserAgent.Browser,
    os: UserAgent.Os,
    deviceType: UserAgent.DeviceType,
    hash: string)

  /** Template-literal rendering of a possibly-null string. */
  function Render(v: Option<string>): string
  {
    match v
    case Some(s) => s
    case None => "null"
  }

  /** The string the fingerprint hashes: `${ip}-${timezone}-${browser}-${os}`. */
  function HashInput(ip: Option<string>, timezone: string, browser: UserAgent.Browser, os: UserAgent.Os): string
  {
    Render(ip) + "-" + timezone + "-" + browser.Name() + "-" + os.Name()
  }

  /**
   * `getQuickFingerprint`: `ip` is the IP lookup's answer (None when it
   * failed), `timezone` the resolved zone name and `ua` the user agent.
   */
  function QuickFingerprint(ip: Option<string>, timezone: string, ua: string): (fp: Fingerprint)
    ensures fp.ip == ip && fp.timezone == timezone
    ensures fp.browser == UserAgent.GetBrowser(ua) && fp.os == UserAgent.GetOs(ua)
    ensures fp.deviceType == UserAgent.GetDeviceType(ua)
    ensures IsCanonicalRadix36(fp.hash) && ParseRadix36(fp.hash) <= TwoTo31
    ensures ParseRadix36(fp.hash) == Abs(ToInt32(Polynomial(Utf16(HashInput(ip, timezone, fp.browser, fp.os)))))
  {
    var browser := UserAgent.GetBrowser(ua);
    var os := UserAgent.GetOs(ua);
    Fingerprint(ip, timezone, browser, os, UserAgent.GetDeviceType(ua),
                SimpleHash(Utf16(HashInput(ip, timezone, browser, os))))
  }

  /** The fingerprint hash depends on IP, timezone and UA only through the hashed string. */
  lemma SameHashInputSameHash(ip1: Option<string>, tz1: string, ua1: string,
                              ip2: Option<string>, tz2: string, ua2: string)
    requires HashInput(ip1, tz1, UserAgent.GetBrowser(ua1), UserAgent.GetOs(ua1)) ==
             HashInput(ip2, tz2, UserAgent.GetBrowser(ua2), UserAgent.GetOs(ua2))
    ensures QuickFingerprint(ip1, tz1, ua1).hash == QuickFingerprint(ip2, tz2, ua2).hash
  {
  }
}
