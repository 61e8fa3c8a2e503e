/**
 * User-agent classification (browser, operating system, device class), each
 * a first-match scan over a fixed precedence of substring tests. The UA
 * string is a parameter instead of `navigator.userAgent`.
 */
module UserAgent {
  import opened Text

  datatype Browser = Edge | Chrome | Firefox | Safari | Other {
    /** The label the page records. */
    function Name(): string {
      match this
      case Edge => "Edge"
      case Chrome => "Chrome"
      case Firefox => "Firefox"
      case Safari => "Safari"
      case Other => "Other"
    }
  }

  datatype Os = Windows | Mac | Linux | Android | IOS | Other {
    function Name(): string {
      match this
      case Windows => "Windows"
      case Mac => "Mac"
      case Linux => "Linux"
      case Android => "Android"
      case IOS => "iOS"
      case Other => "Other"
    }
  }

  datatype DeviceType = Mobile | Tablet | Desktop {
    function Name(): string {
      match this
      case Mobile => "mobile"
      case Tablet => "tablet"
      case Desktop => "desktop"
    }
  }

  // ---------------------------------------------------------------------------
  // Reference semantics: a precedence table read top to bottom
  // ---------------------------------------------------------------------------

  /** One row of a precedence table: the label given when any pattern occurs. */
  datatype Rule<L> = Rule(patterns: seq<string>, outcome: L)

  predicate Fires<L>(rule: Rule<L>, ua: string, ignoreCase: bool)
  {
    ContainsAny(ua, rule.patterns, ignoreCase)
  }

  /**
   * The label of the first rule that fires, or `otherwise` when none does.
   * The contract is the declarative reading: the earliest firing rule wins.
   */
  function Classify<L>(rules: seq<Rule<L>>, ua: string, ignoreCase: bool, otherwise: L): (r: L)
    ensures forall k | 0 <= k < |rules| ::
              (Fires(rules[k], ua, ignoreCase) &&
               forall j | 0 <= j < k :: !Fires(rules[j], ua, ignoreCase)) ==> r == rules[k].outcome
    ensures (forall k | 0 <= k < |rules| :: !Fires(rules[k], ua, ignoreCase)) ==> r == otherwise
  {
    if |rules| == 0 then otherwise
    else if Fires(rules[0], ua, ignoreCase) then rules[0].outcome
    else
      var r := Classify(rules[1..], ua, ignoreCase, otherwise);
      assert forall k | 1 <= k < |rules| :: rules[1..][k - 1] == rules[k];
      r
  }

  const BrowserRules: seq<Rule<Browser>> := [
    Rule(["Edg"], Edge),
    Rule(["Chrome"], Chrome),
    Rule(["Firefox"], Firefox),
    Rule(["Safari"], Safari)
  ]

  const OsRules: seq<Rule<Os>> := [
    Rule(["Windows"], Windows),
    Rule(["Mac"], Mac),
    Rule(["Linux"], Linux),
    Rule(["Android"], Android),
    Rule(["iPad", "iPhone", "iPod"], IOS)
  ]

  const DeviceRules: seq<Rule<DeviceType>> := [
    Rule(["Mobile", "Android", "iPhone"], Mobile),
    Rule(["iPad", "Tablet"], Tablet)
  ]

  // ---------------------------------------------------------------------------
  // The classifiers as the page writes them
  // ---------------------------------------------------------------------------

  /** `getBrowser`: Edge, Chrome, Firefox, Safari by first substring hit. */
  function GetBrowser(ua: string): Browser
  {
    if Contains(ua, "Edg") then Edge
    else if Contains(ua, "Chrome") then Chrome
    else if Contains(ua, "Firefox") then Firefox
    else if Contains(ua, "Safari") then Safari
    else Browser.Other
  }

  /** `getOS`: Windows, Mac, Linux, Android by substring, then `/iPad|iPhone|iPod/`. */
  function GetOs(ua: string): Os
  {
    if Contains(ua, "Windows") then Windows
    else if Contains(ua, "Mac") then Mac
    else if Contains(ua, "Linux") then Linux
    else if Contains(ua, "Android") then Android
    else if ContainsAny(ua, ["iPad", "iPhone", "iPod"], false) then IOS
    else Os.Other
  }

  /** `getDeviceType`: `/Mobile|Android|iPhone/i`, then `/iPad|Tablet/i`. */
  function GetDeviceType(ua: string): DeviceType
  {
    if ContainsAny(ua, ["Mobile", "Android", "iPhone"], true) then Mobile
    else if ContainsAny(ua, ["iPad", "Tablet"], true) then Tablet
    else Desktop
  }

  // ---------------------------------------------------------------------------
  // The classifiers follow their precedence tables
  // ---------------------------------------------------------------------------

  lemma {:induction false} GetBrowserFollowsPrecedence(ua: string)
    ensures GetBrowser(ua) == Classify(BrowserRules, ua, false, Browser.Other)
  {
    ContainsAnyOne(ua, "Edg", false);
    ContainsAnyOne(ua, "Chrome", false);
    ContainsAnyOne(ua, "Firefox", false);
    ContainsAnyOne(ua, "Safari", false);
    assert BrowserRules[0].patterns == ["Edg"];
    assert BrowserRules[1].patterns == ["Chrome"];
    assert BrowserRules[2].patterns == ["Firefox"];
    assert BrowserRules[3].patterns == ["Safari"];
  }

  lemma {:induction false} GetOsFollowsPrecedence(ua: string)
    ensures GetOs(ua) == Classify(OsRules, ua, false, Os.Other)
  {
    ContainsAnyOne(ua, "Windows", false);
    ContainsAnyOne(ua, "Mac", false);
    ContainsAnyOne(ua, "Linux", false);
    ContainsAnyOne(ua, "Android", false);
    assert OsRules[0].patterns == ["Windows"];
    assert OsRules[1].patterns == ["Mac"];
    assert OsRules[2].patterns == ["Linux"];
    assert OsRules[3].patterns == ["Android"];
    assert OsRules[4].patterns == ["iPad", "iPhone", "iPod"];
    assert OsRules[1..][1..][1..][1..] == [OsRules[4]];
  }

  lemma {:induction false} GetDeviceTypeFollowsPrecedence(ua: string)
    ensures GetDeviceType(ua) == Classify(DeviceRules, ua, true, Desktop)
  {
    assert DeviceRules[0].patterns == ["Mobile", "Android", "iPhone"];
    assert DeviceRules[1].patterns == ["iPad", "Tablet"];
  }

  // ---------------------------------------------------------------------------
  // Consequences of the precedence order
  // ---------------------------------------------------------------------------

  /** A UA naming both Edge ("Edg") and Chrome is Edge; Chrome needs "Edg" absent. */
  lemma EdgeBeforeChrome(ua: string)
    ensures Contains(ua, "Edg") ==> GetBrowser(ua) == Edge
    ensures GetBrowser(ua) == Chrome <==> !Contains(ua, "Edg") && Contains(ua, "Chrome")
  {
  }

  /**
   * "iOS" is reported exactly when none of Windows, Mac, Linux, Android
   * occurs and one of iPad, iPhone, iPod does; a UA naming Linux is never
   * reported as Android or iOS.
   */
  lemma IosOnlyAfterDesktopNames(ua: string)
    ensures GetOs(ua) == IOS <==>
              !Contains(ua, "Windows") && !Contains(ua, "Mac") && !Contains(ua, "Linux") &&
              !Contains(ua, "Android") &&
              (Contains(ua, "iPad") || Contains(ua, "iPhone") || Contains(ua, "iPod"))
    ensures Contains(ua, "Linux") ==> GetOs(ua) in {Windows, Mac, Linux}
  {
    var pats := ["iPad", "iPhone", "iPod"];
    assert pats[0] == "iPad" && pats[1] == "iPhone" && pats[2] == "iPod";
  }

  /**
   * A UA that matches Mobile, Android or iPhone in any case is "mobile",
   * whatever tablet marker it also carries; "tablet" needs none of them.
   */
  lemma MobileBeforeTablet(ua: string)
    ensures GetDeviceType(ua) == Mobile <==>
              ContainsIgnoringCase(ua, "Mobile") || ContainsIgnoringCase(ua, "Android") ||
              ContainsIgnoringCase(ua, "iPhone")
    ensures GetDeviceType(ua) == Tablet <==>
              !ContainsIgnoringCase(ua, "Mobile") && !ContainsIgnoringCase(ua, "Android") &&
              !ContainsIgnoringCase(ua, "iPhone") &&
              (ContainsIgnoringCase(ua, "iPad") || ContainsIgnoringCase(ua, "Tablet"))
  {
    var mobile := ["Mobile", "Android", "iPhone"];
    var tablet := ["iPad", "Tablet"];
    assert mobile[0] == "Mobile" && mobile[1] == "Android" && mobile[2] == "iPhone";
    assert tablet[0] == "iPad" && tablet[1] == "Tablet";
  }

  /**
   * Apple's mobile UAs say "like Mac OS X", so they are classified by the
   * "Mac" (or an earlier "Windows") test and never reach the iOS test.
   */
  lemma {:induction false} AppleMobileUaIsNotIos(ua: string)
    requires Contains(ua, "like Mac OS X")
    ensures GetOs(ua) == Windows || GetOs(ua) == Mac
  {
    assert OccursAt("like Mac OS X", "Mac", 5);
    ContainsTransitive(ua, "like Mac OS X", "Mac");
  }

  /**
   * A UA carrying "Linux; Android" is decided by the "Linux" test (or an
   * earlier one), so "Android" is never reported for it.
   */
  lemma {:induction false} AndroidUaIsNotAndroid(ua: string)
    requires Contains(ua, "Linux; Android")
    ensures GetOs(ua) in {Windows, Mac, Linux}
  {
    assert OccursAt("Linux; Android", "Linux", 0);
    ContainsTransitive(ua, "Linux; Android", "Linux");
  }
}
