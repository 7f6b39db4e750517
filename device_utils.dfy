/**
 * Device identity on the client (app/lib/deviceUtils.ts): a 32-bit string
 * hash of a browser fingerprint rendered in base 36 and kept in local
 * storage, and a device label chosen from the user agent.
 */
module DeviceUtils {
  import opened JsText

  // ---------------------------------------------------------------------
  // 32-bit integer arithmetic of JavaScript
  // ---------------------------------------------------------------------

  const TwoTo31: int := 0x8000_0000
  const TwoTo32: int := 0x1_0000_0000

  /** One UTF-16 code unit, what `charCodeAt` returns. */
  type CodeUnit = c: int | 0 <= c < 0x1_0000

  /** ToInt32 (section 7.1.6 of ECMA-262) on an integral number. */
  function ToInt32(x: int): (r: int)
    ensures -TwoTo31 <= r < TwoTo31
    ensures (x - r) % TwoTo32 == 0
  {
    var m := x % TwoTo32;
    if m >= TwoTo31 then m - TwoTo32 else m
  }

  /** Numbers that agree modulo 2^32 have the same ToInt32. */
  lemma ToInt32Congruent(a: int, b: int)
    requires (a - b) % TwoTo32 == 0
    ensures ToInt32(a) == ToInt32(b)
  {
    var q := (a - b) / TwoTo32;
    assert a == b + q * TwoTo32;
    ModMultiple(b, q);
  }

  lemma ModMultiple(b: int, q: int)
    ensures (b + q * TwoTo32) % TwoTo32 == b % TwoTo32
  {
  }

  /** ToInt32 leaves a value that already is a 32-bit integer as it is. */
  lemma ToInt32OfInt32(x: int)
    requires -TwoTo31 <= x < TwoTo31
    ensures ToInt32(x) == x
  {
  }

  /** `x << 5`: ToInt32 of the operand, shifted, and read back as a 32-bit integer. */
  function ShiftLeft5(x: int): int
  {
    ToInt32(ToInt32(x) * 32)
  }

  /**
   * One iteration of the hash loop: `hash = ((hash << 5) - hash) + char`
   * in double arithmetic (exact at these magnitudes), then `hash = hash & hash`,
   * which is ToInt32 of its operand.
   */
  function HashStep(hash: int, c: CodeUnit): int
  {
    ToInt32(ShiftLeft5(hash) - hash + c)
  }

  /** Each step computes `ToInt32(31 * hash + c)` and stays a 32-bit integer. */
  lemma HashStepIsTimes31(hash: int, c: CodeUnit)
    requires -TwoTo31 <= hash < TwoTo31
    ensures HashStep(hash, c) == ToInt32(31 * hash + c)
    ensures -TwoTo31 <= HashStep(hash, c) < TwoTo31
  {
    ToInt32OfInt32(hash);
    var shifted := ShiftLeft5(hash);
    var d := shifted - 32 * hash;
    assert d % TwoTo32 == 0 by {
      assert (32 * hash - shifted) % TwoTo32 == 0;
      NegatedMultiple(32 * hash - shifted);
    }
    assert (shifted - hash + c) - (31 * hash + c) == d;
    ToInt32Congruent(shifted - hash + c, 31 * hash + c);
  }

  lemma NegatedMultiple(x: int)
    requires x % TwoTo32 == 0
    ensures (-x) % TwoTo32 == 0
  {
    var q := x / TwoTo32;
    assert x == q * TwoTo32;
    assert -x == (-q) * TwoTo32;
  }

  /** The hash of a string: the loop's accumulator after every code unit, from 0. */
  function HashOf(s: seq<CodeUnit>): (h: int)
    ensures -TwoTo31 <= h < TwoTo31
  {
    if s == [] then 0 else HashStep(HashOf(s[..|s| - 1]), s[|s| - 1])
  }

  /** The hash is the 32-bit wrap-around of the polynomial `31 * hash + c` folded over the string. */
  lemma {:induction false} HashOfUnfolds(s: seq<CodeUnit>, c: CodeUnit)
    ensures HashOf(s + [c]) == ToInt32(31 * HashOf(s) + c)
  {
    assert (s + [c])[..|s|] == s;
    HashStepIsTimes31(HashOf(s), c);
  }

  function Abs(x: int): (r: nat)
    ensures r == x || r == -x
  {
    if x < 0 then -x else x
  }

  // ---------------------------------------------------------------------
  // base 36, as Number.prototype.toString(36) writes a non-negative integer
  // ---------------------------------------------------------------------

  predicate IsBase36Char(c: char)
  {
    '0' <= c <= '9' || 'a' <= c <= 'z'
  }

  function Digit36(d: nat): (c: char)
    requires d < 36
    ensures IsBase36Char(c)
  {
    if d < 10 then ('0' as int + d) as char else ('a' as int + d - 10) as char
  }

  function DigitValue36(c: char): (d: nat)
  {
    if '0' <= c <= '9' then c as int - '0' as int
    else if 'a' <= c <= 'z' then c as int - 'a' as int + 10
    else 0
  }

  /** Reads a base-36 numeral back. */
  function FromBase36(s: string): nat
  {
    if s == [] then 0 else FromBase36(s[..|s| - 1]) * 36 + DigitValue36(s[|s| - 1])
  }

  function ToBase36(n: nat): (r: string)
    ensures r != []
    ensures forall i :: 0 <= i < |r| ==> IsBase36Char(r[i])
    ensures r[0] != '0' || n == 0
  {
    if n < 36 then [Digit36(n)] else ToBase36(n / 36) + [Digit36(n % 36)]
  }

  /** Writing in base 36 and reading back gives the number again. */
  lemma {:induction false} Base36RoundTrip(n: nat)
    ensures FromBase36(ToBase36(n)) == n
  {
    var r := ToBase36(n);
    if n < 36 {
      assert r[..0] == [];
    } else {
      assert r[..|r| - 1] == ToBase36(n / 36);
      Base36RoundTrip(n / 36);
    }
  }

  /**
   * The device id of a fingerprint: `Math.abs(hash).toString(36)`. It is a
   * non-empty numeral of `[0-9a-z]` without a leading zero, and it reads
   * back as the absolute value of the hash, at most 2^31.
   */
  function DeviceIdOf(fingerprint: seq<CodeUnit>): (id: string)
    ensures id != []
    ensures forall i :: 0 <= i < |id| ==> IsBase36Char(id[i])
    ensures FromBase36(id) == Abs(HashOf(fingerprint))
    ensures FromBase36(id) <= TwoTo31
  {
    Base36RoundTrip(Abs(HashOf(fingerprint)));
    ToBase36(Abs(HashOf(fingerprint)))
  }

  // ---------------------------------------------------------------------
  // getDeviceName
  // ---------------------------------------------------------------------

  /** The mobile gate `/Mobile|Android|iPhone|iPad|iPod|BlackBerry|IEMobile|Opera Mini/i`. */
  predicate IsMobileAgent(userAgent: string)
  {
    || ContainsCI(userAgent, "mobile")
    || ContainsCI(userAgent, "android")
    || ContainsCI(userAgent, "iphone")
    || ContainsCI(userAgent, "ipad")
    || ContainsCI(userAgent, "ipod")
    || ContainsCI(userAgent, "blackberry")
    || ContainsCI(userAgent, "iemobile")
    || ContainsCI(userAgent, "opera mini")
  }

  const MobileLabels: set<string> := {"iPhone", "iPad", "Android Device", "Mobile Device"}
  const DesktopLabels: set<string> := {"Mac", "Windows PC", "Linux PC", "Desktop Browser"}

  function GetDeviceName(userAgent: string): (name: string)
    ensures name in MobileLabels + DesktopLabels
    ensures name in MobileLabels <==> IsMobileAgent(userAgent)
  {
    if IsMobileAgent(userAgent) then
      if ContainsCI(userAgent, "iphone") then "iPhone"
      else if ContainsCI(userAgent, "ipad") then "iPad"
      else if ContainsCI(userAgent, "android") then "Android Device"
      else "Mobile Device"
    else if ContainsCI(userAgent, "mac") then "Mac"
    else if ContainsCI(userAgent, "windows") then "Windows PC"
    else if ContainsCI(userAgent, "linux") then "Linux PC"
    else "Desktop Browser"
  }

  /** There are exactly eight labels. */
  lemma EightDeviceLabels()
    ensures |MobileLabels + DesktopLabels| == 8
  {
  }

  /** Every test is case-insensitive: folding the user agent to lower case changes nothing. */
  lemma DeviceNameIgnoresCase(userAgent: string)
    ensures GetDeviceName(LowerAscii(userAgent)) == GetDeviceName(userAgent)
  {
    LowerAsciiIdempotent(userAgent);
  }

  /**
   * The priorities: within the mobile gate iPhone beats iPad beats Android
   * beats the "Mobile Device" fallback; outside it Mac beats Windows beats
   * Linux beats the "Desktop Browser" fallback.
   */
  lemma DeviceNamePriorities(userAgent: string)
    ensures IsMobileAgent(userAgent) && ContainsCI(userAgent, "iphone") ==> GetDeviceName(userAgent) == "iPhone"
    ensures ContainsCI(userAgent, "ipad") && !ContainsCI(userAgent, "iphone") ==> GetDeviceName(userAgent) == "iPad"
    ensures ContainsCI(userAgent, "android") && !ContainsCI(userAgent, "iphone") && !ContainsCI(userAgent, "ipad") ==>
      GetDeviceName(userAgent) == "Android Device"
    ensures !IsMobileAgent(userAgent) && ContainsCI(userAgent, "mac") ==> GetDeviceName(userAgent) == "Mac"
    ensures !IsMobileAgent(userAgent) && !ContainsCI(userAgent, "mac") && ContainsCI(userAgent, "windows") ==>
      GetDeviceName(userAgent) == "Windows PC"
    ensures !IsMobileAgent(userAgent) && !ContainsCI(userAgent, "mac") && !ContainsCI(userAgent, "windows")
      && ContainsCI(userAgent, "linux")
      ==> GetDeviceName(userAgent) == "Linux PC"
    // the two fallbacks
    ensures IsMobileAgent(userAgent) && !ContainsCI(userAgent, "iphone") && !ContainsCI(userAgent, "ipad")
      && !ContainsCI(userAgent, "android")
      ==> GetDeviceName(userAgent) == "Mobile Device"
    ensures !IsMobileAgent(userAgent) && !ContainsCI(userAgent, "mac") && !ContainsCI(userAgent, "windows")
      && !ContainsCI(userAgent, "linux")
      ==> GetDeviceName(userAgent) == "Desktop Browser"
  {
  }

  /**
   * An agent whose lower-case form says "android" but lacks a letter of
   * "iphone" and one of "ipad" is an Android device, whatever else it says.
   */
  lemma AndroidAgent(userAgent: string, lower: string, k: nat, p: char, q: char)
    requires LowerAscii(userAgent) == lower
    requires OccursAt(lower, "android", k)
    requires p in "iphone" && p !in lower
    requires q in "ipad" && q !in lower
    ensures GetDeviceName(userAgent) == "Android Device"
  {
    OccursContains(lower, "android", k);
    NotContainsMissingChar(lower, "iphone", p);
    NotContainsMissingChar(lower, "ipad", q);
  }

  /** The mobile gate is tested first: an Android agent that also says Linux is an Android device. */
  lemma AndroidLinuxAgentIsAndroid()
    ensures GetDeviceName("Linux; Android") == "Android Device"
  {
    AndroidAgent("Linux; Android", "linux; android", 7, 'p', 'p');
  }

  // ---------------------------------------------------------------------
  // generateDeviceId and getDeviceInfo, against local storage
  // ---------------------------------------------------------------------

  datatype DeviceInfo = DeviceInfo(deviceId: string, deviceName: string)

  /** The browser's `localStorage`, reduced to its `deviceId` key. */
  class LocalStorage {
    var deviceId: Option<string>

    constructor ()
      ensures deviceId == None
    {
      deviceId := None;
    }

    /**
     * `generateDeviceId` given the joined fingerprint (which itself includes
     * the previously stored id, or a random string): the hash loop, the
     * base-36 rendering, and the write to storage of exactly the returned id.
     */
    method GenerateDeviceId(fingerprint: seq<CodeUnit>) returns (id: string)
      modifies this
      ensures id == DeviceIdOf(fingerprint)
      ensures deviceId == Some(id)
    {
      var hash := 0;
      for i := 0 to |fingerprint|
        invariant hash == HashOf(fingerprint[..i])
      {
        var ch := fingerprint[i];
        assert fingerprint[..i + 1][..i] == fingerprint[..i] && fingerprint[..i + 1][i] == ch;
        hash := ShiftLeft5(hash) - hash + ch;
        hash := ToInt32(hash);
        assert hash == HashStep(HashOf(fingerprint[..i]), ch);
      }
      assert fingerprint[..|fingerprint|] == fingerprint;
      id := ToBase36(Abs(hash));
      deviceId := Some(id);
    }

    /** `getDeviceInfo`: a fresh id for the fingerprint and the label for the user agent. */
    method GetDeviceInfo(fingerprint: seq<CodeUnit>, userAgent: string) returns (info: DeviceInfo)
      modifies this
      ensures info == DeviceInfo(DeviceIdOf(fingerprint), GetDeviceName(userAgent))
      ensures deviceId == Some(info.deviceId)
    {
      var id := GenerateDeviceId(fingerprint);
      info := DeviceInfo(id, GetDeviceName(userAgent));
    }
  }
}
