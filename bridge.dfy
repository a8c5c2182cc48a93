/**
  A bridge descriptor built from the bridge's `/api/0/config` answer
  (src/bridge.rs, the `From` conversions): its id, hardware model, software
  version, address and whether that version is recent enough.
*/
module Bridges {
  import opened Wrappers
  import StrOrder

  /** `VERSION_MIN`: the oldest supported software version, compared as a string. */
  const VersionMin: string := "1948086000"

  newtype u8 = x: int | 0 <= x < 256

  datatype Ipv4Addr = Ipv4Addr(a: u8, b: u8, c: u8, d: u8)

  datatype Model = BSB001 | BSB002 | Unknown

  /** The bridge's configuration record (src/models/config.rs). */
  datatype Config = Config(
    name: string,
    datastoreversion: string,
    swversion: string,
    apiversion: string,
    mac: string,
    bridgeid: string,
    factorynew: bool,
    replacesbridgeid: Option<string>,
    modelid: string,
    starterkitid: Option<string>)

  datatype Bridge = Bridge(id: string, model: Model, version: string, address: Ipv4Addr, supported: bool)

  /** `impl From<&String> for Model`: exact, case-sensitive match; every other id is `Unknown`. */
  function ModelFrom(value: string): (m: Model)
    ensures m == BSB001 <==> value == "BSB001"
    ensures m == BSB002 <==> value == "BSB002"
    ensures m == Unknown <==> value != "BSB001" && value != "BSB002"
  {
    match value
    case "BSB001" => BSB001
    case "BSB002" => BSB002
    case _ => Unknown
  }

  /** `swversion >= VERSION_MIN`, in Rust's string order: equal to it, or above it. */
  predicate Supported(version: string)
    ensures Supported(version) <==> version == VersionMin || StrOrder.Less(VersionMin, version)
  {
    StrOrder.LessTotal(version, VersionMin);
    if StrOrder.Less(version, VersionMin) then
      StrOrder.LessIrreflexive(version);
      StrOrder.LessAsymmetric(version, VersionMin);
      false
    else
      true
  }

  /** `impl From<(Ipv4Addr, Config)> for Bridge`. */
  function FromConfig(ip: Ipv4Addr, config: Config): (b: Bridge)
    ensures b.id == config.bridgeid && b.version == config.swversion && b.address == ip
    ensures b.model == ModelFrom(config.modelid)
    ensures b.supported <==> !StrOrder.Less(config.swversion, VersionMin)
  {
    Bridge(
      id := config.bridgeid,
      model := ModelFrom(config.modelid),
      version := config.swversion,
      address := ip,
      supported := Supported(config.swversion))
  }

  /** Only the address, `bridgeid`, `modelid` and `swversion` reach the descriptor. */
  lemma FromConfigDependsOnly(ip: Ipv4Addr, c1: Config, c2: Config)
    requires c1.bridgeid == c2.bridgeid && c1.modelid == c2.modelid && c1.swversion == c2.swversion
    ensures FromConfig(ip, c1) == FromConfig(ip, c2)
  {
  }

  /** `model` is decided by `modelid` alone, `supported` by `swversion` alone. */
  lemma ModelAndSupportSeparate(ip1: Ipv4Addr, ip2: Ipv4Addr, c1: Config, c2: Config)
    ensures c1.modelid == c2.modelid ==> FromConfig(ip1, c1).model == FromConfig(ip2, c2).model
    ensures c1.swversion == c2.swversion ==> FromConfig(ip1, c1).supported == FromConfig(ip2, c2).supported
  {
  }

  /** Model ids are matched case-sensitively: lower case and the empty id are unknown. */
  lemma ModelFromExamples()
    ensures ModelFrom("BSB001") == BSB001 && ModelFrom("BSB002") == BSB002
    ensures ModelFrom("bsb002") == Unknown && ModelFrom("") == Unknown
  {
  }

  /** Every version at or above a supported one in string order is supported too. */
  lemma SupportedUpwardClosed(v: string, w: string)
    requires Supported(v) && !StrOrder.Less(w, v)
    ensures Supported(w)
  {
    StrOrder.LessTotal(w, VersionMin);
    if StrOrder.Less(w, VersionMin) {
      StrOrder.LessTotal(v, w);
      if v != w {
        StrOrder.LessTransitive(v, w, VersionMin);
      }
    }
  }

  /**
    For ten-digit versions, the length of `VersionMin`, the string comparison
    is the numeric one.
  */
  lemma SupportedTenDigits(version: string)
    requires |version| == |VersionMin| && StrOrder.IsDigits(version)
    ensures Supported(version) <==> StrOrder.Value(version) >= 1948086000
  {
    VersionMinValue();
    StrOrder.DigitsOrder(version, VersionMin);
    assert Supported(version) <==> !StrOrder.Less(version, VersionMin);
  }

  /** `VersionMin` is a ten-digit decimal string denoting 1948086000. */
  lemma VersionMinValue()
    ensures |VersionMin| == 10 && StrOrder.IsDigits(VersionMin)
    ensures StrOrder.Value(VersionMin) == 1948086000
  {
  }

  /**
    For versions of other lengths the comparison is not numeric: 999 is
    accepted and 10000000000 is refused, although numerically the first is
    below 1948086000 and the second above it.
  */
  lemma SupportedNotNumeric()
    ensures Supported("999") && !Supported("10000000000")
  {
    StrOrder.LessAtFirstDifference(VersionMin, "999", 0);
    StrOrder.LessAtFirstDifference("10000000000", VersionMin, 1);
    StrOrder.LessAsymmetric("10000000000", VersionMin);
  }

  /** `VersionMin` itself is supported and the version just below it is not. */
  lemma SupportedBoundary()
    ensures Supported("1948086000") && !Supported("1948085999")
  {
    StrOrder.LessAtFirstDifference("1948085999", VersionMin, 6);
    StrOrder.LessAsymmetric("1948085999", VersionMin);
  }
}
