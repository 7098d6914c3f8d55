// Address-type heuristics and the advertising-based security summary
// (src/ble_security.rs).

module BleSecurity {
  import opened Common
  import MacAddressHandler

  datatype MacAddressType = Public | RandomStatic | RandomResolvable | RandomNonResolvable | Unknown

  datatype PairingMethod = JustWorks | PasskeyEntry | NumericComparison | Oob | NoPairing | UnknownPairing

  datatype SecurityLevel = Secured | Unsecured | Legacy | SecureConnections | UnknownLevel

  datatype SecurityInfo = SecurityInfo(
    macType: MacAddressType,
    isRpa: bool,
    macRandomization: bool,
    pairingMethod: PairingMethod,
    securityLevel: SecurityLevel,
    isConnectable: bool,
    requiresBonding: bool)

  /// The address text without separators, upper-cased.
  function CleanMac(mac: string): string
  {
    ToUpper(RemoveChar(RemoveChar(mac, ':'), '-'))
  }

  /// The subtype read off the first octet: the two top bits, and bit 1 when
  /// they are both clear.
  function TypeOfFirstByte(first: byte): MacAddressType
  {
    var top := first / 64;
    if top == 3 then RandomStatic
    else if top == 1 then RandomResolvable
    else if top == 0 then (if Bit(first, 1) then RandomNonResolvable else Public)
    else Unknown
  }

  /// `detect_mac_type`: twelve hex characters are required, and a first
  /// octet that does not parse counts as 0.
  function DetectMacType(mac: string): MacAddressType
  {
    var clean := CleanMac(mac);
    if |clean| != 12 then Unknown
    else
      var first := match ParseU8Hex(clean[0..2]) case Some(b) => b case None => 0;
      TypeOfFirstByte(first)
  }

  /// Each type corresponds to one bit pattern of the first octet.
  lemma TypeOfFirstByteMeaning(first: byte)
    ensures TypeOfFirstByte(first) == RandomStatic <==> first / 64 == 3
    ensures TypeOfFirstByte(first) == RandomResolvable <==> first / 64 == 1
    ensures TypeOfFirstByte(first) == RandomNonResolvable <==> first / 64 == 0 && Bit(first, 1)
    ensures TypeOfFirstByte(first) == Public <==> first / 64 == 0 && !Bit(first, 1)
    ensures TypeOfFirstByte(first) == Unknown <==> first / 64 == 2
  {
  }

  /// Any length other than twelve gives Unknown; a non-hex first octet gives
  /// Public.
  lemma DetectMacTypeFallbacks(mac: string)
    ensures |CleanMac(mac)| != 12 ==> DetectMacType(mac) == Unknown
    ensures |CleanMac(mac)| == 12 && ParseU8Hex(CleanMac(mac)[0..2]).None? ==> DetectMacType(mac) == Public
  {
    if |CleanMac(mac)| == 12 && ParseU8Hex(CleanMac(mac)[0..2]).None? {
      assert !Bit(0, 1);
    }
  }

  /// `is_rpa`
  predicate IsRpa(mac: string)
  {
    DetectMacType(mac) == RandomResolvable
  }

  /// `has_mac_randomization`
  predicate HasMacRandomization(mac: string)
  {
    DetectMacType(mac) in {RandomStatic, RandomResolvable, RandomNonResolvable}
  }

  /// A resolvable address is a randomised one; a public or unknown one is not.
  lemma RpaIsRandomized(mac: string)
    ensures IsRpa(mac) ==> HasMacRandomization(mac)
    ensures HasMacRandomization(mac) <==> DetectMacType(mac) != Public && DetectMacType(mac) != Unknown
  {
  }

  /// For a parsed address, the heuristic here agrees with the bit
  /// predicates of `MacAddress`.
  lemma DetectAgreesWithMacAddress(m: MacAddressHandler.MacAddress)
    requires m.WellFormed()
    ensures DetectMacType(m.address) == RandomResolvable <==> m.IsRpa()
    ensures DetectMacType(m.address) == RandomStatic <==> m.IsStaticRandom()
    ensures DetectMacType(m.address) == TypeOfFirstByte(m.octets[0])
  {
    var b := m.octets;
    MacTextWithoutColons(b);
    HexUpperNoSeparators(b);
    RemoveCharAbsent(HexUpper(b), '-');
    var c := HexUpper(b);
    assert RemoveChar(RemoveChar(m.address, ':'), '-') == c;
    HexUpperPair(b, 0);
    assert c[0..2] == Hex2Upper(b[0]);
    assert ToUpper(c)[0..2] == ToUpper(c[0..2]);
    MacAddressHandler.ParseU8HexUpper(c[0..2]);
    ParseU8HexOfHex2(b[0]);
    TypeOfFirstByteMeaning(b[0]);
  }

  // ---------------------------------------------------------------------
  // Pairing and security from advertised services

  /// A service string that names a secure feature.
  predicate SecureService(s: string)
  {
    var u := ToUpper(s);
    Contains(u, "SECURE") || Contains(u, "AUTH") || Contains(u, "KEY")
  }

  /// A service string that names one of 0x1800, 0x1801, 0x180A.
  predicate StandardService(s: string)
  {
    var u := ToUpper(s);
    Contains(u, "1800") || Contains(u, "1801") || Contains(u, "180A")
  }

  predicate HasSecureServices(services: seq<string>)
  {
    exists i :: 0 <= i < |services| && SecureService(services[i])
  }

  predicate HasStandardServices(services: seq<string>)
  {
    exists i :: 0 <= i < |services| && StandardService(services[i])
  }

  /// `analyze_pairing_and_security` (the service data is not consulted).
  function PairingAndSecurity(services: seq<string>, isConnectable: bool): (PairingMethod, SecurityLevel)
  {
    if isConnectable && HasSecureServices(services) then (PasskeyEntry, SecureConnections)
    else if isConnectable && HasStandardServices(services) then (JustWorks, Legacy)
    else if isConnectable then (JustWorks, Unsecured)
    else (NoPairing, Unsecured)
  }

  /// `analyze_security_from_advertising`
  function AnalyzeSecurity(mac: string, services: seq<string>, isConnectable: bool): (info: SecurityInfo)
    ensures info.isConnectable == isConnectable
  {
    var (pairing, level) := PairingAndSecurity(services, isConnectable);
    SecurityInfo(
      DetectMacType(mac), IsRpa(mac), HasMacRandomization(mac), pairing, level, isConnectable,
      isConnectable && (level == Secured || level == SecureConnections))
  }

  /// A non-connectable device is always (None, Unsecured); a secure keyword
  /// outranks the standard-service rule.
  lemma PairingRules(services: seq<string>, isConnectable: bool)
    ensures !isConnectable ==> PairingAndSecurity(services, isConnectable) == (NoPairing, Unsecured)
    ensures isConnectable && HasSecureServices(services) ==>
      PairingAndSecurity(services, isConnectable) == (PasskeyEntry, SecureConnections)
    ensures isConnectable && !HasSecureServices(services) && HasStandardServices(services) ==>
      PairingAndSecurity(services, isConnectable) == (JustWorks, Legacy)
    ensures PairingAndSecurity(services, isConnectable).1 != Secured
  {
  }

  /// Since the level `Secured` is never produced, bonding is required
  /// exactly when the device is connectable and advertises a secure service.
  lemma RequiresBondingMeaning(mac: string, services: seq<string>, isConnectable: bool)
    ensures AnalyzeSecurity(mac, services, isConnectable).requiresBonding <==>
      isConnectable && HasSecureServices(services)
    ensures AnalyzeSecurity(mac, services, isConnectable).isRpa ==>
      AnalyzeSecurity(mac, services, isConnectable).macRandomization
  {
    PairingRules(services, isConnectable);
  }

  // ---------------------------------------------------------------------
  // Names and the one-line summary

  function MacTypeName(t: MacAddressType): string
  {
    match t
    case Public => "Public"
    case RandomStatic => "Random (Static)"
    case RandomResolvable => "RPA"
    case RandomNonResolvable => "Random (Non-Resolvable)"
    case Unknown => "Unknown"
  }

  function PairingName(p: PairingMethod): string
  {
    match p
    case JustWorks => "Just Works"
    case PasskeyEntry => "Passkey Entry"
    case NumericComparison => "Numeric Comparison"
    case Oob => "OOB (Out of Band)"
    case NoPairing => "None"
    case UnknownPairing => "Unknown"
  }

  function SecurityName(l: SecurityLevel): string
  {
    match l
    case Secured => "Secured"
    case Unsecured => "Unsecured"
    case Legacy => "Legacy"
    case SecureConnections => "Secure Connections"
    case UnknownLevel => "Unknown"
  }

  /// The pieces `format_security_summary` joins.
  function SummaryParts(info: SecurityInfo): seq<string>
  {
    ["MAC: " + MacTypeName(info.macType)]
    + (if info.isRpa then ["RPA Detected"] else [])
    + (if info.macRandomization then ["Randomized MAC"] else [])
    + ["Pairing: " + PairingName(info.pairingMethod), "Security: " + SecurityName(info.securityLevel)]
    + [if info.isConnectable then "Connectable" else "Non-Connectable"]
  }

  /// `format_security_summary`
  function FormatSecuritySummary(info: SecurityInfo): string
  {
    JoinWith(SummaryParts(info), " | ")
  }

  /// The summary has four fixed parts plus one per detected flag, starts
  /// with the address type and ends with the connectability.
  lemma SummaryPartsShape(info: SecurityInfo)
    ensures |SummaryParts(info)| == 4 + (if info.isRpa then 1 else 0) + (if info.macRandomization then 1 else 0)
    ensures SummaryParts(info)[0] == "MAC: " + MacTypeName(info.macType)
    ensures SummaryParts(info)[|SummaryParts(info)| - 1] ==
      (if info.isConnectable then "Connectable" else "Non-Connectable")
    ensures info.isRpa ==> SummaryParts(info)[1] == "RPA Detected"
  {
  }
}
