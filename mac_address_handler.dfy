// MAC address text, the address-bit predicates, wildcard patterns and the
// allow/deny filter (src/mac_address_handler.rs).

module MacAddressHandler {
  import opened Common

  const LENGTH_ERROR := "MAC address must be 6 octets"
  const PATTERN_ERROR := "Pattern must have 6 parts"

  /// `MacAddress`: the normalised colon text and the six octets behind it.
  datatype MacAddress = MacAddress(address: string, octets: bytes)
  {
    /// What every constructor establishes.
    predicate WellFormed()
    {
      |octets| == 6 && address == MacText(octets)
    }

    /// `bytes[0] & 0x01 == 0`
    predicate IsUnicast()
      requires |octets| == 6
    {
      octets[0] % 2 == 0
    }

    /// `bytes[0] & 0x01 == 1`
    predicate IsMulticast()
      requires |octets| == 6
    {
      octets[0] % 2 == 1
    }

    /// `bytes[0] & 0x02 == 2`
    predicate IsLocallyAdministered()
      requires |octets| == 6
    {
      Bit(octets[0], 1)
    }

    /// `bytes[0] & 0x02 == 0`
    predicate IsUniversallyAdministered()
      requires |octets| == 6
    {
      !Bit(octets[0], 1)
    }

    /// The two most significant bits of the first octet
    /// (`bytes[0] & 0xC0`, shifted down).
    function TopBits(): int
      requires |octets| == 6
    {
      octets[0] / 64
    }

    /// `bytes[0] & 0xC0 == 0x40`
    predicate IsRpa()
      requires |octets| == 6
    {
      TopBits() == 1
    }

    /// `bytes[0] & 0xC0 == 0xC0`
    predicate IsStaticRandom()
      requires |octets| == 6
    {
      TopBits() == 3
    }

    /// Neither all zeros nor all ones.
    predicate IsRandomlyGenerated()
      requires |octets| == 6
    {
      octets != [0, 0, 0, 0, 0, 0] && octets != [0xFF, 0xFF, 0xFF, 0xFF, 0xFF, 0xFF]
    }

    /// `bytes[0] & 0xC0 == 0x00` and randomly generated.
    predicate IsNrpa()
      requires |octets| == 6
    {
      TopBits() == 0 && IsRandomlyGenerated()
    }

    /// The first three octets (the OUI).
    function ManufacturerId(): (r: bytes)
      requires |octets| == 6
    {
      octets[..3]
    }

    /// The last three octets.
    function DeviceId(): (r: bytes)
      requires |octets| == 6
    {
      octets[3..]
    }
  }

  /// `MacAddress::from_bytes`
  function FromBytes(b: bytes): (m: MacAddress)
    requires |b| == 6
    ensures m.WellFormed() && m.octets == b
  {
    MacAddress(MacText(b), b)
  }

  /// The predicates split the address space as the source's names say.
  lemma AddressBitsPartition(m: MacAddress)
    requires |m.octets| == 6
    ensures m.IsUnicast() <==> !m.IsMulticast()
    ensures m.IsLocallyAdministered() <==> !m.IsUniversallyAdministered()
    ensures 0 <= m.TopBits() < 4
    ensures !(m.IsRpa() && m.IsStaticRandom())
    ensures m.IsNrpa() ==> !m.IsRpa() && !m.IsStaticRandom()
  {
  }

  /// The first octet decides the random-address subtype: 0x4A is resolvable
  /// and 0xCA is static.
  lemma AddressTypeExamples(m: MacAddress, n: MacAddress)
    requires |m.octets| == 6 && |n.octets| == 6
    requires m.octets[0] == 0x4A && n.octets[0] == 0xCA
    ensures m.IsRpa() && !m.IsStaticRandom()
    ensures n.IsStaticRandom() && !n.IsRpa()
  {
  }

  lemma ManufacturerAndDevice(m: MacAddress)
    requires |m.octets| == 6
    ensures |m.ManufacturerId()| == 3 && |m.DeviceId()| == 3
    ensures m.ManufacturerId() + m.DeviceId() == m.octets
  {
  }

  // ---------------------------------------------------------------------
  // from_string

  /// The input without ':' and '-' separators.
  function Cleaned(s: string): string
  {
    RemoveChar(RemoveChar(s, ':'), '-')
  }

  /// The `k`-th two-character slice of the cleaned text.
  function Pair(cleaned: string, k: nat): string
    requires 2 * k + 2 <= |cleaned|
  {
    cleaned[2 * k..2 * k + 2]
  }

  /// The first `n` octets, parsed in order; the first bad pair is reported.
  function ParseOctets(cleaned: string, n: nat): (r: Result<bytes>)
    requires 2 * n <= |cleaned|
    ensures r.Ok? ==> |r.value| == n
  {
    if n == 0 then Ok([])
    else
      match ParseOctets(cleaned, n - 1)
      case Err(e) => Err(e)
      case Ok(prefix) =>
        match ParseU8Hex(Pair(cleaned, n - 1))
        case None => Err("Invalid hex: " + Pair(cleaned, n - 1))
        case Some(v) => Ok(prefix + [v])
  }

  /// `MacAddress::from_string`
  function ParseMac(s: string): (r: Result<MacAddress>)
  {
    var cleaned := Cleaned(s);
    if |cleaned| != 12 then Err(LENGTH_ERROR)
    else
      match ParseOctets(cleaned, 6)
      case Err(e) => Err(e)
      case Ok(octets) => Ok(MacAddress(MacText(octets), octets))
  }

  /// `MacAddress::from_string`, with its octet loop.
  method FromString(s: string) returns (r: Result<MacAddress>)
    ensures r == ParseMac(s)
  {
    var cleaned := RemoveChar(RemoveChar(s, ':'), '-');
    if |cleaned| != 12 {
      return Err(LENGTH_ERROR);
    }
    var octets: bytes := [];
    var i := 0;
    while i < 6
      invariant 0 <= i <= 6
      invariant ParseOctets(cleaned, i) == Ok(octets)
    {
      var pair := cleaned[2 * i..2 * i + 2];
      match ParseU8Hex(pair) {
        case None =>
          assert ParseOctets(cleaned, i + 1) == Err("Invalid hex: " + pair);
          ParseOctetsErrSticks(cleaned, i + 1, 6);
          return Err("Invalid hex: " + pair);
        case Some(v) =>
          octets := octets + [v];
      }
      i := i + 1;
    }
    r := Ok(MacAddress(MacText(octets), octets));
  }

  /// Once a pair fails, parsing more pairs reports the same error.
  lemma {:induction false} ParseOctetsErrSticks(cleaned: string, i: nat, n: nat)
    requires i <= n && 2 * n <= |cleaned|
    requires ParseOctets(cleaned, i).Err?
    ensures ParseOctets(cleaned, n) == ParseOctets(cleaned, i)
    decreases n - i
  {
    if i < n {
      ParseOctetsErrSticks(cleaned, i, n - 1);
    }
  }

  /// The parsed octets are exactly the values of the pairs, and parsing
  /// succeeds iff every pair is a valid `from_str_radix` byte.
  lemma {:induction false} ParseOctetsMeaning(cleaned: string, n: nat)
    requires 2 * n <= |cleaned|
    ensures ParseOctets(cleaned, n).Ok? <==>
      forall k :: 0 <= k < n ==> ParseU8Hex(Pair(cleaned, k)).Some?
    ensures ParseOctets(cleaned, n).Ok? ==>
      forall k :: 0 <= k < n ==> ParseOctets(cleaned, n).value[k] == ParseU8Hex(Pair(cleaned, k)).value
  {
    if n > 0 {
      ParseOctetsMeaning(cleaned, n - 1);
    }
  }

  /// `from_string` succeeds iff twelve characters remain after dropping the
  /// separators and each pair is hex; the result is well formed.
  lemma ParseMacMeaning(s: string)
    ensures ParseMac(s).Ok? <==>
      |Cleaned(s)| == 12 && forall k :: 0 <= k < 6 ==> ParseU8Hex(Pair(Cleaned(s), k)).Some?
    ensures ParseMac(s).Ok? ==> ParseMac(s).value.WellFormed()
    ensures ParseMac(s).Ok? ==>
      forall k :: 0 <= k < 6 ==> ParseMac(s).value.octets[k] == ParseU8Hex(Pair(Cleaned(s), k)).value
  {
    if |Cleaned(s)| == 12 {
      ParseOctetsMeaning(Cleaned(s), 6);
    }
  }

  /// Parsing the colon text of any six octets gives them back.
  lemma FromBytesRoundTrip(b: bytes)
    requires |b| == 6
    ensures ParseMac(MacText(b)) == Ok(FromBytes(b))
  {
    var t := MacText(b);
    MacTextWithoutColons(b);
    HexUpperNoSeparators(b);
    RemoveCharAbsent(HexUpper(b), '-');
    var cleaned := Cleaned(t);
    assert cleaned == HexUpper(b);
    forall k | 0 <= k < 6
      ensures ParseU8Hex(Pair(cleaned, k)) == Some(b[k])
    {
      HexUpperPair(b, k);
      ParseU8HexOfHex2(b[k]);
    }
    ParseOctetsMeaning(cleaned, 6);
    var octets := ParseOctets(cleaned, 6).value;
    assert octets == b;
  }

  /// `from_string` normalises: parsing its own output gives the same address.
  lemma ParseMacIdempotent(s: string)
    requires ParseMac(s).Ok?
    ensures ParseMac(ParseMac(s).value.address) == ParseMac(s)
  {
    ParseMacMeaning(s);
    FromBytesRoundTrip(ParseMac(s).value.octets);
  }

  /// Dashes anywhere in the input are ignored by `from_string`.
  lemma DashIgnored(s: string, i: nat)
    requires i <= |s|
    ensures ParseMac(s[..i] + "-" + s[i..]) == ParseMac(s)
  {
    var x, y := s[..i], s[i..];
    var t := x + ("-" + y);
    assert s[..i] + "-" + s[i..] == t;
    var a, b := RemoveChar(x, ':'), RemoveChar(y, ':');
    RemoveCharAppend(x, "-" + y, ':');
    assert RemoveChar("-" + y, ':') == "-" + b;
    RemoveCharAppend(a, "-" + b, '-');
    assert RemoveChar("-" + b, '-') == RemoveChar(b, '-');
    assert x + y == s;
    RemoveCharAppend(x, y, ':');
    RemoveCharAppend(a, b, '-');
    assert Cleaned(t) == Cleaned(s);
  }

  // ---------------------------------------------------------------------
  // matches_pattern

  /// One pattern part against one octet: '*' and '?' match anything,
  /// otherwise the part must read as that byte.
  predicate PartMatches(part: string, b: byte)
  {
    part == "*" || part == "?" || ParseU8Hex(part) == Some(b)
  }

  /// `MacAddress::matches_pattern`: exactly six ':'-separated parts, each
  /// matching its octet.
  predicate MatchesPattern(m: MacAddress, pattern: string)
    requires |m.octets| == 6
  {
    var parts := Split(pattern, ':');
    |parts| == 6 && forall i :: 0 <= i < 6 ==> PartMatches(parts[i], m.octets[i])
  }

  /// A pattern has six parts iff it has five colons.
  lemma PatternParts(pattern: string)
    ensures |Split(pattern, ':')| == 6 <==> Occurrences(pattern, ':') == 5
  {
    SplitCount(pattern, ':');
  }

  /// The all-wildcard pattern matches every address.
  lemma WildcardMatchesAll(m: MacAddress, pattern: string)
    requires |m.octets| == 6
    requires Split(pattern, ':') == ["*", "*", "*", "*", "*", "*"]
    ensures MatchesPattern(m, pattern)
  {
  }

  /// A piece without the delimiter, then the delimiter, splits off whole.
  lemma {:induction false} SplitPrefix(h: string, rest: string, d: char)
    requires d !in h
    ensures Split(h + [d] + rest, d) == [h] + Split(rest, d)
  {
    if h == [] {
      assert h + [d] + rest == [d] + rest;
    } else {
      var t := h + [d] + rest;
      assert t[1..] == h[1..] + [d] + rest;
      SplitPrefix(h[1..], rest, d);
      assert [h[0]] + h[1..] == h;
    }
  }

  lemma {:induction false} SplitNoDelimiter(h: string, d: char)
    requires d !in h
    ensures Split(h, d) == [h]
  {
    if h != [] {
      SplitNoDelimiter(h[1..], d);
      assert [h[0]] + h[1..] == h;
    }
  }

  /// The colon text splits into the two-digit texts of its octets.
  lemma {:induction false} SplitColonHex(h: string, bs: bytes)
    requires ':' !in h
    ensures Split(h + ColonHex(bs), ':') == [h] + HexPieces(bs)
    decreases |bs|
  {
    if bs == [] {
      assert h + ColonHex(bs) == h;
      SplitNoDelimiter(h, ':');
    } else {
      var g := Hex2Upper(bs[0]);
      assert ':' !in g;
      assert h + ColonHex(bs) == h + [':'] + (g + ColonHex(bs[1..]));
      SplitPrefix(h, g + ColonHex(bs[1..]), ':');
      SplitColonHex(g, bs[1..]);
    }
  }

  function HexPieces(bs: bytes): (r: seq<string>)
    ensures |r| == |bs| && forall i :: 0 <= i < |bs| ==> r[i] == Hex2Upper(bs[i])
  {
    if bs == [] then [] else [Hex2Upper(bs[0])] + HexPieces(bs[1..])
  }

  /// Every address matches its own text used as a pattern.
  lemma MatchesOwnText(m: MacAddress)
    requires m.WellFormed()
    ensures MatchesPattern(m, m.address)
  {
    var b := m.octets;
    assert ':' !in Hex2Upper(b[0]);
    SplitColonHex(Hex2Upper(b[0]), b[1..]);
    var parts := Split(m.address, ':');
    forall i | 0 <= i < 6 ensures PartMatches(parts[i], b[i]) {
      ParseU8HexOfHex2(b[i]);
    }
  }

  /// Upper-casing a hex text does not change its value.
  lemma {:induction false} HexNumberUpper(s: string)
    ensures HexNumber(ToUpper(s)) == HexNumber(s)
    decreases |s|
  {
    if s != [] {
      var n := |s| - 1;
      assert ToUpper(s)[..n] == ToUpper(s[..n]);
      HexNumberUpper(s[..n]);
    }
  }

  lemma ParseU8HexUpper(s: string)
    ensures ParseU8Hex(ToUpper(s)) == ParseU8Hex(s)
  {
    if |s| > 0 && s[0] == '+' {
      assert ToUpper(s)[1..] == ToUpper(s[1..]);
      HexNumberUpper(s[1..]);
    } else {
      HexNumberUpper(s);
    }
  }

  lemma PartMatchesUpper(part: string, b: byte)
    ensures PartMatches(ToUpper(part), b) == PartMatches(part, b)
  {
    ParseU8HexUpper(part);
    if ToUpper(part) == "*" || ToUpper(part) == "?" {
      assert |part| == 1;
    }
  }

  /// Each piece upper-cased.
  function UpperAll(parts: seq<string>): (r: seq<string>)
    ensures |r| == |parts| && forall i :: 0 <= i < |parts| ==> r[i] == ToUpper(parts[i])
  {
    if parts == [] then [] else [ToUpper(parts[0])] + UpperAll(parts[1..])
  }

  /// Splitting on ':' commutes with upper-casing.
  lemma {:induction false} SplitUpper(s: string)
    ensures Split(ToUpper(s), ':') == UpperAll(Split(s, ':'))
  {
    if s != [] {
      var u := ToUpper(s);
      assert u[1..] == ToUpper(s[1..]);
      SplitUpper(s[1..]);
      var rest := Split(s[1..], ':');
      if s[0] == ':' {
        assert ([[]] + rest)[1..] == rest;
      } else {
        var p := [[s[0]] + rest[0]] + rest[1..];
        assert p[1..] == rest[1..];
        assert ToUpper([s[0]] + rest[0]) == [UpperChar(s[0])] + ToUpper(rest[0]);
        assert UpperAll(rest)[1..] == UpperAll(rest[1..]);
      }
    }
  }

  /// `add_pattern` stores the pattern upper-cased; that never changes what
  /// it matches.
  lemma MatchesPatternUpper(m: MacAddress, pattern: string)
    requires |m.octets| == 6
    ensures MatchesPattern(m, ToUpper(pattern)) == MatchesPattern(m, pattern)
  {
    SplitUpper(pattern);
    var parts := Split(pattern, ':');
    assert Split(ToUpper(pattern), ':') == UpperAll(parts);
    if |parts| == 6 {
      forall i | 0 <= i < 6
        ensures PartMatches(Split(ToUpper(pattern), ':')[i], m.octets[i]) == PartMatches(parts[i], m.octets[i])
      {
        PartMatchesUpper(parts[i], m.octets[i]);
      }
    }
  }

  // ---------------------------------------------------------------------
  // MacAddressFilter

  /// The key `matches` looks up: the address text without colons.
  function Key(m: MacAddress): string
  {
    RemoveChar(m.address, ':')
  }

  lemma KeyIsHex(m: MacAddress)
    requires m.WellFormed()
    ensures Key(m) == HexUpper(m.octets)
    ensures forall i :: 0 <= i < |Key(m)| ==> IsHexChar(Key(m)[i])
  {
    MacTextWithoutColons(m.octets);
    HexUpperDigits(m.octets);
  }

  /// The key `add_whitelist`/`add_blacklist` store, as written:
  /// `mac.to_uppercase().replace(":", "")`.
  function ListKeyAsWritten(mac: string): string
  {
    RemoveChar(ToUpper(mac), ':')
  }

  /// A list entry given with '-' separators is accepted by `from_string`,
  /// but the stored key keeps the dashes and so equals no address's key.
  lemma DashedListKeyNeverMatches(mac: string, m: MacAddress)
    requires '-' in mac && m.WellFormed()
    ensures ListKeyAsWritten(mac) != Key(m)
  {
    var i :| 0 <= i < |mac| && mac[i] == '-';
    assert ToUpper(mac)[i] == '-';
    assert '-' in ListKeyAsWritten(mac);
    KeyIsHex(m);
    HexUpperNoSeparators(m.octets);
  }

  /// The key the lists should store: that of the parsed address.
  function ListKey(mac: string): string
    requires ParseMac(mac).Ok?
  {
    Key(ParseMac(mac).value)
  }

  /// Address types the three allow flags refer to.
  predicate TypeAllowed(m: MacAddress, allowRpa: bool, allowStaticRandom: bool, allowPublic: bool)
    requires |m.octets| == 6
  {
    !(m.IsRpa() && !allowRpa)
    && !(m.IsStaticRandom() && !allowStaticRandom)
    && !(!m.IsRpa() && !m.IsStaticRandom() && !allowPublic)
  }

  /// Some stored pattern matches the address.
  predicate AnyPatternMatches(m: MacAddress, patterns: seq<string>)
    requires |m.octets| == 6
  {
    exists i :: 0 <= i < |patterns| && MatchesPattern(m, patterns[i])
  }

  /// `MacAddressFilter::matches`, as a function of the filter's fields:
  /// the blacklist, then the whitelist, then the patterns, then the type flags.
  predicate Admit(whitelist: Option<set<string>>, blacklist: set<string>, patterns: seq<string>,
                  allowRpa: bool, allowStaticRandom: bool, allowPublic: bool, m: MacAddress)
    requires |m.octets| == 6
  {
    if Key(m) in blacklist then false
    else if whitelist.Some? && Key(m) !in whitelist.value then false
    else if patterns != [] && !AnyPatternMatches(m, patterns) then false
    else TypeAllowed(m, allowRpa, allowStaticRandom, allowPublic)
  }

  /// A blacklisted address is refused whatever else the filter holds.
  lemma BlacklistWins(whitelist: Option<set<string>>, blacklist: set<string>, patterns: seq<string>,
                      allowRpa: bool, allowStaticRandom: bool, allowPublic: bool, m: MacAddress)
    requires |m.octets| == 6 && Key(m) in blacklist
    ensures !Admit(whitelist, blacklist, patterns, allowRpa, allowStaticRandom, allowPublic, m)
  {
  }

  /// The checks combine as a conjunction.
  lemma AdmitMeaning(whitelist: Option<set<string>>, blacklist: set<string>, patterns: seq<string>,
                     allowRpa: bool, allowStaticRandom: bool, allowPublic: bool, m: MacAddress)
    requires |m.octets| == 6
    ensures Admit(whitelist, blacklist, patterns, allowRpa, allowStaticRandom, allowPublic, m) <==>
      Key(m) !in blacklist
      && (whitelist.None? || Key(m) in whitelist.value)
      && (patterns == [] || AnyPatternMatches(m, patterns))
      && TypeAllowed(m, allowRpa, allowStaticRandom, allowPublic)
  {
  }

  /// The default filter admits every address.
  lemma DefaultAdmitsAll(m: MacAddress)
    requires |m.octets| == 6
    ensures Admit(None, {}, [], true, true, true, m)
  {
  }

  /// Exactly one of the three type flags governs each address.
  lemma OneTypeFlagApplies(m: MacAddress, allowRpa: bool, allowStaticRandom: bool, allowPublic: bool)
    requires |m.octets| == 6
    ensures m.IsRpa() ==> (TypeAllowed(m, allowRpa, allowStaticRandom, allowPublic) <==> allowRpa)
    ensures m.IsStaticRandom() ==> (TypeAllowed(m, allowRpa, allowStaticRandom, allowPublic) <==> allowStaticRandom)
    ensures !m.IsRpa() && !m.IsStaticRandom() ==>
      (TypeAllowed(m, allowRpa, allowStaticRandom, allowPublic) <==> allowPublic)
  {
  }

  /// `MacAddressFilter`. List entries are stored under `ListKey`, the key of
  /// the parsed address (see `DashedListKeyNeverMatches` for the key the
  /// source stores).
  class MacAddressFilter {
    var whitelist: Option<set<string>>
    var blacklist: set<string>
    var patterns: seq<string>
    var allowRpa: bool
    var allowStaticRandom: bool
    var allowPublic: bool

    /// `MacAddressFilter::new` / `default`
    constructor()
      ensures whitelist == None && blacklist == {} && patterns == []
      ensures allowRpa && allowStaticRandom && allowPublic
    {
      whitelist := None;
      blacklist := {};
      patterns := [];
      allowRpa := true;
      allowStaticRandom := true;
      allowPublic := true;
    }

    predicate Admits(m: MacAddress)
      reads this
      requires |m.octets| == 6
    {
      Admit(whitelist, blacklist, patterns, allowRpa, allowStaticRandom, allowPublic, m)
    }

    /// `add_whitelist`: an unparsable address is an error and changes nothing.
    method AddWhitelist(mac: string) returns (r: Result<()>)
      modifies this
      ensures ParseMac(mac).Err? ==> r == Err(ParseMac(mac).msg) && unchanged(this)
      ensures ParseMac(mac).Ok? ==> (r == Ok(())
        && whitelist == Some((if old(whitelist).Some? then old(whitelist).value else {}) + {ListKey(mac)})
        && blacklist == old(blacklist) && patterns == old(patterns)
        && allowRpa == old(allowRpa) && allowStaticRandom == old(allowStaticRandom)
        && allowPublic == old(allowPublic))
    {
      var parsed := FromString(mac);
      if parsed.Err? {
        return Err(parsed.msg);
      }
      if whitelist.None? {
        whitelist := Some({});
      }
      whitelist := Some(whitelist.value + {Key(parsed.value)});
      r := Ok(());
    }

    /// `add_blacklist`
    method AddBlacklist(mac: string) returns (r: Result<()>)
      modifies this
      ensures ParseMac(mac).Err? ==> r == Err(ParseMac(mac).msg) && unchanged(this)
      ensures ParseMac(mac).Ok? ==> (r == Ok(())
        && blacklist == old(blacklist) + {ListKey(mac)}
        && whitelist == old(whitelist) && patterns == old(patterns)
        && allowRpa == old(allowRpa) && allowStaticRandom == old(allowStaticRandom)
        && allowPublic == old(allowPublic))
    {
      var parsed := FromString(mac);
      if parsed.Err? {
        return Err(parsed.msg);
      }
      blacklist := blacklist + {Key(parsed.value)};
      r := Ok(());
    }

    /// `add_pattern`: a pattern without six ':'-separated parts is refused.
    method AddPattern(pattern: string) returns (r: Result<()>)
      modifies this
      ensures |Split(pattern, ':')| != 6 ==> r == Err(PATTERN_ERROR) && unchanged(this)
      ensures |Split(pattern, ':')| == 6 ==> (r == Ok(())
        && patterns == old(patterns) + [ToUpper(pattern)]
        && whitelist == old(whitelist) && blacklist == old(blacklist)
        && allowRpa == old(allowRpa) && allowStaticRandom == old(allowStaticRandom)
        && allowPublic == old(allowPublic))
    {
      if |Split(pattern, ':')| != 6 {
        return Err(PATTERN_ERROR);
      }
      patterns := patterns + [ToUpper(pattern)];
      r := Ok(());
    }

    /// `matches`, with its loop over the patterns.
    method Matches(m: MacAddress) returns (ok: bool)
      requires |m.octets| == 6
      ensures ok == Admits(m)
    {
      var key := RemoveChar(m.address, ':');
      if key in blacklist {
        return false;
      }
      if whitelist.Some? && key !in whitelist.value {
        return false;
      }
      if patterns != [] {
        var found := false;
        var i := 0;
        while i < |patterns| && !found
          invariant 0 <= i <= |patterns|
          invariant found <==> exists j :: 0 <= j < i && MatchesPattern(m, patterns[j])
        {
          if MatchesPattern(m, patterns[i]) {
            found := true;
          }
          i := i + 1;
        }
        if !found {
          return false;
        }
      }
      if m.IsRpa() && !allowRpa {
        return false;
      }
      if m.IsStaticRandom() && !allowStaticRandom {
        return false;
      }
      if !m.IsRpa() && !m.IsStaticRandom() && !allowPublic {
        return false;
      }
      ok := true;
    }

    /// `set_allow_rpa`
    method SetAllowRpa(allow: bool)
      modifies this
      ensures allowRpa == allow
      ensures whitelist == old(whitelist) && blacklist == old(blacklist) && patterns == old(patterns)
      ensures allowStaticRandom == old(allowStaticRandom) && allowPublic == old(allowPublic)
    {
      allowRpa := allow;
    }

    /// `set_allow_static_random`
    method SetAllowStaticRandom(allow: bool)
      modifies this
      ensures allowStaticRandom == allow
      ensures whitelist == old(whitelist) && blacklist == old(blacklist) && patterns == old(patterns)
      ensures allowRpa == old(allowRpa) && allowPublic == old(allowPublic)
    {
      allowStaticRandom := allow;
    }

    /// `set_allow_public`
    method SetAllowPublic(allow: bool)
      modifies this
      ensures allowPublic == allow
      ensures whitelist == old(whitelist) && blacklist == old(blacklist) && patterns == old(patterns)
      ensures allowRpa == old(allowRpa) && allowStaticRandom == old(allowStaticRandom)
    {
      allowPublic := allow;
    }
  }

  /// After `add_blacklist` succeeds, its address is refused.
  method BlacklistedAddressRefused(f: MacAddressFilter, mac: string) returns (ok: bool)
    requires ParseMac(mac).Ok?
    modifies f
    ensures !ok
  {
    var r := f.AddBlacklist(mac);
    ParseMacMeaning(mac);
    ok := f.Matches(ParseMac(mac).value);
  }

  /// After `add_whitelist` succeeds on an empty filter, its address is
  /// admitted unless the type flags refuse it.
  method WhitelistedAddressAdmitted(mac: string) returns (ok: bool)
    requires ParseMac(mac).Ok?
    ensures ok
  {
    var f := new MacAddressFilter();
    var r := f.AddWhitelist(mac);
    ParseMacMeaning(mac);
    ok := f.Matches(ParseMac(mac).value);
  }
}
