// Vendor-specific payloads found in a parsed advertising packet: Apple
// iBeacon and Continuity, Google Eddystone and Fast Pair, AltBeacon and
// Microsoft Swift Pair (src/vendor_protocols.rs).

module VendorProtocols {
  import opened Common
  import AdvertisingParser

  type Packet = AdvertisingParser.ParsedAdvertisingPacket

  datatype IBeaconData = IBeaconData(uuid: string, major: u16, minor: u16, txPower: i8, measuredPower: Option<i8>)

  datatype EddystoneData =
    | Uid(namespaceId: bytes, instanceId: bytes, txPower: i8)
    | Url(url: string, txPower: i8)
    | Tlm(version: byte, batteryVoltage: u16, temperature: i8, pduCount: u32, uptimeMillis: u32)
    | Eid(eid: bytes, txPower: i8)

  datatype AltBeaconData = AltBeaconData(
    manufacturerId: u16, beaconCode: u16, uuid: string, major: u16, minor: u16, txPower: i8, reserved: byte)

  datatype AppleContinuity =
    | Handoff(sequenceNumber: u32, authTag: u32)
    | AirDrop(hash: bytes)
    | Nearby(action: byte, hash: bytes)

  datatype GoogleFastPair = GoogleFastPair(modelId: u32, flags: byte, batteryLevel: Option<byte>, showUi: bool)

  datatype SwiftPair = SwiftPair(tlvVersion: byte, tlvData: seq<(byte, bytes)>)

  datatype VendorProtocol =
    | IBeacon(ibeacon: IBeaconData)
    | Eddystone(eddystone: EddystoneData)
    | AltBeacon(altbeacon: AltBeaconData)
    | Continuity(continuity: AppleContinuity)
    | FastPair(fastPair: GoogleFastPair)
    | MicrosoftSwiftPair(swiftPair: SwiftPair)
  {
    /// Position of the detector in the fixed reporting order.
    function Rank(): nat
    {
      match this
      case IBeacon(_) => 0
      case Eddystone(_) => 1
      case AltBeacon(_) => 2
      case Continuity(_) => 3
      case FastPair(_) => 4
      case MicrosoftSwiftPair(_) => 5
    }
  }

  const APPLE: u16 := 0x004C
  const MICROSOFT: u16 := 0x006F
  const EDDYSTONE_UUID: u16 := 0xAAFE
  const FAST_PAIR_UUID: u16 := 0xFE2C

  // -----------------------------------------------------------------------
  // Beacons

  /// Bytes 2..18 as `8-4-4-4-12` lower-case hex, in the order they appear.
  function BeaconUuid(d: bytes): (r: string)
    requires |d| >= 18
  {
    HexLower(d[2..6]) + "-" + HexLower(d[6..8]) + "-" + HexLower(d[8..10]) + "-" +
    HexLower(d[10..12]) + "-" + HexLower(d[12..18])
  }

  predicate IsIBeaconFrame(d: bytes)
  {
    |d| >= 23 && d[0] == 0x02 && d[1] == 0x15
  }

  /// `detect_ibeacon`
  function DetectIBeacon(p: Packet): (r: Option<IBeaconData>)
  {
    var m := p.fields.manufacturerData;
    if APPLE in m && IsIBeaconFrame(m[APPLE]) then
      var d := m[APPLE];
      Some(IBeaconData(BeaconUuid(d), U16Be(d[18], d[19]), U16Be(d[20], d[21]), AsI8(d[22]), p.fields.txPower))
    else None
  }

  /// An iBeacon is reported exactly for Apple data of at least 23 bytes
  /// starting 02 15; major and minor are big-endian and the power is signed.
  lemma IBeaconGuard(p: Packet)
    ensures DetectIBeacon(p).Some? <==>
      APPLE in p.fields.manufacturerData && IsIBeaconFrame(p.fields.manufacturerData[APPLE])
    ensures DetectIBeacon(p).Some? ==>
      var d := p.fields.manufacturerData[APPLE];
      var b := DetectIBeacon(p).value;
      b.major == d[18] as int * 256 + d[19] as int && b.minor == d[20] as int * 256 + d[21] as int &&
      (b.txPower < 0 <==> d[22] >= 0x80) && b.measuredPower == p.fields.txPower &&
      |b.uuid| == 36
  {
  }

  /// Eddystone service data (UUID 0xAAFE) by frame type, each with its
  /// minimum length: UID 19, URL 4, TLM 14, EID 10.
  function DetectEddystone(p: Packet): (r: Option<EddystoneData>)
  {
    var sd := p.fields.serviceData16;
    if EDDYSTONE_UUID !in sd || sd[EDDYSTONE_UUID] == [] then None
    else
      var d := sd[EDDYSTONE_UUID];
      if d[0] == 0x00 && |d| >= 19 then Some(Uid(d[2..12], d[12..18], AsI8(d[1])))
      else if d[0] == 0x10 && |d| >= 4 then Some(Url(DecodedUrl(d[2], d[3..]), AsI8(d[1])))
      else if d[0] == 0x20 && |d| >= 14 then
        Some(Tlm(d[1], U16Be(d[2], d[3]), AsI8(d[4]), U32Be(d[5], d[6], d[7], d[8]), U32Be(d[9], d[10], d[11], d[12])))
      else if d[0] == 0x30 && |d| >= 10 then Some(Eid(d[2..10], AsI8(d[1])))
      else None
  }

  /// The minimum frame lengths, and the frame kind follows the first byte.
  lemma EddystoneLengths(p: Packet)
    ensures var r := DetectEddystone(p);
      r.Some? ==>
        var d := p.fields.serviceData16[EDDYSTONE_UUID];
        (r.value.Uid? <==> d[0] == 0x00) && (r.value.Uid? ==> |d| >= 19 && |r.value.namespaceId| == 10 && |r.value.instanceId| == 6) &&
        (r.value.Url? <==> d[0] == 0x10) && (r.value.Url? ==> |d| >= 4) &&
        (r.value.Tlm? <==> d[0] == 0x20) && (r.value.Tlm? ==> |d| >= 14) &&
        (r.value.Eid? <==> d[0] == 0x30) && (r.value.Eid? ==> |d| >= 10 && |r.value.eid| == 8)
    ensures EDDYSTONE_UUID in p.fields.serviceData16 ==>
      var d := p.fields.serviceData16[EDDYSTONE_UUID];
      d != [] && ((d[0] == 0x00 && |d| < 19) || (d[0] == 0x10 && |d| < 4) ||
                  (d[0] == 0x20 && |d| < 14) || (d[0] == 0x30 && |d| < 10) ||
                  d[0] !in {0x00, 0x10, 0x20, 0x30})
      ==> DetectEddystone(p).None?
  {
  }

  predicate IsAltBeaconFrame(d: bytes)
  {
    |d| >= 26 && d[0] == 0xBE && d[1] == 0xAC
  }

  function AltBeaconOf(id: u16, d: bytes): AltBeaconData
    requires IsAltBeaconFrame(d)
  {
    AltBeaconData(id, U16Be(d[0], d[1]), BeaconUuid(d), U16Be(d[18], d[19]), U16Be(d[20], d[21]), AsI8(d[22]), d[23])
  }

  /// `order` lists the keys of `m` once each: the order in which the
  /// hash map happens to be iterated.
  ghost predicate IsEnumeration(order: seq<u16>, m: map<u16, bytes>)
  {
    (forall k :: k in m <==> k in order) &&
    (forall i, j :: 0 <= i < j < |order| ==> order[i] != order[j])
  }

  /// The first AltBeacon frame in iteration order.
  function AltBeaconIn(order: seq<u16>, m: map<u16, bytes>): Option<AltBeaconData>
    requires forall k :: k in order ==> k in m
  {
    if order == [] then None
    else if IsAltBeaconFrame(m[order[0]]) then Some(AltBeaconOf(order[0], m[order[0]]))
    else AltBeaconIn(order[1..], m)
  }

  /// `detect_altbeacon`: the loop over the manufacturer data, returning at
  /// the first entry that starts BE AC and has at least 26 bytes.
  method DetectAltBeacon(p: Packet, order: seq<u16>) returns (r: Option<AltBeaconData>)
    requires IsEnumeration(order, p.fields.manufacturerData)
    ensures r == AltBeaconIn(order, p.fields.manufacturerData)
  {
    var m := p.fields.manufacturerData;
    var k := 0;
    while k < |order|
      invariant 0 <= k <= |order|
      invariant AltBeaconIn(order, m) == AltBeaconIn(order[k..], m)
    {
      assert order[k..][1..] == order[k + 1..];
      var id := order[k];
      var data := m[id];
      if IsAltBeaconFrame(data) {
        return Some(AltBeaconOf(id, data));
      }
      k := k + 1;
    }
    return None;
  }

  /// Whether an AltBeacon is found does not depend on the iteration order,
  /// and what is found is a frame stored under the reported company ID.
  lemma {:induction false} AltBeaconFound(order: seq<u16>, m: map<u16, bytes>)
    requires forall k :: k in order ==> k in m
    ensures AltBeaconIn(order, m).None? <==> forall i :: 0 <= i < |order| ==> !IsAltBeaconFrame(m[order[i]])
    ensures AltBeaconIn(order, m).Some? ==>
      var b := AltBeaconIn(order, m).value;
      b.manufacturerId in order && IsAltBeaconFrame(m[b.manufacturerId]) &&
      b == AltBeaconOf(b.manufacturerId, m[b.manufacturerId]) && b.beaconCode == 0xBEAC
  {
    if order != [] {
      AltBeaconFound(order[1..], m);
      if !IsAltBeaconFrame(m[order[0]]) {
        assert forall i :: 1 <= i < |order| ==> order[i] == order[1..][i - 1];
      }
    }
  }

  // -----------------------------------------------------------------------
  // Apple Continuity and Google Fast Pair

  /// `detect_apple_continuity`: Handoff (00/01, 10 bytes), AirDrop (05),
  /// Nearby (08/0C, more than 2 bytes); the data needs at least 2 bytes.
  function DetectContinuity(p: Packet): (r: Option<AppleContinuity>)
  {
    var m := p.fields.manufacturerData;
    if APPLE !in m || |m[APPLE]| < 2 then None
    else
      var d := m[APPLE];
      if (d[0] == 0x00 || d[0] == 0x01) && |d| >= 10 then
        Some(Handoff(U32Be(d[1], d[2], d[3], d[4]), U32Be(d[5], d[6], d[7], d[8])))
      else if d[0] == 0x05 then Some(AirDrop(d[1..]))
      else if (d[0] == 0x08 || d[0] == 0x0C) && |d| > 2 then Some(Nearby(d[1], d[2..]))
      else None
  }

  /// iBeacon data (first byte 02) is never also read as Continuity, and
  /// every Continuity hash is the tail of the Apple data.
  lemma IBeaconNotContinuity(p: Packet)
    ensures DetectIBeacon(p).Some? ==> DetectContinuity(p).None?
    ensures DetectContinuity(p).Some? && !DetectContinuity(p).value.Handoff? ==>
      var d := p.fields.manufacturerData[APPLE];
      var c := DetectContinuity(p).value;
      (c.AirDrop? ==> c.hash == d[1..]) && (c.Nearby? ==> c.hash == d[2..] && c.action == d[1])
  {
  }

  /// `detect_google_fast_pair`: at least 3 bytes; a 24-bit little-endian
  /// model ID (the third byte 0 when absent); battery from byte 4.
  function DetectFastPair(p: Packet): (r: Option<GoogleFastPair>)
  {
    var sd := p.fields.serviceData16;
    if FAST_PAIR_UUID !in sd || |sd[FAST_PAIR_UUID]| < 3 then None
    else
      var d := sd[FAST_PAIR_UUID];
      var flags := d[0];
      Some(GoogleFastPair(
        U32Le(d[1], d[2], if |d| > 3 then d[3] else 0, 0),
        flags,
        if |d| > 4 then Some(d[4]) else None,
        flags % 2 == 1))
  }

  /// Fast Pair needs 3 bytes; show-UI is bit 0 of the flags and the model
  /// ID fits in 24 bits.
  lemma FastPairFields(p: Packet)
    ensures DetectFastPair(p).Some? <==>
      FAST_PAIR_UUID in p.fields.serviceData16 && |p.fields.serviceData16[FAST_PAIR_UUID]| >= 3
    ensures DetectFastPair(p).Some? ==>
      var f := DetectFastPair(p).value;
      var d := p.fields.serviceData16[FAST_PAIR_UUID];
      f.flags == d[0] && (f.showUi <==> Bit(d[0], 0)) && f.modelId < 0x100_0000 &&
      (f.batteryLevel.Some? <==> |d| > 4)
  {
  }

  // -----------------------------------------------------------------------
  // Microsoft Swift Pair

  /// The TLVs read from `pos` on: type, length, then `length` value bytes;
  /// the walk ends at the first entry that does not fit.
  function TlvsFrom(d: bytes, pos: nat): seq<(byte, bytes)>
    decreases |d| - pos
  {
    if pos + 1 >= |d| then []
    else
      var len := d[pos + 1] as int;
      if pos + 2 + len > |d| then []
      else [(d[pos], d[pos + 2..pos + 2 + len])] + TlvsFrom(d, pos + 2 + len)
  }

  /// The TLV loop of `detect_microsoft_swift_pair`, from offset 1.
  method ParseTlvs(d: bytes) returns (tlvs: seq<(byte, bytes)>)
    ensures tlvs == TlvsFrom(d, 1)
  {
    tlvs := [];
    var pos := 1;
    while pos < |d|
      invariant pos >= 1
      invariant tlvs + TlvsFrom(d, pos) == TlvsFrom(d, 1)
      decreases |d| - pos
    {
      var tlvType := d[pos];
      if pos + 1 >= |d| {
        break;
      }
      var len := d[pos + 1] as int;
      if pos + 2 + len > |d| {
        break;
      }
      var value := d[pos + 2..pos + 2 + len];
      assert TlvsFrom(d, pos) == [(tlvType, value)] + TlvsFrom(d, pos + 2 + len);
      tlvs := tlvs + [(tlvType, value)];
      pos := pos + 2 + len;
    }
    assert TlvsFrom(d, pos) == [];
    assert tlvs + [] == tlvs;
  }

  /// `detect_microsoft_swift_pair`: Microsoft data of at least 2 bytes, a
  /// version byte, then the TLVs.
  method DetectSwiftPair(p: Packet) returns (r: Option<SwiftPair>)
    ensures r == SwiftPairOf(p)
  {
    var m := p.fields.manufacturerData;
    if MICROSOFT in m && |m[MICROSOFT]| >= 2 {
      var d := m[MICROSOFT];
      var tlvs := ParseTlvs(d);
      return Some(SwiftPair(d[0], tlvs));
    }
    return None;
  }

  function SwiftPairOf(p: Packet): Option<SwiftPair>
  {
    var m := p.fields.manufacturerData;
    if MICROSOFT in m && |m[MICROSOFT]| >= 2 then
      Some(SwiftPair(m[MICROSOFT][0], TlvsFrom(m[MICROSOFT], 1)))
    else None
  }

  /// Total bytes the TLVs take up on the wire.
  function TlvBytes(ts: seq<(byte, bytes)>): nat
  {
    if ts == [] then 0 else 2 + |ts[0].1| + TlvBytes(ts[1..])
  }

  /// Every value collected lies inside the data: the TLVs read from `pos`
  /// never take more than the bytes left.
  lemma {:induction false} TlvsFit(d: bytes, pos: nat)
    ensures pos <= |d| ==> TlvBytes(TlvsFrom(d, pos)) <= |d| - pos
    ensures forall t :: t in TlvsFrom(d, pos) ==> |t.1| < 256
    decreases |d| - pos
  {
    if pos + 1 < |d| {
      var len := d[pos + 1] as int;
      if pos + 2 + len <= |d| {
        TlvsFit(d, pos + 2 + len);
        var t := (d[pos], d[pos + 2..pos + 2 + len]);
        assert TlvsFrom(d, pos) == [t] + TlvsFrom(d, pos + 2 + len);
        assert ([t] + TlvsFrom(d, pos + 2 + len))[1..] == TlvsFrom(d, pos + 2 + len);
      }
    }
  }

  /// The wire form of a list of TLVs whose values are shorter than 256.
  function EncodeTlvs(ts: seq<(byte, bytes)>): bytes
    requires forall t :: t in ts ==> |t.1| < 256
  {
    if ts == [] then [] else [ts[0].0, |ts[0].1| as byte] + ts[0].1 + EncodeTlvs(ts[1..])
  }

  /// Reading back encoded TLVs after any prefix gives them back.
  lemma {:induction false} TlvsRoundTrip(pre: bytes, ts: seq<(byte, bytes)>)
    requires forall t :: t in ts ==> |t.1| < 256
    ensures TlvsFrom(pre + EncodeTlvs(ts), |pre|) == ts
    decreases |ts|
  {
    var d := pre + EncodeTlvs(ts);
    if ts != [] {
      var t := ts[0];
      var len := |t.1|;
      var head := [t.0, len as byte] + t.1;
      var pre' := pre + head;
      assert d == pre' + EncodeTlvs(ts[1..]);
      assert d[|pre| + 1] == len as byte;
      assert d[|pre|] == t.0;
      assert d[|pre| + 2..|pre| + 2 + len] == t.1;
      TlvsRoundTrip(pre', ts[1..]);
      assert TlvsFrom(d, |pre|) == [t] + ts[1..];
    } else {
      assert d == pre;
    }
  }

  /// A Swift Pair advertisement built from a version and a non-empty TLV
  /// list decodes to exactly that version and list.
  lemma SwiftPairRoundTrip(p: Packet, version: byte, ts: seq<(byte, bytes)>)
    requires ts != [] && forall t :: t in ts ==> |t.1| < 256
    requires MICROSOFT in p.fields.manufacturerData
    requires p.fields.manufacturerData[MICROSOFT] == [version] + EncodeTlvs(ts)
    ensures SwiftPairOf(p) == Some(SwiftPair(version, ts))
  {
    TlvsRoundTrip([version], ts);
    assert |EncodeTlvs(ts)| >= 2;
  }

  // -----------------------------------------------------------------------
  // Eddystone URL

  /// The scheme prefix of an Eddystone URL frame.
  function SchemePrefix(scheme: byte): string
  {
    if scheme == 0x00 then "http://www."
    else if scheme == 0x01 then "https://www."
    else if scheme == 0x02 then "http://"
    else if scheme == 0x03 then "https://"
    else ""
  }

  /// What one URL byte becomes: an expansion code 0x00..0x0D, a printable
  /// ASCII character as itself, anything else nothing.
  function Expansion(b: byte): string
  {
    if b == 0x00 then ".com/"
    else if b == 0x01 then ".org/"
    else if b == 0x02 then ".edu/"
    else if b == 0x03 then ".net/"
    else if b == 0x04 then ".info/"
    else if b == 0x05 then ".biz/"
    else if b == 0x06 then ".gov/"
    else if b == 0x07 then ".com"
    else if b == 0x08 then ".org"
    else if b == 0x09 then ".edu"
    else if b == 0x0A then ".net"
    else if b == 0x0B then ".info"
    else if b == 0x0C then ".biz"
    else if b == 0x0D then ".gov"
    else if 32 <= b <= 126 then [b as char]
    else ""
  }

  /// The texts of `f` over the bytes, concatenated in order.
  function MapConcat(f: byte -> string, data: bytes): string
  {
    if data == [] then "" else MapConcat(f, data[..|data| - 1]) + f(data[|data| - 1])
  }

  function DecodedUrl(scheme: byte, data: bytes): string
  {
    SchemePrefix(scheme) + MapConcat(Expansion, data)
  }

  /// `decode_eddystone_url`: the scheme, then each byte expanded in turn.
  method DecodeEddystoneUrl(scheme: byte, data: bytes) returns (url: string)
    ensures url == DecodedUrl(scheme, data)
  {
    url := SchemePrefix(scheme);
    for k := 0 to |data|
      invariant url == SchemePrefix(scheme) + MapConcat(Expansion, data[..k])
    {
      assert data[..k + 1][..k] == data[..k];
      url := url + Expansion(data[k]);
    }
    assert data[..|data|] == data;
  }

  predicate Printable(c: char)
  {
    32 <= c as int <= 126
  }

  /// Expansion distributes over concatenation of the URL bytes.
  lemma {:induction false} MapConcatAppend(f: byte -> string, a: bytes, b: bytes)
    ensures MapConcat(f, a + b) == MapConcat(f, a) + MapConcat(f, b)
    decreases |b|
  {
    if b == [] {
      assert a + b == a;
    } else {
      var b' := b[..|b| - 1];
      assert (a + b)[..|a + b| - 1] == a + b';
      MapConcatAppend(f, a, b');
    }
  }

  /// Each byte expands to printable ASCII.
  lemma ExpansionPrintable(b: byte)
    ensures forall i :: 0 <= i < |Expansion(b)| ==> Printable(Expansion(b)[i])
  {
  }

  /// The decoded URL is printable ASCII, and a URL made of printable
  /// characters comes out unchanged after the scheme.
  lemma {:induction false} ExpandedText(data: bytes)
    ensures forall i :: 0 <= i < |MapConcat(Expansion, data)| ==> Printable(MapConcat(Expansion, data)[i])
    ensures (forall i :: 0 <= i < |data| ==> 32 <= data[i] <= 126) ==>
      |MapConcat(Expansion, data)| == |data| &&
      forall i :: 0 <= i < |data| ==> MapConcat(Expansion, data)[i] as int == data[i]
  {
    if data != [] {
      var init := data[..|data| - 1];
      ExpandedText(init);
      ExpansionPrintable(data[|data| - 1]);
    }
  }

  /// Bytes 0x0E..0x1F and 0x7F..0xFF are dropped.
  lemma DroppedBytes(b: byte)
    requires 0x0E <= b < 32 || b > 126
    ensures Expansion(b) == ""
  {
  }

  /// The frame in the unit test: scheme 00 and "goog".
  lemma UrlExample()
    ensures DecodedUrl(0x00, [0x67, 0x6F, 0x6F, 0x67]) == "http://www.goog"
  {
    var d: bytes := [0x67, 0x6F, 0x6F, 0x67];
    ExpandedText(d);
  }

  // -----------------------------------------------------------------------
  // All detectors

  /// `parse_vendor_protocols`: the detectors in their fixed order, each
  /// contributing its result when it has one.
  method ParseVendorProtocols(p: Packet, order: seq<u16>) returns (protocols: seq<VendorProtocol>)
    requires IsEnumeration(order, p.fields.manufacturerData)
    ensures protocols == VendorProtocolsOf(p, order)
  {
    protocols := [];
    var ib := DetectIBeacon(p);
    if ib.Some? {
      protocols := protocols + [IBeacon(ib.value)];
    }
    assert protocols == Part(ib, x => IBeacon(x));
    var ed := DetectEddystone(p);
    if ed.Some? {
      protocols := protocols + [Eddystone(ed.value)];
    }
    assert protocols == Part(ib, x => IBeacon(x)) + Part(ed, x => Eddystone(x));
    var alt := DetectAltBeacon(p, order);
    if alt.Some? {
      protocols := protocols + [AltBeacon(alt.value)];
    }
    ghost var upTo3 := protocols;
    assert upTo3 == Part(ib, x => IBeacon(x)) + Part(ed, x => Eddystone(x)) + Part(alt, x => AltBeacon(x));
    var co := DetectContinuity(p);
    if co.Some? {
      protocols := protocols + [Continuity(co.value)];
    }
    assert protocols == upTo3 + Part(co, x => Continuity(x));
    var fp := DetectFastPair(p);
    if fp.Some? {
      protocols := protocols + [FastPair(fp.value)];
    }
    assert protocols == upTo3 + Part(co, x => Continuity(x)) + Part(fp, x => FastPair(x));
    var sp := DetectSwiftPair(p);
    if sp.Some? {
      protocols := protocols + [MicrosoftSwiftPair(sp.value)];
    }
    assert protocols == upTo3 + Part(co, x => Continuity(x)) + Part(fp, x => FastPair(x)) + Part(sp, x => MicrosoftSwiftPair(x));
  }

  /// One detector's contribution to the report.
  function Part<T>(o: Option<T>, wrap: T -> VendorProtocol): seq<VendorProtocol>
  {
    if o.Some? then [wrap(o.value)] else []
  }

  /// The report for the six detector results, in order.
  function Listed(ib: Option<IBeaconData>, ed: Option<EddystoneData>, alt: Option<AltBeaconData>,
                  co: Option<AppleContinuity>, fp: Option<GoogleFastPair>, sp: Option<SwiftPair>): seq<VendorProtocol>
  {
    Part(ib, x => IBeacon(x)) + Part(ed, x => Eddystone(x)) + Part(alt, x => AltBeacon(x)) +
    Part(co, x => Continuity(x)) + Part(fp, x => FastPair(x)) + Part(sp, x => MicrosoftSwiftPair(x))
  }

  function VendorProtocolsOf(p: Packet, order: seq<u16>): seq<VendorProtocol>
    requires IsEnumeration(order, p.fields.manufacturerData)
  {
    Listed(DetectIBeacon(p), DetectEddystone(p), AltBeaconIn(order, p.fields.manufacturerData),
           DetectContinuity(p), DetectFastPair(p), SwiftPairOf(p))
  }

  ghost predicate Ranked(r: seq<VendorProtocol>)
  {
    forall i, j :: 0 <= i < j < |r| ==> r[i].Rank() < r[j].Rank()
  }

  lemma RankedAppend(a: seq<VendorProtocol>, b: seq<VendorProtocol>, k: nat)
    requires Ranked(a) && |b| <= 1
    requires forall x :: x in a ==> x.Rank() < k
    requires forall y :: y in b ==> y.Rank() == k
    ensures Ranked(a + b) && forall x :: x in a + b ==> x.Rank() < k + 1
  {
    forall i, j | 0 <= i < j < |a + b|
      ensures (a + b)[i].Rank() < (a + b)[j].Rank()
    {
      if j >= |a| {
        assert (a + b)[i] in a && (a + b)[j] in b;
      }
    }
  }

  /// The report lists at most one result per detector, in the fixed order
  /// iBeacon, Eddystone, AltBeacon, Continuity, Fast Pair, Swift Pair.
  lemma ListedOrder(ib: Option<IBeaconData>, ed: Option<EddystoneData>, alt: Option<AltBeaconData>,
                    co: Option<AppleContinuity>, fp: Option<GoogleFastPair>, sp: Option<SwiftPair>)
    ensures |Listed(ib, ed, alt, co, fp, sp)| <= 6 && Ranked(Listed(ib, ed, alt, co, fp, sp))
  {
    var pa, pb, pc := Part(ib, x => IBeacon(x)), Part(ed, x => Eddystone(x)), Part(alt, x => AltBeacon(x));
    var pd, pe, pf := Part(co, x => Continuity(x)), Part(fp, x => FastPair(x)), Part(sp, x => MicrosoftSwiftPair(x));
    assert Listed(ib, ed, alt, co, fp, sp) == pa + pb + pc + pd + pe + pf;
    assert pa == (if ib.Some? then [IBeacon(ib.value)] else []);
    assert pb == (if ed.Some? then [Eddystone(ed.value)] else []);
    assert pc == (if alt.Some? then [AltBeacon(alt.value)] else []);
    assert pd == (if co.Some? then [Continuity(co.value)] else []);
    assert pe == (if fp.Some? then [FastPair(fp.value)] else []);
    assert pf == (if sp.Some? then [MicrosoftSwiftPair(sp.value)] else []);
    RankedAppend([], pa, 0);
    assert [] + pa == pa;
    RankedAppend(pa, pb, 1);
    RankedAppend(pa + pb, pc, 2);
    RankedAppend(pa + pb + pc, pd, 3);
    RankedAppend(pa + pb + pc + pd, pe, 4);
    RankedAppend(pa + pb + pc + pd + pe, pf, 5);
  }

  /// The report holds each detector's result exactly when it found one.
  lemma ListedContents(ib: Option<IBeaconData>, ed: Option<EddystoneData>, alt: Option<AltBeaconData>,
                       co: Option<AppleContinuity>, fp: Option<GoogleFastPair>, sp: Option<SwiftPair>)
    ensures var r := Listed(ib, ed, alt, co, fp, sp);
      (forall x :: x in r ==>
        (x.IBeacon? ==> ib == Some(x.ibeacon)) && (x.Eddystone? ==> ed == Some(x.eddystone)) &&
        (x.AltBeacon? ==> alt == Some(x.altbeacon)) && (x.Continuity? ==> co == Some(x.continuity)) &&
        (x.FastPair? ==> fp == Some(x.fastPair)) && (x.MicrosoftSwiftPair? ==> sp == Some(x.swiftPair))) &&
      (ib.Some? ==> IBeacon(ib.value) in r) && (ed.Some? ==> Eddystone(ed.value) in r) &&
      (alt.Some? ==> AltBeacon(alt.value) in r) && (co.Some? ==> Continuity(co.value) in r) &&
      (fp.Some? ==> FastPair(fp.value) in r) && (sp.Some? ==> MicrosoftSwiftPair(sp.value) in r)
  {
    var pa, pb, pc := Part(ib, x => IBeacon(x)), Part(ed, x => Eddystone(x)), Part(alt, x => AltBeacon(x));
    var pd, pe, pf := Part(co, x => Continuity(x)), Part(fp, x => FastPair(x)), Part(sp, x => MicrosoftSwiftPair(x));
    assert pa == (if ib.Some? then [IBeacon(ib.value)] else []);
    assert pb == (if ed.Some? then [Eddystone(ed.value)] else []);
    assert pc == (if alt.Some? then [AltBeacon(alt.value)] else []);
    assert pd == (if co.Some? then [Continuity(co.value)] else []);
    assert pe == (if fp.Some? then [FastPair(fp.value)] else []);
    assert pf == (if sp.Some? then [MicrosoftSwiftPair(sp.value)] else []);
    assert forall x :: x in Listed(ib, ed, alt, co, fp, sp) <==>
      x in pa || x in pb || x in pc || x in pd || x in pe || x in pf;
  }

  /// The same, for the report of a packet.
  lemma VendorOrder(p: Packet, order: seq<u16>)
    requires IsEnumeration(order, p.fields.manufacturerData)
    ensures Ranked(VendorProtocolsOf(p, order)) && |VendorProtocolsOf(p, order)| <= 6
    ensures DetectIBeacon(p).Some? <==> exists x :: x in VendorProtocolsOf(p, order) && x.IBeacon?
    ensures SwiftPairOf(p).Some? <==> exists x :: x in VendorProtocolsOf(p, order) && x.MicrosoftSwiftPair?
  {
    var ib, ed, alt := DetectIBeacon(p), DetectEddystone(p), AltBeaconIn(order, p.fields.manufacturerData);
    var co, fp, sp := DetectContinuity(p), DetectFastPair(p), SwiftPairOf(p);
    ListedOrder(ib, ed, alt, co, fp, sp);
    ListedContents(ib, ed, alt, co, fp, sp);
  }
}
