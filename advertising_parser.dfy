// The typed advertising-data parser: a walk over length-prefixed AD
// structures (Bluetooth Core Specification, Vol 3, Part C, section 11) that
// records every structure and fills the typed fields of a packet record.

module AdvertisingParser {
  import opened Common
  import Utf8

  /// AD type 0x01 bit field.
  datatype AdvertisingFlags = AdvertisingFlags(
    leLimitedDiscoverable: bool,
    leGeneralDiscoverable: bool,
    brEdrNotSupported: bool,
    simultaneousLeBrEdrController: bool,
    simultaneousLeBrEdrHost: bool)

  /// One recorded AD structure: its type and its data bytes (the structure
  /// minus its length and type bytes). The name and description the parser
  /// stores beside them are always those of the type, so they are derived
  /// here rather than stored.
  datatype ParsedAdStructure = ParsedAdStructure(adType: byte, data: bytes)
  {
    function TypeName(): string { AdTypeInfo(adType).0 }
    function Description(): string { AdTypeInfo(adType).1 }
  }

  /// The typed fields of the packet record (flat in the source; grouped
  /// here so that the record the walk threads through stays small).
  datatype TypedFields = TypedFields(
    flags: Option<AdvertisingFlags>,
    localName: Option<string>,
    shortName: Option<string>,
    txPower: Option<i8>,
    appearance: Option<u16>,
    services16bit: seq<u16>,
    services128bit: seq<string>,
    services32bit: seq<u32>,
    serviceData16: map<u16, bytes>,
    serviceData128: map<string, bytes>,
    serviceData32: map<u32, bytes>,
    manufacturerData: map<u16, bytes>)

  /// The packet record the parser fills in place.
  datatype ParsedAdvertisingPacket = ParsedAdvertisingPacket(
    macAddress: string,
    rssi: i8,
    fields: TypedFields,
    adStructures: seq<ParsedAdStructure>,
    isScanResponse: bool,
    isExtendedAdvertising: bool)

  function EmptyFields(): TypedFields
  {
    TypedFields(None, None, None, None, None, [], [], [], map[], map[], map[], map[])
  }

  function DefaultPacket(): ParsedAdvertisingPacket
  {
    ParsedAdvertisingPacket("", -100, EmptyFields(), [], false, false)
  }

  // -----------------------------------------------------------------------
  // Flags

  function FlagsFromByte(b: byte): AdvertisingFlags
  {
    AdvertisingFlags(Bit(b, 0), Bit(b, 1), Bit(b, 2), Bit(b, 3), Bit(b, 4))
  }

  /// The five flags as bits 0..4.
  function FlagsBits(f: AdvertisingFlags): seq<bool>
  {
    [f.leLimitedDiscoverable, f.leGeneralDiscoverable, f.brEdrNotSupported,
     f.simultaneousLeBrEdrController, f.simultaneousLeBrEdrHost]
  }

  /// from_byte reads exactly bits 0..4: re-encoding the flags gives the low
  /// five bits back, and every flag combination is read back unchanged.
  lemma FlagsFromByteRoundTrip(b: byte)
    ensures BitsValue(FlagsBits(FlagsFromByte(b))) == b % 32
  {
    var bs, cs := FlagsBits(FlagsFromByte(b)), Bits(b, 5);
    forall k | 0 <= k < 5 ensures bs[k] == cs[k] { }
    assert bs == cs;
    BitsValueOfBits(b, 5);
    assert Pow2(5) == 32;
  }

  lemma FlagsToByteRoundTrip(f: AdvertisingFlags)
    ensures BitsValue(FlagsBits(f)) < 32 && FlagsFromByte(BitsValue(FlagsBits(f))) == f
  {
    var bs := FlagsBits(f);
    BitsOfBitsValue(bs);
    assert Pow2(5) == 32;
    var cs := Bits(BitsValue(bs), 5);
    assert cs[0] == bs[0] && cs[1] == bs[1] && cs[2] == bs[2] && cs[3] == bs[3] && cs[4] == bs[4];
  }

  lemma FlagsExample()
    ensures FlagsFromByte(0x06) == AdvertisingFlags(false, true, true, false, false)
  {
    assert Pow2(1) == 2 && Pow2(2) == 4 && Pow2(3) == 8 && Pow2(4) == 16;
  }

  // -----------------------------------------------------------------------
  // The structure walk

  /// An AD structure as the walk delivers it.
  datatype AdElement = AdElement(adType: byte, data: bytes)

  /// The structures `parse_ad_structures` visits, in payload order: stop at a
  /// zero length byte, or when `pos + len + 1` would run past the buffer.
  function AdElements(raw: bytes): seq<AdElement>
    decreases |raw|
  {
    if raw == [] then []
    else
      var len := raw[0];
      if len == 0 || len + 1 > |raw| then []
      else [AdElement(raw[1], raw[2..len + 1])] + AdElements(raw[len + 1..])
  }

  /// A structure whose length byte can say how long it is.
  predicate Encodable(e: AdElement) { |e.data| <= 254 }

  /// `[len, type] + data` with `len = |data| + 1` (modulo 256, so that the
  /// function is total; only encodable structures are written back).
  function EncodeElement(e: AdElement): (r: bytes)
    ensures |r| == |e.data| + 2 && r[1] == e.adType && r[2..] == e.data
    ensures Encodable(e) ==> r[0] == |e.data| + 1
  {
    [TruncByte(|e.data| + 1), e.adType] + e.data
  }

  /// The wire form of a list of structures.
  function Serialize(es: seq<AdElement>): (r: bytes)
  {
    if es == [] then [] else EncodeElement(es[0]) + Serialize(es[1..])
  }

  lemma {:induction false} AdElementsEncodable(raw: bytes)
    ensures forall i :: 0 <= i < |AdElements(raw)| ==> Encodable(AdElements(raw)[i])
    decreases |raw|
  {
    if raw != [] && raw[0] != 0 && raw[0] + 1 <= |raw| {
      AdElementsEncodable(raw[raw[0] + 1..]);
    }
  }

  /// Every structure the walk accepts is complete inside the input: the
  /// accepted structures, written back with length byte `|data| + 1`, are a
  /// prefix of the input, so the bytes consumed never exceed it.
  lemma {:induction false} ScanConsumesPrefix(raw: bytes)
    ensures Serialize(AdElements(raw)) <= raw
    decreases |raw|
  {
    if raw != [] && raw[0] != 0 && raw[0] + 1 <= |raw| {
      var len := raw[0] as int;
      var rest := raw[len + 1..];
      ScanConsumesPrefix(rest);
      HeadElementEncodes(raw);
      PrefixAfterHead(raw, len + 1, Serialize(AdElements(raw)), Serialize(AdElements(rest)));
    }
  }

  /// The first accepted structure, written back, is the first `len + 1`
  /// bytes of the input, and the rest of the walk serializes after it.
  lemma HeadElementEncodes(raw: bytes)
    requires raw != [] && raw[0] != 0 && raw[0] + 1 <= |raw|
    ensures Serialize(AdElements(raw)) == raw[..raw[0] + 1] + Serialize(AdElements(raw[raw[0] + 1..]))
  {
    var es := AdElements(raw);
    var rest := raw[raw[0] + 1..];
    var e := AdElement(raw[1], raw[2..raw[0] + 1]);
    assert es == [e] + AdElements(rest);
    assert es[1..] == AdElements(rest);
    EncodeHead(raw);
  }

  lemma EncodeHead(raw: bytes)
    requires raw != [] && raw[0] != 0 && raw[0] + 1 <= |raw|
    ensures EncodeElement(AdElement(raw[1], raw[2..raw[0] + 1])) == raw[..raw[0] + 1]
  {
    var n := raw[0] as int + 1;
    var h := EncodeElement(AdElement(raw[1], raw[2..n]));
    assert h[0] == raw[0] && h[1] == raw[1] && h[2..] == raw[2..n] && |h| == n;
    forall i | 0 <= i < n
      ensures h[i] == raw[..n][i]
    {
      if i >= 2 {
        assert h[i] == h[2..][i - 2];
      }
    }
    assert |raw[..n]| == n;
  }

  lemma PrefixAfterHead(raw: bytes, k: nat, s: bytes, t: bytes)
    requires k <= |raw| && s == raw[..k] + t && t <= raw[k..]
    ensures s <= raw
  {
    assert raw == raw[..k] + raw[k..];
    assert (raw[..k] + raw[k..])[..|s|] == s;
  }

  /// A written-back structure is read back first, whatever follows it.
  lemma AdElementsOfEncoded(e: AdElement, tail: bytes)
    requires Encodable(e)
    ensures AdElements(EncodeElement(e) + tail) == [e] + AdElements(tail)
  {
    var h := EncodeElement(e);
    var raw := h + tail;
    var n := |e.data| + 2;
    assert raw[0] == h[0] && raw[1] == h[1];
    assert raw[2..n] == h[2..] by {
      forall i | 2 <= i < n
        ensures raw[i] == h[i]
      {
      }
    }
    assert raw[n..] == tail;
  }

  /// Writing structures out and walking them gives the same structures back.
  lemma {:induction false} ScanRoundTrip(es: seq<AdElement>)
    requires forall i :: 0 <= i < |es| ==> Encodable(es[i])
    ensures AdElements(Serialize(es)) == es
  {
    if es != [] {
      AdElementsOfEncoded(es[0], Serialize(es[1..]));
      ScanRoundTrip(es[1..]);
      assert es == [es[0]] + es[1..];
    }
  }

  /// The walk stops at a zero length byte or at a structure that overruns
  /// the buffer, and records nothing of it or of what follows.
  lemma {:induction false} ScanStopRule(es: seq<AdElement>, tail: bytes)
    requires forall i :: 0 <= i < |es| ==> Encodable(es[i])
    requires tail != [] && (tail[0] == 0 || tail[0] + 1 > |tail|)
    ensures AdElements(Serialize(es) + tail) == es
  {
    if es != [] {
      assert Serialize(es) + tail == EncodeElement(es[0]) + (Serialize(es[1..]) + tail);
      AdElementsOfEncoded(es[0], Serialize(es[1..]) + tail);
      ScanStopRule(es[1..], tail);
      assert es == [es[0]] + es[1..];
    } else {
      assert Serialize(es) + tail == tail;
    }
  }

  // -----------------------------------------------------------------------
  // AD type names

  function AdTypeInfo(adType: byte): (string, string)
  {
    match adType
      case 0x01 => ("Flags", "LE Limited Discoverable Mode, LE General Discoverable Mode, BR/EDR Not Supported, etc.")
      case 0x02 => ("Incomplete List of 16-bit UUIDs", "Incomplete list of 16-bit service UUIDs")
      case 0x03 => ("Complete List of 16-bit UUIDs", "Complete list of 16-bit service UUIDs")
      case 0x04 => ("Incomplete List of 32-bit UUIDs", "Incomplete list of 32-bit service UUIDs")
      case 0x05 => ("Complete List of 32-bit UUIDs", "Complete list of 32-bit service UUIDs")
      case 0x06 => ("Incomplete List of 128-bit UUIDs", "Incomplete list of 128-bit service UUIDs")
      case 0x07 => ("Complete List of 128-bit UUIDs", "Complete list of 128-bit service UUIDs")
      case 0x08 => ("Shortened Local Name", "Short name of the device")
      case 0x09 => ("Complete Local Name", "Full name of the device")
      case 0x0A => ("TX Power Level", "Transmit power level in dBm")
      case 0x0D => ("Class of Device", "Class of device for Bluetooth Classic")
      case 0x0E => ("Simple Pairing Hash C", "Simple Pairing Hash C for legacy pairing")
      case 0x0F => ("List of 32-bit Service UUIDs", "List of 32-bit service UUIDs")
      case 0x10 => ("Service Data - 16-bit UUID", "Service data with 16-bit UUID")
      case 0x11 => ("Public Target Address", "Public target address for directed advertising")
      case 0x12 => ("Random Target Address", "Random target address for directed advertising")
      case 0x13 => ("Appearance", "External appearance of the device")
      case 0x14 => ("Advertising Interval", "Advertising interval")
      case 0x15 => ("LE Bluetooth Device Address", "LE Bluetooth device address")
      case 0x16 => ("LE Role", "LE Role (Peripheral only, Central only, Peripheral and Central)")
      case 0x17 => ("Simple Pairing Hash C-256", "Simple Pairing Hash C-256 for LE Secure Connections")
      case 0x18 => ("Simple Pairing Randomizer R-256", "Simple Pairing Randomizer R-256 for LE Secure Connections")
      case 0x19 => ("Flags (32-bit)", "32-bit version of flags")
      case 0x1A => ("Service Data - 32-bit UUID", "Service data with 32-bit UUID")
      case 0x1B => ("Service Data - 128-bit UUID", "Service data with 128-bit UUID")
      case 0x1C => ("LE Secure Connections Confirmation Value", "LE Secure Connections Confirmation Value")
      case 0x1D => ("LE Secure Connections Random Value", "LE Secure Connections Random Value")
      case 0x1E => ("URI", "Uniform Resource Identifier")
      case 0x1F => ("Indoor Positioning", "Indoor positioning information")
      case 0x20 => ("Transport Discovery Data", "Transport discovery data")
      case 0x21 => ("LE Supported Features", "LE Supported Features")
      case 0x22 => ("Channel Map Update Indication", "Channel Map Update Indication")
      case 0x23 => ("PB-ADV", "Mesh Provisioning Advertising")
      case 0x24 => ("Mesh Message", "Mesh Message")
      case 0x25 => ("Mesh Beacon", "Mesh Beacon")
      case 0x26 => ("Big Info", "BIG Information")
      case 0x27 => ("Broadcast Code", "Broadcast Code")
      case 0x28 => ("Resolvable Set ID", "Resolvable Set Identifier (RSIS)")
      case 0x29 => ("Advertising Interval - long", "Advertising Interval (Long)")
      case 0x3D => ("3D Information Data", "3D Information Data")
      case 0xFF => ("Manufacturer Specific Data", "Manufacturer-specific advertising data")
      case _ => ("Unknown (0x" + Hex2Upper(adType) + ")", "Unknown AD type")
  }

  /// The AD types the name table knows.
  predicate KnownAdType(t: byte)
  {
    t in {0x01, 0x02, 0x03, 0x04, 0x05, 0x06, 0x07, 0x08, 0x09, 0x0A, 0x0D, 0x0E, 0x0F,
          0x10, 0x11, 0x12, 0x13, 0x14, 0x15, 0x16, 0x17, 0x18, 0x19, 0x1A, 0x1B, 0x1C, 0x1D,
          0x1E, 0x1F, 0x20, 0x21, 0x22, 0x23, 0x24, 0x25, 0x26, 0x27, 0x28, 0x29, 0x3D, 0xFF}
  }

  /// An unknown type is named "Unknown (0xTT)" with two upper-case digits and
  /// described as "Unknown AD type".
  lemma AdTypeInfoFallback(t: byte)
    requires !KnownAdType(t)
    ensures AdTypeInfo(t) == ("Unknown (0x" + Hex2Upper(t) + ")", "Unknown AD type")
  {
  }

  // -----------------------------------------------------------------------
  // UUID lists: `data.chunks(w)`, full chunks only, no duplicates

  /// Number of full chunks of width `w` (`|data| / w`).
  function NumChunks(data: bytes, w: nat): nat
    requires w > 0
    decreases |data|
  {
    if |data| < w then 0 else 1 + NumChunks(data[w..], w)
  }

  /// The `k`-th full chunk of width `w`.
  function ChunkAt(data: bytes, w: nat, k: nat): (r: bytes)
    requires w > 0 && k < NumChunks(data, w)
    ensures |r| == w
    decreases k
  {
    if k == 0 then data[..w] else ChunkAt(data[w..], w, k - 1)
  }

  /// The chunks are the consecutive `w`-byte slices of `data`; a trailing
  /// partial chunk is not one of them.
  lemma {:induction false} ChunkAtIsSlice(data: bytes, w: nat, k: nat)
    requires w > 0 && k < NumChunks(data, w)
    ensures (k + 1) * w <= |data| && ChunkAt(data, w, k) == data[k * w..(k + 1) * w]
    decreases |data|
  {
    MulSucc(k, w);
    if k > 0 {
      ChunkAtIsSlice(data[w..], w, k - 1);
      MulSucc(k - 1, w);
      assert data[w..][(k - 1) * w..k * w] == data[k * w..(k + 1) * w];
    }
  }

  lemma MulSucc(k: nat, w: nat)
    ensures (k + 1) * w == k * w + w && k * w >= 0
  {
  }

  lemma {:induction false} NumChunksBound(data: bytes, w: nat)
    requires w > 0
    ensures NumChunks(data, w) * w <= |data| < (NumChunks(data, w) + 1) * w
    decreases |data|
  {
    if |data| >= w {
      NumChunksBound(data[w..], w);
      var n := NumChunks(data[w..], w);
      assert (n + 1) * w == n * w + w && (n + 2) * w == (n + 1) * w + w;
    }
  }

  function AddUnique<T(==)>(list: seq<T>, x: T): seq<T>
  {
    if x in list then list else list + [x]
  }

  /// The list after pushing the decoded value of every full chunk of `data`
  /// that is not already present.
  function NewChunksAfter<T(==)>(list: seq<T>, data: bytes, w: nat, decode: bytes -> T): seq<T>
    requires w > 0
    decreases |data|
  {
    if |data| < w then list else NewChunksAfter(AddUnique(list, decode(data[..w])), data[w..], w, decode)
  }

  ghost predicate NoDuplicates<T>(s: seq<T>)
  {
    forall i, j :: 0 <= i < j < |s| ==> s[i] != s[j]
  }

  /// `x` is the decoding of some full chunk of `data`.
  ghost predicate DecodesSomeChunk<T>(data: bytes, w: nat, decode: bytes -> T, x: T)
    requires w > 0
  {
    exists k :: 0 <= k < NumChunks(data, w) && decode(ChunkAt(data, w, k)) == x
  }

  /// A value is in the final list iff it was there already or it decodes
  /// some full chunk; a trailing partial chunk contributes nothing.
  lemma {:induction false} NewChunksContents<T>(list: seq<T>, data: bytes, w: nat, decode: bytes -> T, x: T)
    requires w > 0
    ensures x in NewChunksAfter(list, data, w, decode) <==> x in list || DecodesSomeChunk(data, w, decode, x)
    decreases |data|
  {
    if |data| >= w {
      var tail := data[w..];
      var v := decode(data[..w]);
      assert NewChunksAfter(list, data, w, decode) == NewChunksAfter(AddUnique(list, v), tail, w, decode);
      NewChunksContents(AddUnique(list, v), tail, w, decode, x);
      assert x in AddUnique(list, v) <==> x in list || x == v;
      assert DecodesSomeChunk(data, w, decode, x) <==> x == v || DecodesSomeChunk(tail, w, decode, x) by {
        assert NumChunks(data, w) == 1 + NumChunks(tail, w);
        assert ChunkAt(data, w, 0) == data[..w];
        if DecodesSomeChunk(tail, w, decode, x) {
          var k :| 0 <= k < NumChunks(tail, w) && decode(ChunkAt(tail, w, k)) == x;
          assert ChunkAt(data, w, k + 1) == ChunkAt(tail, w, k);
        }
        if DecodesSomeChunk(data, w, decode, x) {
          var k :| 0 <= k < NumChunks(data, w) && decode(ChunkAt(data, w, k)) == x;
          if k > 0 {
            assert ChunkAt(data, w, k) == ChunkAt(tail, w, k - 1);
          }
        }
      }
    }
  }

  /// The list only grows at its end and never acquires a duplicate.
  lemma {:induction false} NewChunksKeepsUnique<T>(list: seq<T>, data: bytes, w: nat, decode: bytes -> T)
    requires w > 0 && NoDuplicates(list)
    ensures NoDuplicates(NewChunksAfter(list, data, w, decode))
    ensures list <= NewChunksAfter(list, data, w, decode)
    decreases |data|
  {
    if |data| >= w {
      var next := AddUnique(list, decode(data[..w]));
      NewChunksKeepsUnique(next, data[w..], w, decode);
    }
  }

  /// The pushing loop of the three UUID-list parsers.
  method AddNewChunks<T(==)>(data: bytes, list: seq<T>, w: nat, decode: bytes -> T) returns (r: seq<T>)
    requires w > 0
    ensures r == NewChunksAfter(list, data, w, decode)
  {
    r := list;
    var i := 0;
    while i < |data|
      invariant 0 <= i <= |data|
      invariant NewChunksAfter(r, data[i..], w, decode) == NewChunksAfter(list, data, w, decode)
    {
      var end := if i + w <= |data| then i + w else |data|;
      var chunk := data[i..end];
      if |chunk| == w {
        assert data[i..][..w] == chunk && data[i..][w..] == data[end..];
        var v := decode(chunk);
        if v !in r {
          r := r + [v];
        }
      }
      i := end;
    }
  }

  function DecodeUuid16(c: bytes): u16
  {
    if |c| == 2 then U16Le(c[0], c[1]) else 0
  }

  function DecodeUuid32(c: bytes): u32
  {
    if |c| == 4 then U32Le(c[0], c[1], c[2], c[3]) else 0
  }

  /// The 36-character text of a 128-bit UUID stored little-endian in the
  /// first three groups: bytes 3..0, 5..4, 7..6, then 8..9 and 10..15 in order.
  function FormatUuid128(c: bytes): (r: string)
    requires |c| == 16
    ensures |r| == 36
  {
    HexLower([c[3], c[2], c[1], c[0]]) + "-" + HexLower([c[5], c[4]]) + "-" +
    HexLower([c[7], c[6]]) + "-" + HexLower(c[8..10]) + "-" + HexLower(c[10..16])
  }

  function DecodeUuid128(c: bytes): string
  {
    if |c| == 16 then FormatUuid128(c) else ""
  }

  /// Distinct UUID bytes give distinct UUID texts, so de-duplicating the
  /// texts de-duplicates the UUIDs.
  lemma FormatUuid128Injective(a: bytes, b: bytes)
    requires |a| == 16 && |b| == 16 && FormatUuid128(a) == FormatUuid128(b)
    ensures a == b
  {
    UuidParts(a);
    UuidParts(b);
    HexLowerInjective([a[3], a[2], a[1], a[0]], [b[3], b[2], b[1], b[0]]);
    HexLowerInjective([a[5], a[4]], [b[5], b[4]]);
    HexLowerInjective([a[7], a[6]], [b[7], b[6]]);
    HexLowerInjective(a[8..10], b[8..10]);
    HexLowerInjective(a[10..16], b[10..16]);
    assert a == a[..10] + a[10..16] && b == b[..10] + b[10..16];
  }

  /// Where each group of bytes sits in the UUID text.
  lemma UuidParts(c: bytes)
    requires |c| == 16
    ensures FormatUuid128(c)[0..8] == HexLower([c[3], c[2], c[1], c[0]])
    ensures FormatUuid128(c)[9..13] == HexLower([c[5], c[4]])
    ensures FormatUuid128(c)[14..18] == HexLower([c[7], c[6]])
    ensures FormatUuid128(c)[19..23] == HexLower(c[8..10])
    ensures FormatUuid128(c)[24..36] == HexLower(c[10..16])
  {
    var g1, g2, g3 := HexLower([c[3], c[2], c[1], c[0]]), HexLower([c[5], c[4]]), HexLower([c[7], c[6]]);
    var g4, g5 := HexLower(c[8..10]), HexLower(c[10..16]);
    var s := FormatUuid128(c);
    assert s == g1 + "-" + g2 + "-" + g3 + "-" + g4 + "-" + g5;
    assert |g1| == 8 && |g2| == 4 && |g3| == 4 && |g4| == 4 && |g5| == 12;
  }

  lemma Uuid16Example()
    ensures NewChunksAfter([], [0x0D, 0x18], 2, DecodeUuid16) == [0x180D]
  {
    var d: bytes := [0x0D, 0x18];
    assert d[..2] == d && d[2..] == [];
  }

  // -----------------------------------------------------------------------
  // Single-field parsers

  /// `parse_appearance`: two little-endian bytes, or None.
  function ParseAppearance(data: bytes): (r: Option<u16>)
  {
    if |data| >= 2 then Some(U16Le(data[0], data[1])) else None
  }

  /// Appearance is the inverse of writing a 16-bit value little-endian;
  /// fewer than two bytes give None.
  lemma AppearanceRoundTrip(v: u16, rest: bytes, short: bytes)
    requires |short| < 2
    ensures ParseAppearance(U16LeBytes(v) + rest) == Some(v)
    ensures ParseAppearance(short) == None
  {
  }

  // -----------------------------------------------------------------------
  // One structure

  /// The structure record `parse_ad_structure` pushes.
  function RecordOf(t: byte, d: bytes): ParsedAdStructure
  {
    ParsedAdStructure(t, d)
  }

  /// Types that carry lists of service UUIDs (complete or incomplete, 16-,
  /// 32- and 128-bit, plus the 128-bit solicitation list).
  predicate IsServiceListType(t: byte)
  {
    t == 0x02 || t == 0x03 || t == 0x06 || t == 0x07 || t == 0x14 || t == 0x0F || t == 0x1F
  }

  /// Types whose data is keyed by a leading identifier (service data and
  /// manufacturer data).
  predicate IsKeyedDataType(t: byte)
  {
    t == 0x10 || t == 0x15 || t == 0x20 || t == 0xFF
  }

  /// Service-list structures push each new UUID once.
  function UpdateServiceList(q: TypedFields, t: byte, d: bytes): TypedFields
  {
    if t == 0x02 || t == 0x03 then q.(services16bit := NewChunksAfter(q.services16bit, d, 2, DecodeUuid16))
    else if t == 0x06 || t == 0x07 || t == 0x14 then
      q.(services128bit := NewChunksAfter(q.services128bit, d, 16, DecodeUuid128))
    else if t == 0x0F || t == 0x1F then q.(services32bit := NewChunksAfter(q.services32bit, d, 4, DecodeUuid32))
    else q
  }

  /// Keyed structures insert (or replace) one map entry when the key fits.
  function UpdateKeyedData(q: TypedFields, t: byte, d: bytes): TypedFields
  {
    if t == 0x10 then
      (if |d| >= 2 then q.(serviceData16 := q.serviceData16[U16Le(d[0], d[1]) := d[2..]]) else q)
    else if t == 0x15 then
      (if |d| >= 16 then q.(serviceData128 := q.serviceData128[FormatUuid128(d[..16]) := d[16..]]) else q)
    else if t == 0x20 then
      (if |d| >= 4 then q.(serviceData32 := q.serviceData32[U32Le(d[0], d[1], d[2], d[3]) := d[4..]]) else q)
    else if t == 0xFF then
      (if |d| >= 2 then q.(manufacturerData := q.manufacturerData[U16Le(d[0], d[1]) := d[2..]]) else q)
    else q
  }

  /// The remaining typed fields: flags, names, TX power and appearance;
  /// any other type changes nothing.
  function UpdateScalarField(q: TypedFields, t: byte, d: bytes): TypedFields
  {
    if t == 0x01 then (if |d| > 0 then q.(flags := Some(FlagsFromByte(d[0]))) else q)
    else if t == 0x08 then q.(shortName := Utf8.Decode(d))
    else if t == 0x09 then q.(localName := Utf8.Decode(d))
    else if t == 0x0A then (if |d| > 0 then q.(txPower := Some(AsI8(d[0]))) else q)
    else if t == 0x16 then q.(appearance := ParseAppearance(d))
    else q
  }

  /// The typed-field update that follows the record.
  function UpdateTypedField(q: TypedFields, t: byte, d: bytes): TypedFields
  {
    if IsServiceListType(t) then UpdateServiceList(q, t, d)
    else if IsKeyedDataType(t) then UpdateKeyedData(q, t, d)
    else UpdateScalarField(q, t, d)
  }

  /// What `parse_ad_structure` does to the packet: record the structure, then
  /// update the field its type selects.
  function ApplyStructure(p: ParsedAdvertisingPacket, t: byte, d: bytes): ParsedAdvertisingPacket
  {
    p.(adStructures := p.adStructures + [RecordOf(t, d)], fields := UpdateTypedField(p.fields, t, d))
  }

  /// The service-list arms of `parse_ad_structure`, with their chunk loops.
  method AddServiceUuids(adType: byte, data: bytes, q: TypedFields) returns (p: TypedFields)
    ensures p == UpdateServiceList(q, adType, data)
  {
    p := q;
    if adType == 0x02 || adType == 0x03 {
      var l := AddNewChunks(data, q.services16bit, 2, DecodeUuid16);
      p := q.(services16bit := l);
    } else if adType == 0x06 || adType == 0x07 || adType == 0x14 {
      var l := AddNewChunks(data, q.services128bit, 16, DecodeUuid128);
      p := q.(services128bit := l);
    } else if adType == 0x0F || adType == 0x1F {
      var l := AddNewChunks(data, q.services32bit, 4, DecodeUuid32);
      p := q.(services32bit := l);
    }
  }

  /// `parse_ad_structure`: push the structure record, then dispatch on the
  /// type; only the service-list arms loop.
  method ParseAdStructure(adType: byte, data: bytes, packet: ParsedAdvertisingPacket) returns (p: ParsedAdvertisingPacket)
    ensures p == ApplyStructure(packet, adType, data)
  {
    var f: TypedFields;
    if IsServiceListType(adType) {
      f := AddServiceUuids(adType, data, packet.fields);
    } else if IsKeyedDataType(adType) {
      f := UpdateKeyedData(packet.fields, adType, data);
    } else {
      f := UpdateScalarField(packet.fields, adType, data);
    }
    p := packet.(adStructures := packet.adStructures + [RecordOf(adType, data)], fields := f);
  }

  /// The records `parse_ad_structure` appends for the structures `es`.
  function RecordsOf(es: seq<AdElement>): seq<ParsedAdStructure>
  {
    seq(|es|, i requires 0 <= i < |es| => RecordOf(es[i].adType, es[i].data))
  }

  /// The typed fields after the updates of `es`, in order.
  function FieldsAfter(f: TypedFields, es: seq<AdElement>): TypedFields
    decreases |es|
  {
    if es == [] then f
    else
      var last := es[|es| - 1];
      UpdateTypedField(FieldsAfter(f, es[..|es| - 1]), last.adType, last.data)
  }

  /// The packet after `parse_ad_structure` has run on each structure in
  /// turn: one record per structure, in payload order, the typed fields
  /// folded in the same order, and the address, RSSI and markers untouched.
  function ApplyAll(p: ParsedAdvertisingPacket, es: seq<AdElement>): ParsedAdvertisingPacket
  {
    p.(adStructures := p.adStructures + RecordsOf(es), fields := FieldsAfter(p.fields, es))
  }

  lemma RecordsOfSnoc(es: seq<AdElement>, e: AdElement)
    ensures RecordsOf(es + [e]) == RecordsOf(es) + [RecordOf(e.adType, e.data)]
  {
    var l := RecordsOf(es + [e]);
    var r := RecordsOf(es) + [RecordOf(e.adType, e.data)];
    assert |l| == |r|;
    forall i | 0 <= i < |l|
      ensures l[i] == r[i]
    {
      if i < |es| {
        assert (es + [e])[i] == es[i];
      }
    }
  }

  /// Running the walk one structure further is one more
  /// `parse_ad_structure` call.
  lemma ApplyAllSnoc(p: ParsedAdvertisingPacket, es: seq<AdElement>, e: AdElement)
    ensures ApplyAll(p, es + [e]) == ApplyStructure(ApplyAll(p, es), e.adType, e.data)
  {
    assert (es + [e])[..|es|] == es;
    RecordsOfSnoc(es, e);
    assert p.adStructures + RecordsOf(es + [e]) == (p.adStructures + RecordsOf(es)) + [RecordOf(e.adType, e.data)];
  }

  /// The walk from offset `pos`, indexed the way the cursor loop reads
  /// the buffer.
  function ElementsFrom(raw: bytes, pos: nat): seq<AdElement>
    requires pos <= |raw|
    decreases |raw| - pos
  {
    if pos == |raw| then []
    else
      var len := raw[pos] as int;
      if len == 0 || pos + len + 1 > |raw| then []
      else [AdElement(raw[pos + 1], raw[pos + 2..pos + len + 1])] + ElementsFrom(raw, pos + len + 1)
  }

  /// One accepted structure moves from the rest of the walk to the
  /// structures already visited.
  lemma ElementsFromStep(raw: bytes, pos: nat, done: seq<AdElement>)
    requires pos < |raw| && raw[pos] != 0 && pos + raw[pos] as int + 1 <= |raw|
    ensures done + ElementsFrom(raw, pos) ==
      (done + [AdElement(raw[pos + 1], raw[pos + 2..pos + raw[pos] as int + 1])]) + ElementsFrom(raw, pos + raw[pos] as int + 1)
  {
  }

  /// The cursor's view agrees with the walk over the remaining bytes.
  lemma {:induction false} ElementsFromSuffix(raw: bytes, pos: nat)
    requires pos <= |raw|
    ensures ElementsFrom(raw, pos) == AdElements(raw[pos..])
    decreases |raw| - pos
  {
    var t := raw[pos..];
    if pos == |raw| {
      assert t == [];
    } else {
      var len := raw[pos] as int;
      assert t[0] == raw[pos] && |t| == |raw| - pos;
      if len != 0 && pos + len + 1 <= |raw| {
        ElementsFromSuffix(raw, pos + len + 1);
        SuffixSlices(raw, pos, len);
        AdElementsUnfold(t);
      }
    }
  }

  lemma AdElementsUnfold(t: bytes)
    requires t != [] && t[0] != 0 && t[0] as int + 1 <= |t|
    ensures AdElements(t) == [AdElement(t[1], t[2..t[0] as int + 1])] + AdElements(t[t[0] as int + 1..])
  {
  }

  /// The walk over a suffix that starts with an accepted structure.
  lemma SuffixStep(raw: bytes, pos: nat)
    requires pos < |raw| && raw[pos] != 0 && pos + raw[pos] as int + 1 <= |raw|
    ensures AdElements(raw[pos..]) ==
      [AdElement(raw[pos + 1], raw[pos + 2..pos + raw[pos] as int + 1])] + AdElements(raw[pos + raw[pos] as int + 1..])
  {
    var t := raw[pos..];
    assert t[0] == raw[pos] && |t| == |raw| - pos;
    SuffixSlices(raw, pos, raw[pos] as int);
    AdElementsUnfold(t);
  }

  /// The walk over a suffix that is empty or starts with a zero or
  /// overlong length finds nothing.
  lemma SuffixStop(raw: bytes, pos: nat)
    requires pos <= |raw|
    requires pos == |raw| || raw[pos] == 0 || pos + raw[pos] as int >= |raw|
    ensures AdElements(raw[pos..]) == []
  {
    var t := raw[pos..];
    assert |t| == |raw| - pos;
    if pos < |raw| {
      assert t[0] == raw[pos];
    }
  }

  lemma SuffixSlices(raw: bytes, pos: nat, len: nat)
    requires 1 <= len && pos + len + 1 <= |raw|
    ensures raw[pos..][1] == raw[pos + 1]
    ensures raw[pos..][2..len + 1] == raw[pos + 2..pos + len + 1]
    ensures raw[pos..][len + 1..] == raw[pos + len + 1..]
  {
  }

  /// One turn of the cursor loop: the structure at `pos` moves from the rest
  /// of the walk to the structures already applied.
  lemma WalkStep(raw: bytes, pos: nat, done: seq<AdElement>, packet: ParsedAdvertisingPacket,
                 p: ParsedAdvertisingPacket, q: ParsedAdvertisingPacket)
    requires pos < |raw| && raw[pos] != 0 && pos + raw[pos] as int + 1 <= |raw|
    requires AdElements(raw) == done + ElementsFrom(raw, pos)
    requires p == ApplyAll(packet, done)
    requires q == ApplyStructure(p, raw[pos + 1], raw[pos + 2..pos + raw[pos] as int + 1])
    ensures var e := AdElement(raw[pos + 1], raw[pos + 2..pos + raw[pos] as int + 1]);
      AdElements(raw) == (done + [e]) + ElementsFrom(raw, pos + raw[pos] as int + 1) &&
      q == ApplyAll(packet, done + [e])
  {
    ElementsFromStep(raw, pos, done);
    ApplyAllSnoc(packet, done, AdElement(raw[pos + 1], raw[pos + 2..pos + raw[pos] as int + 1]));
  }

  /// `parse_ad_structures`: the cursor loop.
  method ParseAdStructures(raw: bytes, packet: ParsedAdvertisingPacket) returns (p: ParsedAdvertisingPacket)
    ensures p == ApplyAll(packet, AdElements(raw))
  {
    p := packet;
    var pos := 0;
    ghost var done: seq<AdElement> := [];
    ElementsFromSuffix(raw, 0);
    assert raw[0..] == raw;
    while pos < |raw|
      invariant 0 <= pos <= |raw|
      invariant AdElements(raw) == done + ElementsFrom(raw, pos)
      invariant p == ApplyAll(packet, done)
    {
      var len := raw[pos] as int;
      if len == 0 || pos + len + 1 > |raw| {
        break;
      }
      var adType := raw[pos + 1];
      var data := raw[pos + 2..pos + len + 1];
      ghost var before := p;
      p := ParseAdStructure(adType, data, p);
      WalkStep(raw, pos, done, packet, before, p);
      done := done + [AdElement(adType, data)];
      pos := pos + len + 1;
    }
    assert done + [] == done;
  }

  /// `parse_advertising_packet`: a default record with the address, RSSI and
  /// scan-response marker, filled by the walk.
  method ParseAdvertisingPacket(macAddress: string, rssi: i8, raw: bytes, isScanResponse: bool)
    returns (p: ParsedAdvertisingPacket)
    ensures p == ApplyAll(DefaultPacket().(macAddress := macAddress, rssi := rssi, isScanResponse := isScanResponse), AdElements(raw))
  {
    p := ParseAdStructures(raw, DefaultPacket().(macAddress := macAddress, rssi := rssi, isScanResponse := isScanResponse));
  }

  // -----------------------------------------------------------------------
  // Properties of single structures

  /// TX power is the data byte read as i8: 0xFB is -5.
  lemma TxPowerExample(p: ParsedAdvertisingPacket)
    ensures ApplyStructure(p, 0x0A, [0xFB]).fields.txPower == Some(-5)
    ensures ApplyStructure(p, 0x0A, []).fields.txPower == p.fields.txPower
  {
  }

  /// Manufacturer data needs two bytes; the company ID is little-endian, and
  /// a later structure with the same ID replaces the earlier data.
  lemma ManufacturerOverwrite(p: ParsedAdvertisingPacket, lo: byte, hi: byte, d1: bytes, d2: bytes, short: bytes)
    requires |short| < 2
    ensures var q := ApplyStructure(ApplyStructure(p, 0xFF, [lo, hi] + d1), 0xFF, [lo, hi] + d2);
      q.fields.manufacturerData == p.fields.manufacturerData[U16Le(lo, hi) := d2]
    ensures ApplyStructure(p, 0xFF, short).fields.manufacturerData == p.fields.manufacturerData
  {
    assert ([lo, hi] + d1)[2..] == d1 && ([lo, hi] + d2)[2..] == d2;
  }

  /// Type 0x16 sets the appearance (or clears it on short data) and never
  /// touches 16-bit service data.
  lemma AppearanceNotServiceData(p: ParsedAdvertisingPacket, d: bytes)
    ensures ApplyStructure(p, 0x16, d).fields.serviceData16 == p.fields.serviceData16
    ensures ApplyStructure(p, 0x16, d).fields.appearance == (if |d| >= 2 then Some(U16Le(d[0], d[1])) else None)
  {
  }

  /// Names are decoded as UTF-8; a byte that starts no UTF-8 sequence makes
  /// the name None, while ASCII names come through.
  lemma NameDecoding(p: ParsedAdvertisingPacket, s: string, x: byte, rest: bytes)
    requires Utf8.SeqLen(x) == 0
    ensures ApplyStructure(p, 0x09, Utf8.Encode(s)).fields.localName == Some(s)
    ensures ApplyStructure(p, 0x09, Utf8.Encode(s) + [x] + rest).fields.localName == None
    ensures ApplyStructure(p, 0x08, Utf8.Encode(s) + [x] + rest).fields.shortName == None
  {
    Utf8.DecodeEncode(s);
    Utf8.BadLeadRejected(s, x, rest);
  }

  /// The walk over [02 01 06] finds one Flags structure carrying 0x06.
  lemma FlagsPacketElements()
    ensures AdElements([0x02, 0x01, 0x06]) == [AdElement(0x01, [0x06])]
  {
    var raw: bytes := [0x02, 0x01, 0x06];
    assert raw[1..] != [] && raw[2..3] == [0x06] && raw[3..] == [];
  }

  /// Type 0x01 takes the flags from the first data byte and leaves them
  /// unchanged when the data is empty.
  lemma FlagsStructure(p: ParsedAdvertisingPacket, d: bytes)
    ensures ApplyStructure(p, 0x01, d).fields.flags == (if |d| > 0 then Some(FlagsFromByte(d[0])) else p.fields.flags)
  {
  }

  /// ... and the packet it yields has general discoverability and BR/EDR
  /// not supported.
  lemma FlagsPacketExample(p: ParsedAdvertisingPacket)
    ensures ApplyAll(p, AdElements([0x02, 0x01, 0x06])).fields.flags == Some(AdvertisingFlags(false, true, true, false, false))
  {
    var e := AdElement(0x01, [0x06]);
    FlagsPacketElements();
    ApplyAllSnoc(p, [], e);
    assert [] + [e] == [e];
    FlagsStructure(ApplyAll(p, []), [0x06]);
    FlagsExample();
  }
}
