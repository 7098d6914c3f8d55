// The raw frame sniffer: a second walk over AD structures that keeps a
// generic structure list, the HCI advertising-report decoder that builds
// frames, and a bounded frame buffer with running statistics.

module RawSniffer {
  import opened Common
  import AdvertisingParser

  datatype AddressType = Public | Random | PublicId | RandomId | Anonymous | UnknownAddress
  datatype BluetoothPhy = Le1M | Le2M | LeCodedS2 | LeCodedS8 | BrEdr | UnknownPhy
  datatype AdvertisingType = AdvInd | AdvDirectInd | AdvNonconnInd | AdvScanInd | ScanRsp | ExtAdvInd | UnknownAdv

  /// A captured frame. The capture time is a number supplied by the caller,
  /// in microseconds since the Unix epoch, the resolution of the
  /// `DateTime<Utc>` it stands for; the model reads no clock.
  datatype BluetoothFrame = BluetoothFrame(
    macAddress: string,
    rssi: i8,
    advertisingData: bytes,
    timestamp: int,
    phy: BluetoothPhy,
    channel: byte,
    frameType: AdvertisingType,
    addressType: AddressType)

  /// A structure of the generic list: its type, data and, for the types the
  /// sniffer knows, a name.
  datatype AdStructure = AdStructure(adType: byte, data: bytes, name: Option<string>)

  // -----------------------------------------------------------------------
  // AdStructure::parse and parse_advertising_data

  function StructureName(adType: byte): Option<string>
  {
    match adType
      case 0x01 => Some("Flags")
      case 0x02 => Some("Incomplete List of 16-bit UUIDs")
      case 0x03 => Some("Complete List of 16-bit UUIDs")
      case 0x06 => Some("Incomplete List of 128-bit UUIDs")
      case 0x07 => Some("Complete List of 128-bit UUIDs")
      case 0x08 => Some("Shortened Local Name")
      case 0x09 => Some("Complete Local Name")
      case 0x0A => Some("TX Power Level")
      case 0x0D => Some("Class of Device")
      case 0x0F => Some("List of 32-bit Service UUIDs")
      case 0x10 => Some("Service Data - 16-bit UUID")
      case 0x11 => Some("Public Target Address")
      case 0x12 => Some("Random Target Address")
      case 0x14 => Some("List of 128-bit Service UUIDs")
      case 0x15 => Some("Service Data - 128-bit UUID")
      case 0x16 => Some("Appearance")
      case 0x17 => Some("Advertising Interval")
      case 0x18 => Some("LE Bluetooth Device Address")
      case 0x19 => Some("LE Role")
      case 0x1A => Some("Simple Pairing Hash C")
      case 0x1B => Some("Simple Pairing Hash C-256")
      case 0x1C => Some("Simple Pairing Randomizer R")
      case 0x1D => Some("Simple Pairing Randomizer R-256")
      case 0x1F => Some("List of 32-bit Service UUIDs")
      case 0x20 => Some("Service Data - 32-bit UUID")
      case 0x21 => Some("LE Secure Connections Confirmation Value")
      case 0x22 => Some("LE Secure Connections Random Value")
      case 0x23 => Some("URI")
      case 0x24 => Some("Indoor Positioning")
      case 0x25 => Some("Transport Discovery Data")
      case 0x26 => Some("LE Supported Features")
      case 0x27 => Some("Channel Map Update Indication")
      case 0x28 => Some("PB-ADV")
      case 0x29 => Some("Mesh Message")
      case 0x2A => Some("Mesh Beacon")
      case 0x2B => Some("Big Info")
      case 0x2C => Some("Broadcast Code")
      case 0x3D => Some("3D Information Data")
      case 0xFF => Some("Manufacturer Specific Data")
      case _ => None
  }

  /// The 39 types `AdStructure::parse` names.
  const NamedTypes: set<byte> := {0x01, 0x02, 0x03, 0x06, 0x07, 0x08, 0x09, 0x0A, 0x0D, 0x0F, 0x10, 0x11, 0x12, 0x14, 0x15, 0x16, 0x17, 0x18, 0x19, 0x1A, 0x1B, 0x1C, 0x1D, 0x1F, 0x20, 0x21, 0x22, 0x23, 0x24, 0x25, 0x26, 0x27, 0x28, 0x29, 0x2A, 0x2B, 0x2C, 0x3D, 0xFF}

  /// A structure gets a name exactly when its type is one of the named
  /// types; every other type gets None.
  lemma StructureNameDefined(t: byte)
    ensures StructureName(t).Some? <==> t in NamedTypes
  {
  }

  function ParseStructure(adType: byte, data: bytes): AdStructure
  {
    AdStructure(adType, data, StructureName(adType))
  }

  /// The generic structure list for a walk's elements, one per element.
  function StructuresOf(es: seq<AdvertisingParser.AdElement>): seq<AdStructure>
  {
    seq(|es|, i requires 0 <= i < |es| => ParseStructure(es[i].adType, es[i].data))
  }

  /// `parse_advertising_data`: the same cursor loop and stop rule as the
  /// typed parser, pushing one generic structure per accepted element.
  method ParseAdvertisingData(raw: bytes) returns (structures: seq<AdStructure>)
    ensures structures == StructuresOf(AdvertisingParser.AdElements(raw))
  {
    structures := [];
    var pos := 0;
    ghost var done: seq<AdvertisingParser.AdElement> := [];
    AdvertisingParser.ElementsFromSuffix(raw, 0);
    assert raw[0..] == raw;
    while pos < |raw|
      invariant 0 <= pos <= |raw|
      invariant AdvertisingParser.AdElements(raw) == done + AdvertisingParser.ElementsFrom(raw, pos)
      invariant structures == StructuresOf(done)
    {
      var len := raw[pos] as int;
      if len == 0 || pos + len + 1 > |raw| {
        break;
      }
      var adType := raw[pos + 1];
      var data := raw[pos + 2..pos + len + 1];
      structures := structures + [ParseStructure(adType, data)];
      AdvertisingParser.ElementsFromStep(raw, pos, done);
      done := done + [AdvertisingParser.AdElement(adType, data)];
      pos := pos + len + 1;
    }
    assert done + [] == done;
  }

  /// [02 01 06] gives one structure, of type 0x01, named Flags.
  lemma FlagsStructureExample()
    ensures StructuresOf(AdvertisingParser.AdElements([0x02, 0x01, 0x06])) == [AdStructure(0x01, [0x06], Some("Flags"))]
  {
    AdvertisingParser.FlagsPacketElements();
  }

  // -----------------------------------------------------------------------
  // parse_le_advertising_report (the Linux HCI decoder)

  /// The event-type mapping as written: 0x02 is read as non-connectable
  /// and 0x03 as scannable, the reverse of the Core specification's
  /// numbering (Vol 4 Part E section 7.7.65.2); 0x04 and above are Unknown.
  function ReportFrameTypeAsWritten(eventType: byte): AdvertisingType
  {
    match eventType
      case 0x00 => AdvInd
      case 0x01 => AdvDirectInd
      case 0x02 => AdvNonconnInd
      case 0x03 => AdvScanInd
      case _ => UnknownAdv
  }

  /// The mapping with the Core numbering, 0x02 scannable and 0x03
  /// non-connectable, used by the decoder below; 0x04 and above stay
  /// Unknown as in the original.
  function ReportFrameType(eventType: byte): AdvertisingType
  {
    match eventType
      case 0x00 => AdvInd
      case 0x01 => AdvDirectInd
      case 0x02 => AdvScanInd
      case 0x03 => AdvNonconnInd
      case _ => UnknownAdv
  }

  function ReportAddressType(t: byte): AddressType
  {
    match t
      case 0x00 => Public
      case 0x01 => Random
      case 0x02 => PublicId
      case 0x03 => RandomId
      case 0xFF => Anonymous
      case _ => UnknownAddress
  }

  /// Decodes one report body: event type, address type, six address bytes
  /// printed in the order received, a data length, the data clipped at the
  /// end of the input, and the last byte as RSSI. `now` is the capture time.
  function ParseLeAdvertisingReport(data: bytes, now: int): (r: Result<BluetoothFrame>)
    ensures r.Ok? <==> |data| >= 11
    ensures r.Ok? ==> |r.value.advertisingData| <= |data| - 9 && |r.value.advertisingData| <= data[8]
    ensures r.Ok? ==> r.value.advertisingData == data[9..9 + |r.value.advertisingData|]
    ensures r.Ok? ==> r.value.rssi == AsI8(data[|data| - 1]) && |r.value.macAddress| == 17
    ensures r.Ok? ==> r.value.macAddress == MacText(data[2..8])
    ensures r.Ok? ==> r.value.frameType == ReportFrameType(data[0]) && r.value.addressType == ReportAddressType(data[1])
    ensures r.Ok? ==> r.value.timestamp == now && r.value.phy == Le1M && r.value.channel == 37
  {
    if |data| < 11 then Err("Insufficient data for LE Advertising Report")
    else
      var dataLength := data[8] as int;
      var n := if dataLength < |data| - 9 then dataLength else |data| - 9;
      Ok(BluetoothFrame(MacText(data[2..8]), AsI8(data[|data| - 1]), data[9..9 + n], now,
        Le1M, 37, ReportFrameType(data[0]), ReportAddressType(data[1])))
  }

  /// The advertising data is the declared length when the input holds it,
  /// otherwise everything after the length byte (the RSSI byte included).
  lemma ReportDataClipping(data: bytes, now: int)
    requires |data| >= 11
    ensures var f := ParseLeAdvertisingReport(data, now).value;
      (data[8] as int <= |data| - 9 ==> |f.advertisingData| == data[8]) &&
      (data[8] as int > |data| - 9 ==> f.advertisingData == data[9..])
  {
  }

  // -----------------------------------------------------------------------
  // Statistics over the frames added so far

  datatype SniffStats = SniffStats(
    totalFrames: nat,
    totalDevices: nat,
    totalBytesCaptured: nat,
    strongestSignal: i8,
    weakestSignal: i8)

  function DefaultStats(): SniffStats
  {
    SniffStats(0, 0, 0, 0, 0)
  }

  function MaxI8(a: i8, b: i8): i8 { if a >= b then a else b }
  function MinI8(a: i8, b: i8): i8 { if a <= b then a else b }

  /// The strongest RSSI among the frames.
  function MaxRssi(h: seq<BluetoothFrame>): i8
    requires h != []
    decreases |h|
  {
    if |h| == 1 then h[0].rssi else MaxI8(MaxRssi(h[..|h| - 1]), h[|h| - 1].rssi)
  }

  /// The weakest RSSI among the frames.
  function MinRssi(h: seq<BluetoothFrame>): i8
    requires h != []
    decreases |h|
  {
    if |h| == 1 then h[0].rssi else MinI8(MinRssi(h[..|h| - 1]), h[|h| - 1].rssi)
  }

  /// The running maximum is the strongest signal of some frame, and no
  /// frame is stronger.
  lemma {:induction false} MaxRssiIsMax(h: seq<BluetoothFrame>)
    requires h != []
    ensures forall i :: 0 <= i < |h| ==> h[i].rssi <= MaxRssi(h)
    ensures exists i :: 0 <= i < |h| && h[i].rssi == MaxRssi(h)
    decreases |h|
  {
    if |h| > 1 {
      var p := h[..|h| - 1];
      MaxRssiIsMax(p);
      assert forall i :: 0 <= i < |p| ==> p[i] == h[i];
      var k :| 0 <= k < |p| && p[k].rssi == MaxRssi(p);
      assert h[k].rssi == MaxRssi(p);
    } else {
      assert h[0].rssi == MaxRssi(h);
    }
  }

  /// The running minimum is the weakest signal of some frame, and no frame
  /// is weaker.
  lemma {:induction false} MinRssiIsMin(h: seq<BluetoothFrame>)
    requires h != []
    ensures forall i :: 0 <= i < |h| ==> MinRssi(h) <= h[i].rssi
    ensures exists i :: 0 <= i < |h| && h[i].rssi == MinRssi(h)
    decreases |h|
  {
    if |h| > 1 {
      var p := h[..|h| - 1];
      MinRssiIsMin(p);
      assert forall i :: 0 <= i < |p| ==> p[i] == h[i];
      var k :| 0 <= k < |p| && p[k].rssi == MinRssi(p);
      assert h[k].rssi == MinRssi(p);
    } else {
      assert h[0].rssi == MinRssi(h);
    }
  }

  function SumBytes(h: seq<BluetoothFrame>): nat
  {
    if h == [] then 0 else SumBytes(h[..|h| - 1]) + |h[|h| - 1].advertisingData|
  }

  /// The statistics the sniffer should hold after the frames `h`: their
  /// number, their total data length, and the extreme RSSI values (0 while
  /// nothing has arrived). `total_devices` is never updated.
  /// The counter update `add_frame` applies for one frame.
  function CountFrame(s: SniffStats, f: BluetoothFrame): SniffStats
  {
    var total := s.totalFrames + 1;
    s.(totalFrames := total,
       totalBytesCaptured := s.totalBytesCaptured + |f.advertisingData|,
       strongestSignal := if total == 1 then f.rssi else MaxI8(s.strongestSignal, f.rssi),
       weakestSignal := if total == 1 then f.rssi else MinI8(s.weakestSignal, f.rssi))
  }

  function StatsOf(h: seq<BluetoothFrame>): SniffStats
  {
    SniffStats(|h|, 0, SumBytes(h),
      if h == [] then 0 else MaxRssi(h),
      if h == [] then 0 else MinRssi(h))
  }

  /// The update `add_frame` applies to the counters keeps them equal to
  /// the statistics of the frames seen: the first frame sets both extremes,
  /// later frames fold into the running max and min.
  lemma StatsStep(h: seq<BluetoothFrame>, f: BluetoothFrame)
    ensures StatsOf(h + [f]) == CountFrame(StatsOf(h), f)
  {
    assert (h + [f])[..|h|] == h;
  }

  // -----------------------------------------------------------------------
  // The bounded buffer

  /// The `n` most recent frames (all of them while there are fewer).
  function Window(h: seq<BluetoothFrame>, n: nat): seq<BluetoothFrame>
  {
    if |h| <= n then h else h[|h| - n..]
  }

  /// The buffer holds at most `n` frames, they are the newest ones in
  /// arrival order, and it is full once `n` frames have arrived.
  lemma WindowIsNewest(h: seq<BluetoothFrame>, n: nat)
    ensures |Window(h, n)| <= n && |Window(h, n)| <= |h|
    ensures Window(h, n) == h[|h| - |Window(h, n)|..]
    ensures |h| >= n ==> |Window(h, n)| == n
  {
  }

  /// One more frame: when the buffer is full its oldest frame is dropped,
  /// and the new frame is appended.
  lemma WindowStep(h: seq<BluetoothFrame>, f: BluetoothFrame, n: nat)
    requires n > 0
    ensures var w := Window(h, n);
      Window(h + [f], n) == (if |w| >= n then w[1..] else w) + [f]
  {
    var w := Window(h, n);
    if |h| + 1 > n {
      assert (h + [f])[|h| + 1 - n..] == (if |w| >= n then w[1..] else w) + [f];
    }
  }

  /// The buffer and counters `add_frame` leaves are those of the frames
  /// seen so far plus the new one.
  lemma AddFrameStep(h: seq<BluetoothFrame>, f: BluetoothFrame, n: nat)
    requires n > 0
    ensures var w := Window(h, n);
      Window(h + [f], n) == (if |w| >= n then w[1..] else w) + [f] &&
      |Window(h + [f], n)| <= n
    ensures StatsOf(h + [f]) == CountFrame(StatsOf(h), f)
  {
    StatsStep(h, f);
    WindowStep(h, f, n);
    WindowIsNewest(h + [f], n);
  }

  // -----------------------------------------------------------------------
  // Frame queries

  /// The frames of `buf` that satisfy `keep`, in buffer order.
  function Select(buf: seq<BluetoothFrame>, keep: BluetoothFrame -> bool): (r: seq<BluetoothFrame>)
    ensures |r| <= |buf|
    ensures forall f :: f in r <==> f in buf && keep(f)
    ensures forall f :: multiset(r)[f] == if keep(f) then multiset(buf)[f] else 0
  {
    if buf == [] then []
    else
      assert buf == [buf[0]] + buf[1..];
      if keep(buf[0]) then [buf[0]] + Select(buf[1..], keep)
      else Select(buf[1..], keep)
  }

  lemma SelectCons(x: BluetoothFrame, s: seq<BluetoothFrame>, keep: BluetoothFrame -> bool)
    ensures Select([x] + s, keep) == (if keep(x) then [x] else []) + Select(s, keep)
  {
    assert ([x] + s)[0] == x && ([x] + s)[1..] == s;
  }

  /// Filtering works piecewise, so the kept frames stay in buffer order.
  lemma {:induction false} SelectAppend(a: seq<BluetoothFrame>, b: seq<BluetoothFrame>, keep: BluetoothFrame -> bool)
    ensures Select(a + b, keep) == Select(a, keep) + Select(b, keep)
  {
    if a == [] {
      assert a + b == b;
    } else {
      var x, t := a[0], a[1..];
      var h: seq<BluetoothFrame> := if keep(x) then [x] else [];
      calc {
        Select(a + b, keep);
        { assert a + b == [x] + (t + b) by { assert a == [x] + t; } }
        Select([x] + (t + b), keep);
        { SelectCons(x, t + b, keep); }
        h + Select(t + b, keep);
        { SelectAppend(t, b, keep); }
        h + (Select(t, keep) + Select(b, keep));
        (h + Select(t, keep)) + Select(b, keep);
        { SelectCons(x, t, keep); assert a == [x] + t; }
        Select(a, keep) + Select(b, keep);
      }
    }
  }

  /// A single frame is kept exactly when it satisfies the condition.
  lemma SelectOne(f: BluetoothFrame, keep: BluetoothFrame -> bool)
    ensures Select([f], keep) == if keep(f) then [f] else []
  {
    assert [f][1..] == [];
  }

  /// Byte-wise ordering of strings (`Ord for String`; for ASCII, and for
  /// UTF-8 in general, the same as code-point order).
  predicate LexLess(a: string, b: string)
    decreases |a|
  {
    if a == [] then b != []
    else if b == [] then false
    else if a[0] != b[0] then a[0] < b[0]
    else LexLess(a[1..], b[1..])
  }

  lemma {:induction false} LexLessTotal(a: string, b: string)
    ensures a == b || LexLess(a, b) || LexLess(b, a)
    decreases |a|
  {
    if a != [] && b != [] && a[0] == b[0] {
      LexLessTotal(a[1..], b[1..]);
      if a[1..] == b[1..] {
        assert a == [a[0]] + a[1..] && b == [b[0]] + b[1..];
      }
    }
  }

  lemma {:induction false} LexLessAsymmetric(a: string, b: string)
    ensures !(LexLess(a, b) && LexLess(b, a))
    decreases |a|
  {
    if a != [] && b != [] && a[0] == b[0] {
      LexLessAsymmetric(a[1..], b[1..]);
    }
  }

  predicate StrictlySorted(s: seq<string>)
  {
    forall i, j :: 0 <= i < j < |s| ==> LexLess(s[i], s[j])
  }

  /// Inserts `x` into a strictly sorted list unless it is already there.
  function InsertSorted(s: seq<string>, x: string): (r: seq<string>)
    requires StrictlySorted(s)
    ensures StrictlySorted(r)
    ensures forall y :: y in r <==> y in s || y == x
  {
    if s == [] then [x]
    else if x == s[0] then s
    else if LexLess(x, s[0]) then
      LexLessTransitivePrefix(s, x);
      [x] + s
    else
      LexLessTotal(x, s[0]);
      var rest := InsertSorted(s[1..], x);
      SortedCons(s, x, rest);
      [s[0]] + rest
  }

  /// The head of a sorted list stays first when the rest only gains a larger
  /// element.
  lemma SortedCons(s: seq<string>, x: string, rest: seq<string>)
    requires StrictlySorted(s) && s != [] && LexLess(s[0], x)
    requires StrictlySorted(rest) && forall y :: y in rest <==> y in s[1..] || y == x
    ensures StrictlySorted([s[0]] + rest)
  {
    forall j | 0 <= j < |rest|
      ensures LexLess(s[0], rest[j])
    {
      assert rest[j] in rest;
      if rest[j] != x {
        var k :| 0 <= k < |s[1..]| && s[1..][k] == rest[j];
        assert s[k + 1] == rest[j];
      }
    }
  }

  /// What makes `[x] + s` sorted when `x` sorts before the head of `s`.
  lemma LexLessTransitivePrefix(s: seq<string>, x: string)
    requires StrictlySorted(s) && s != [] && LexLess(x, s[0])
    ensures forall j :: 0 <= j < |s| ==> LexLess(x, s[j])
  {
    forall j | 0 < j < |s|
      ensures LexLess(x, s[j])
    {
      LexLessTransitive(x, s[0], s[j]);
    }
  }

  lemma {:induction false} LexLessTransitive(a: string, b: string, c: string)
    requires LexLess(a, b) && LexLess(b, c)
    ensures LexLess(a, c)
    decreases |a|
  {
    if a != [] && b != [] && c != [] && a[0] == b[0] && b[0] == c[0] {
      LexLessTransitive(a[1..], b[1..], c[1..]);
    }
  }

  /// The device addresses of `buf`, sorted and without repeats.
  function SortedAddresses(buf: seq<BluetoothFrame>): (r: seq<string>)
    ensures StrictlySorted(r)
    ensures forall m :: m in r <==> exists f :: f in buf && f.macAddress == m
  {
    if buf == [] then []
    else
      var rest := SortedAddresses(buf[1..]);
      assert forall f :: f in buf <==> f == buf[0] || f in buf[1..];
      InsertSorted(rest, buf[0].macAddress)
  }

  /// A strictly sorted list is fixed by its elements, so sorting and then
  /// removing adjacent repeats, which yields such a list, can only yield
  /// `SortedAddresses`.
  lemma {:induction false} StrictlySortedUnique(a: seq<string>, b: seq<string>)
    requires StrictlySorted(a) && StrictlySorted(b)
    requires forall m :: m in a <==> m in b
    ensures a == b
    decreases |a|
  {
    if a != [] {
      assert a[0] in a;
    }
    if b != [] {
      assert b[0] in b;
    }
    if a != [] && b != [] {
      var i :| 0 <= i < |b| && b[i] == a[0];
      var j :| 0 <= j < |a| && a[j] == b[0];
      if i > 0 && j > 0 {
        LexLessAsymmetric(a[0], b[0]);
      }
      if i > 0 && j == 0 {
        LexLessAsymmetric(b[0], b[i]);
      }
      if i == 0 && j > 0 {
        LexLessAsymmetric(a[0], a[j]);
      }
      assert a[0] == b[0];
      forall m
        ensures m in a[1..] <==> m in b[1..]
      {
        if m in a[1..] {
          var k :| 0 <= k < |a[1..]| && a[1..][k] == m;
          LexLessAsymmetric(a[0], a[k + 1]);
          assert a[k + 1] in a;
          var t :| 0 <= t < |b| && b[t] == m;
          assert t != 0 && b[1..][t - 1] == m;
        }
        if m in b[1..] {
          var k :| 0 <= k < |b[1..]| && b[1..][k] == m;
          LexLessAsymmetric(b[0], b[k + 1]);
          assert b[k + 1] in b;
          var t :| 0 <= t < |a| && a[t] == m;
          assert t != 0 && a[1..][t - 1] == m;
        }
      }
      StrictlySortedUnique(a[1..], b[1..]);
      assert a == [a[0]] + a[1..] && b == [b[0]] + b[1..];
    }
  }

  // -----------------------------------------------------------------------
  // RawPacketSniffer

  class RawPacketSniffer {
    var frameBuffer: seq<BluetoothFrame>
    const maxBufferSize: nat
    var stats: SniffStats
    /// Every frame added since construction or the last `clear`.
    ghost var history: seq<BluetoothFrame>

    ghost predicate Valid()
      reads this
    {
      frameBuffer == Window(history, maxBufferSize) && stats == StatsOf(history)
    }

    constructor (maxBufferSize: nat)
      ensures Valid() && this.maxBufferSize == maxBufferSize
      ensures history == [] && frameBuffer == [] && stats == DefaultStats()
    {
      this.maxBufferSize := maxBufferSize;
      frameBuffer := [];
      stats := DefaultStats();
      history := [];
    }

    /// `add_frame`. With a capacity of 0 the source removes index 0 of an
    /// empty vector, which panics; the capacity must therefore be positive.
    method AddFrame(frame: BluetoothFrame)
      requires Valid() && maxBufferSize > 0
      modifies this
      ensures Valid() && history == old(history) + [frame]
      ensures stats.totalFrames == old(stats.totalFrames) + 1
      ensures stats.totalBytesCaptured == old(stats.totalBytesCaptured) + |frame.advertisingData|
      ensures |frameBuffer| <= maxBufferSize && frameBuffer[|frameBuffer| - 1] == frame
    {
      var buf := frameBuffer;
      if |buf| >= maxBufferSize {
        buf := buf[1..];
      }
      buf := buf + [frame];
      AddFrameStep(history, frame, maxBufferSize);
      frameBuffer := buf;
      stats := CountFrame(stats, frame);
      history := history + [frame];
    }

    /// `get_device_frames`
    function DeviceFrames(mac: string): (r: seq<BluetoothFrame>)
      reads this
      ensures forall f :: f in r <==> f in frameBuffer && f.macAddress == mac
      ensures forall f :: multiset(r)[f] == if f.macAddress == mac then multiset(frameBuffer)[f] else 0
    {
      Select(frameBuffer, (f: BluetoothFrame) => f.macAddress == mac)
    }

    /// `get_frames_in_range`: both ends included.
    function FramesInRange(start: int, end: int): (r: seq<BluetoothFrame>)
      reads this
      ensures forall f :: f in r <==> f in frameBuffer && start <= f.timestamp <= end
      ensures forall f :: multiset(r)[f] == if start <= f.timestamp <= end then multiset(frameBuffer)[f] else 0
    {
      Select(frameBuffer, (f: BluetoothFrame) => start <= f.timestamp && f.timestamp <= end)
    }

    /// `get_frames_by_type`
    function FramesByType(t: AdvertisingType): (r: seq<BluetoothFrame>)
      reads this
      ensures forall f :: f in r <==> f in frameBuffer && f.frameType == t
      ensures forall f :: multiset(r)[f] == if f.frameType == t then multiset(frameBuffer)[f] else 0
    {
      Select(frameBuffer, (f: BluetoothFrame) => f.frameType == t)
    }

    /// `get_unique_devices`: the buffered addresses, sorted, each once.
    function UniqueDevices(): (r: seq<string>)
      reads this
      ensures StrictlySorted(r)
      ensures forall m :: m in r <==> exists f :: f in frameBuffer && f.macAddress == m
    {
      SortedAddresses(frameBuffer)
    }

    /// `clear`: empties the buffer and resets the statistics.
    method Clear()
      modifies this
      ensures Valid() && history == [] && frameBuffer == [] && stats == DefaultStats()
    {
      frameBuffer := [];
      stats := DefaultStats();
      history := [];
    }
  }

  /// After one frame the totals are 1 and the data length, both extremes
  /// are its RSSI, and one device is known.
  lemma OneFrameStats(f: BluetoothFrame)
    ensures StatsOf([f]) == SniffStats(1, 0, |f.advertisingData|, f.rssi, f.rssi)
    ensures SortedAddresses([f]) == [f.macAddress]
  {
    assert [f][..0] == [];
    assert |[f]| == 1 && [f][0] == f;
    assert SumBytes([f]) == SumBytes([]) + |f.advertisingData|;
  }
}
