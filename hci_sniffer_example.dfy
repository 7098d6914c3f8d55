// The Linux HCI decoders for LE Advertising Reports (legacy, subevent 0x02)
// and LE Extended Advertising Reports (subevent 0x13)
// (src/hci_sniffer_example.rs).
//
// The layouts are the ones the source reads, not those of the Core
// specification: a legacy report is event type, address type, six address
// bytes, data length, RSSI and then the data; an extended report has a
// 25-byte header with the data length at offset 24.

module HciSnifferExample {
  import opened Common
  import RawSniffer
  import MacAddressHandler

  const SHORT_REPORT := "Insufficient data for LE Advertising Report"
  const SHORT_EXTENDED_REPORT := "Insufficient data for LE Extended Advertising Report"

  /// The frame fields these decoders fill in. The capture time is a number
  /// supplied by the caller. The decoders build `raw_sniffer::BluetoothFrame`
  /// without its `address_type` field, which that struct requires, so the
  /// code as written does not compile; the model gives these frames their
  /// own type with exactly the fields the decoders set.
  datatype HciFrame = HciFrame(
    macAddress: string,
    rssi: i8,
    advertisingData: bytes,
    timestamp: int,
    phy: RawSniffer.BluetoothPhy,
    channel: byte,
    frameType: RawSniffer.AdvertisingType)

  /// Six address bytes, received least significant first, printed most
  /// significant first.
  function ReversedMacText(b: bytes): (r: string)
    requires |b| == 6
  {
    MacText(Reversed(b))
  }

  /// The printed address parses back to the received bytes in reverse.
  lemma ReversedMacTextParses(b: bytes)
    requires |b| == 6
    ensures MacAddressHandler.ParseMac(ReversedMacText(b)).Ok?
    ensures MacAddressHandler.ParseMac(ReversedMacText(b)).value.octets == [b[5], b[4], b[3], b[2], b[1], b[0]]
  {
    assert Reversed(b) == [b[5], b[4], b[3], b[2], b[1], b[0]];
    MacAddressHandler.FromBytesRoundTrip(Reversed(b));
  }

  /// The end of a data field of declared length `n` starting at `start`,
  /// clipped to the input length `len`.
  function ClipEnd(len: nat, start: nat, n: nat): (r: nat)
    requires start <= len
    ensures start <= r <= len && r <= start + n
    ensures r == start + n || r == len
  {
    if start + n < len then start + n else len
  }

  // -----------------------------------------------------------------------
  // parse_le_advertising_report

  /// Event types 0..4 name the advertising PDUs, anything else is Unknown;
  /// as written, 0x02 is read as non-connectable and 0x03 as scannable.
  function LegacyFrameTypeAsWritten(eventType: byte): RawSniffer.AdvertisingType
  {
    match eventType
      case 0x00 => RawSniffer.AdvInd
      case 0x01 => RawSniffer.AdvDirectInd
      case 0x02 => RawSniffer.AdvNonconnInd
      case 0x03 => RawSniffer.AdvScanInd
      case 0x04 => RawSniffer.ScanRsp
      case _ => RawSniffer.UnknownAdv
  }

  /// The event types as the Core specification numbers them (Vol 4 Part E
  /// section 7.7.65.2): 0x02 is ADV_SCAN_IND and 0x03 ADV_NONCONN_IND.
  function LegacyFrameType(eventType: byte): RawSniffer.AdvertisingType
  {
    match eventType
      case 0x00 => RawSniffer.AdvInd
      case 0x01 => RawSniffer.AdvDirectInd
      case 0x02 => RawSniffer.AdvScanInd
      case 0x03 => RawSniffer.AdvNonconnInd
      case 0x04 => RawSniffer.ScanRsp
      case _ => RawSniffer.UnknownAdv
  }

  /// The report whose header starts at `offset`.
  function ReportAt(data: bytes, offset: nat, now: int): HciFrame
    requires offset + 11 <= |data|
  {
    HciFrame(ReversedMacText(data[offset + 2..offset + 8]), AsI8(data[offset + 9]),
      data[offset + 10..ClipEnd(|data|, offset + 10, data[offset + 8])], now, RawSniffer.Le1M, 37, LegacyFrameType(data[offset]))
  }

  /// Up to `k` reports from `offset`, stopping when fewer than 11 bytes
  /// remain; each report advances the offset by 10 plus its data length.
  function Reports(data: bytes, offset: nat, k: nat, now: int): seq<HciFrame>
    decreases k
  {
    if k == 0 || offset + 11 > |data| then []
    else [ReportAt(data, offset, now)] + Reports(data, offset + 10 + data[offset + 8], k - 1, now)
  }

  /// Decodes the report whose header starts at `offset`, and returns where
  /// the next one starts.
  method ReadReport(data: bytes, offset: nat, now: int) returns (frame: HciFrame, next: nat)
    requires offset + 11 <= |data|
    ensures frame == ReportAt(data, offset, now)
    ensures next == offset + 10 + data[offset + 8]
  {
    var eventType := data[offset];
    var macBytes := data[offset + 2..offset + 8];
    var dataLength := data[offset + 8];
    var rssi := AsI8(data[offset + 9]);
    var start := offset + 10;
    var end := if start + dataLength < |data| then start + dataLength else |data|;
    frame := HciFrame(ReversedMacText(macBytes), rssi, data[start..end], now,
      RawSniffer.Le1M, 37, LegacyFrameType(eventType));
    next := offset + 10 + dataLength;
  }

  /// Appending the report at `offset` to the frames decoded so far keeps
  /// them a prefix of the whole decoding.
  lemma ReportsStep(frames: seq<HciFrame>, data: bytes, offset: nat, k: nat, now: int, all: seq<HciFrame>)
    requires k > 0 && offset + 11 <= |data|
    requires frames + Reports(data, offset, k, now) == all
    ensures frames + [ReportAt(data, offset, now)] + Reports(data, offset + 10 + data[offset + 8], k - 1, now) == all
  {
    assert Reports(data, offset, k, now) == [ReportAt(data, offset, now)] + Reports(data, offset + 10 + data[offset + 8], k - 1, now);
    assert frames + [ReportAt(data, offset, now)] + Reports(data, offset + 10 + data[offset + 8], k - 1, now)
      == frames + ([ReportAt(data, offset, now)] + Reports(data, offset + 10 + data[offset + 8], k - 1, now));
  }

  /// `parse_le_advertising_report`
  method ParseLeAdvertisingReport(data: bytes, now: int) returns (r: Result<seq<HciFrame>>)
    ensures |data| < 2 ==> r == Err(SHORT_REPORT)
    ensures |data| >= 2 ==> r == Ok(Reports(data, 1, data[0], now))
  {
    if |data| < 2 {
      return Err(SHORT_REPORT);
    }
    var numReports := data[0];
    var frames: seq<HciFrame> := [];
    var offset: nat := 1;
    var i: nat := 0;
    // The loop stops early, as the source's `break` does, once the next
    // header would run past the input.
    while i < numReports && offset + 11 <= |data|
      invariant 0 <= i <= numReports
      invariant frames + Reports(data, offset, numReports - i, now) == Reports(data, 1, numReports, now)
    {
      var frame, next := ReadReport(data, offset, now);
      ReportsStep(frames, data, offset, numReports - i, now, Reports(data, 1, numReports, now));
      frames := frames + [frame];
      offset := next;
      i := i + 1;
    }
    ReportsEnd(frames, data, offset, numReports - i, now, Reports(data, 1, numReports, now));
    r := Ok(frames);
  }

  /// Once no reports are left to read, the frames decoded so far are all of
  /// them.
  lemma ReportsEnd(frames: seq<HciFrame>, data: bytes, offset: nat, k: nat, now: int, all: seq<HciFrame>)
    requires k == 0 || offset + 11 > |data|
    requires frames + Reports(data, offset, k, now) == all
    ensures frames == all
  {
    assert Reports(data, offset, k, now) == [];
    assert frames + [] == frames;
  }

  /// At most `k` frames, and each frame's data lies inside the input.
  lemma {:induction false} ReportsBounds(data: bytes, offset: nat, k: nat, now: int)
    ensures |Reports(data, offset, k, now)| <= k
    ensures forall j :: 0 <= j < |Reports(data, offset, k, now)| ==> |Reports(data, offset, k, now)[j].advertisingData| < |data|
    decreases k
  {
    if k > 0 && offset + 11 <= |data| {
      var next := offset + 10 + data[offset + 8];
      ReportsBounds(data, next, k - 1, now);
      var head := ReportAt(data, offset, now);
      assert |head.advertisingData| < |data|;
      var all := Reports(data, offset, k, now);
      assert all == [head] + Reports(data, next, k - 1, now);
      forall j | 0 <= j < |all|
        ensures |all[j].advertisingData| < |data|
      {
        if j > 0 {
          assert all[j] == Reports(data, next, k - 1, now)[j - 1];
        }
      }
    } else {
      assert Reports(data, offset, k, now) == [];
    }
  }

  /// The first report of a well-formed input: its RSSI byte, its data and
  /// its address printed in reverse.
  lemma FirstReport(data: bytes, now: int)
    requires |data| >= 12 && data[0] >= 1 && 11 + data[9] <= |data|
    ensures |Reports(data, 1, data[0], now)| >= 1
    ensures Reports(data, 1, data[0], now)[0].advertisingData == data[11..11 + data[9]]
    ensures Reports(data, 1, data[0], now)[0].rssi == AsI8(data[10])
    ensures Reports(data, 1, data[0], now)[0].frameType == LegacyFrameType(data[1])
    ensures MacAddressHandler.ParseMac(Reports(data, 1, data[0], now)[0].macAddress).Ok?
    ensures MacAddressHandler.ParseMac(Reports(data, 1, data[0], now)[0].macAddress).value.octets
      == [data[8], data[7], data[6], data[5], data[4], data[3]]
  {
    ReversedMacTextParses(data[3..9]);
  }

  /// Two back-to-back complete reports give two frames.
  lemma TwoReports(data: bytes, now: int)
    requires data[..] != [] && data[0] == 2
    requires 12 <= |data| && 1 + 10 + data[9] + 11 <= |data|
    ensures |Reports(data, 1, 2, now)| == 2
  {
  }

  // -----------------------------------------------------------------------
  // parse_le_extended_advertising_report

  /// `event_type & 0x0F` selects the PDU; values above 4 are extended.
  function ExtendedFrameType(eventType: u16): RawSniffer.AdvertisingType
  {
    match eventType % 16
      case 0x00 => RawSniffer.AdvInd
      case 0x01 => RawSniffer.AdvDirectInd
      case 0x02 => RawSniffer.AdvNonconnInd
      case 0x03 => RawSniffer.AdvScanInd
      case 0x04 => RawSniffer.ScanRsp
      case _ => RawSniffer.ExtAdvInd
  }

  /// The primary PHY, refined by the secondary PHY for Coded.
  function ExtendedPhy(primary: byte, secondary: byte): RawSniffer.BluetoothPhy
  {
    match primary
      case 0x01 => RawSniffer.Le1M
      case 0x02 => RawSniffer.Le2M
      case 0x03 => if secondary == 0x02 then RawSniffer.LeCodedS2 else RawSniffer.LeCodedS8
      case _ => RawSniffer.UnknownPhy
  }

  /// The guard of the extended decoder as written: 15 bytes must remain.
  predicate ExtendedGuardAsWritten(len: nat, offset: nat)
  {
    offset + 15 <= len
  }

  /// The highest index the extended decoder reads before the data.
  function ExtendedLastHeaderIndex(offset: nat): nat
  {
    offset + 24
  }

  /// The guard lets through reports whose header runs past the input: with
  /// one report and 16 bytes, index 25 is read from a 16-byte buffer and
  /// the decoder as written panics.
  lemma ExtendedGuardTooWeak(data: bytes, now: int)
    requires |data| == 16 && data[0] >= 1
    ensures ExtendedGuardAsWritten(|data|, 1)
    ensures ExtendedLastHeaderIndex(1) >= |data|
    ensures ExtendedReportsAsWritten(data, 1, data[0], now) == Panicked
  {
  }

  /// The guard every read of the header needs: 25 bytes must remain.
  predicate ExtendedGuard(len: nat, offset: nat)
  {
    offset + 25 <= len
  }

  /// The extended report whose header starts at `offset`.
  function ExtendedReportAt(data: bytes, offset: nat, now: int): HciFrame
    requires ExtendedGuard(|data|, offset)
  {
    HciFrame(ReversedMacText(data[offset + 3..offset + 9]), AsI8(data[offset + 14]),
      data[offset + 25..ClipEnd(|data|, offset + 25, data[offset + 24])], now,
      ExtendedPhy(data[offset + 10], data[offset + 11]), 37,
      ExtendedFrameType(U16Le(data[offset], data[offset + 1])))
  }

  /// Up to `k` extended reports from `offset`; each advances the offset by
  /// 25 plus its data length.
  function ExtendedReports(data: bytes, offset: nat, k: nat, now: int): seq<HciFrame>
    decreases k
  {
    if k == 0 || !ExtendedGuard(|data|, offset) then []
    else [ExtendedReportAt(data, offset, now)] + ExtendedReports(data, offset + 25 + data[offset + 24], k - 1, now)
  }

  /// Decodes the extended report whose header starts at `offset`, and
  /// returns where the next one starts.
  method ReadExtendedReport(data: bytes, offset: nat, now: int) returns (frame: HciFrame, next: nat)
    requires ExtendedGuard(|data|, offset)
    ensures frame == ExtendedReportAt(data, offset, now)
    ensures next == offset + 25 + data[offset + 24]
  {
    var eventType := U16Le(data[offset], data[offset + 1]);
    var macBytes := data[offset + 3..offset + 9];
    var primaryPhy := data[offset + 10];
    var secondaryPhy := data[offset + 11];
    var rssi := AsI8(data[offset + 14]);
    var dataLength := data[offset + 24];
    var start := offset + 25;
    var end := if start + dataLength < |data| then start + dataLength else |data|;
    frame := HciFrame(ReversedMacText(macBytes), rssi, data[start..end], now,
      ExtendedPhy(primaryPhy, secondaryPhy), 37, ExtendedFrameType(eventType));
    next := offset + 25 + dataLength;
  }

  /// Appending the report at `offset` to the frames decoded so far keeps
  /// them a prefix of the whole decoding.
  lemma ExtendedReportsStep(frames: seq<HciFrame>, data: bytes, offset: nat, k: nat, now: int, all: seq<HciFrame>)
    requires k > 0 && ExtendedGuard(|data|, offset)
    requires frames + ExtendedReports(data, offset, k, now) == all
    ensures frames + [ExtendedReportAt(data, offset, now)] + ExtendedReports(data, offset + 25 + data[offset + 24], k - 1, now) == all
  {
    assert ExtendedReports(data, offset, k, now) == [ExtendedReportAt(data, offset, now)] + ExtendedReports(data, offset + 25 + data[offset + 24], k - 1, now);
    assert frames + [ExtendedReportAt(data, offset, now)] + ExtendedReports(data, offset + 25 + data[offset + 24], k - 1, now)
      == frames + ([ExtendedReportAt(data, offset, now)] + ExtendedReports(data, offset + 25 + data[offset + 24], k - 1, now));
  }

  /// `parse_le_extended_advertising_report`, with the guard every header
  /// read needs; all reads are within the input.
  method ParseLeExtendedAdvertisingReport(data: bytes, now: int) returns (r: Result<seq<HciFrame>>)
    ensures |data| < 2 ==> r == Err(SHORT_EXTENDED_REPORT)
    ensures |data| >= 2 ==> r == Ok(ExtendedReports(data, 1, data[0], now))
  {
    if |data| < 2 {
      return Err(SHORT_EXTENDED_REPORT);
    }
    var numReports := data[0];
    var frames: seq<HciFrame> := [];
    var offset: nat := 1;
    var i: nat := 0;
    // The loop stops early, as the source's `break` does, once the next
    // header would run past the input.
    while i < numReports && offset + 25 <= |data|
      invariant 0 <= i <= numReports
      invariant frames + ExtendedReports(data, offset, numReports - i, now) == ExtendedReports(data, 1, numReports, now)
    {
      var frame, next := ReadExtendedReport(data, offset, now);
      ExtendedReportsStep(frames, data, offset, numReports - i, now, ExtendedReports(data, 1, numReports, now));
      frames := frames + [frame];
      offset := next;
      i := i + 1;
    }
    ExtendedReportsEnd(frames, data, offset, numReports - i, now, ExtendedReports(data, 1, numReports, now));
    r := Ok(frames);
  }

  /// Once no reports are left to read, the frames decoded so far are all of
  /// them.
  lemma ExtendedReportsEnd(frames: seq<HciFrame>, data: bytes, offset: nat, k: nat, now: int, all: seq<HciFrame>)
    requires k == 0 || !ExtendedGuard(|data|, offset)
    requires frames + ExtendedReports(data, offset, k, now) == all
    ensures frames == all
  {
    assert ExtendedReports(data, offset, k, now) == [];
    assert frames + [] == frames;
  }

  // -----------------------------------------------------------------------
  // parse_le_extended_advertising_report as written

  /// How a call ends: it returns a value, or it panics (an index past the
  /// end of the input).
  datatype Run<T> = Returned(value: T) | Panicked

  /// Prefixes frames already pushed to the rest of a run.
  function PrependRun(done: seq<HciFrame>, rest: Run<seq<HciFrame>>): Run<seq<HciFrame>>
  {
    match rest
    case Returned(v) => Returned(done + v)
    case Panicked => Panicked
  }

  /// Up to `k` extended reports from `offset` under the guard as written:
  /// the loop stops when fewer than 15 bytes remain, and panics when at
  /// least 15 but fewer than 25 remain, since the header reads reach
  /// `offset + 24`.
  function ExtendedReportsAsWritten(data: bytes, offset: nat, k: nat, now: int): Run<seq<HciFrame>>
    decreases k
  {
    if k == 0 || !ExtendedGuardAsWritten(|data|, offset) then Returned([])
    else if !ExtendedGuard(|data|, offset) then Panicked
    else PrependRun([ExtendedReportAt(data, offset, now)],
      ExtendedReportsAsWritten(data, offset + 25 + data[offset + 24], k - 1, now))
  }

  lemma PrependRunAssoc(done: seq<HciFrame>, f: HciFrame, here: Run<seq<HciFrame>>, next: Run<seq<HciFrame>>)
    requires here == PrependRun([f], next)
    ensures PrependRun(done, here) == PrependRun(done + [f], next)
  {
    if next.Returned? {
      assert done + ([f] + next.value) == (done + [f]) + next.value;
    }
  }

  /// `parse_le_extended_advertising_report` as written, panic included.
  method ParseLeExtendedAdvertisingReportAsWritten(data: bytes, now: int) returns (r: Run<Result<seq<HciFrame>>>)
    ensures |data| < 2 ==> r == Returned(Err(SHORT_EXTENDED_REPORT))
    ensures |data| >= 2 ==>
      (r == Panicked <==> ExtendedReportsAsWritten(data, 1, data[0], now) == Panicked)
    ensures |data| >= 2 && r.Returned? ==>
      r.value.Ok? && ExtendedReportsAsWritten(data, 1, data[0], now) == Returned(r.value.value)
  {
    if |data| < 2 {
      return Returned(Err(SHORT_EXTENDED_REPORT));
    }
    var run := ReadExtendedReportsAsWritten(data, now);
    match run
    case Panicked => r := Panicked;
    case Returned(frames) => r := Returned(Ok(frames));
  }

  /// The report loop of the decoder as written: it reads each header under
  /// the 15-byte guard and panics on the first read past the input.
  method ReadExtendedReportsAsWritten(data: bytes, now: int) returns (r: Run<seq<HciFrame>>)
    requires |data| >= 2
    ensures r == ExtendedReportsAsWritten(data, 1, data[0], now)
  {
    var numReports := data[0];
    var frames: seq<HciFrame> := [];
    var offset: nat := 1;
    var i: nat := 0;
    ghost var all := ExtendedReportsAsWritten(data, 1, numReports, now);
    PrependRunNil(all);
    // The loop as written checks for 15 header bytes but each pass reads
    // 25; this loop runs while all 25 are there, and a pass that finds
    // only the 15 is the one that panics.
    while i < numReports && offset + 25 <= |data|
      invariant 0 <= i <= numReports
      invariant all == PrependRun(frames, ExtendedReportsAsWritten(data, offset, numReports - i, now))
    {
      var frame, next := ReadExtendedReport(data, offset, now);
      AsWrittenStep(frames, data, offset, numReports - i, now, all);
      frames := frames + [frame];
      offset := next;
      i := i + 1;
    }
    if i < numReports && offset + 15 <= |data| {
      AsWrittenPanics(frames, data, offset, numReports - i, now);
      r := Panicked;
    } else {
      AsWrittenStops(frames, data, offset, numReports - i, now);
      r := Returned(frames);
    }
  }

  lemma PrependRunNil(r: Run<seq<HciFrame>>)
    ensures PrependRun([], r) == r
  {
    if r.Returned? {
      assert [] + r.value == r.value;
    }
  }

  /// Appending the report at `offset` to the frames decoded so far keeps
  /// the run as written unchanged.
  lemma AsWrittenStep(frames: seq<HciFrame>, data: bytes, offset: nat, k: nat, now: int, all: Run<seq<HciFrame>>)
    requires k > 0 && ExtendedGuard(|data|, offset)
    requires PrependRun(frames, ExtendedReportsAsWritten(data, offset, k, now)) == all
    ensures PrependRun(frames + [ExtendedReportAt(data, offset, now)],
      ExtendedReportsAsWritten(data, offset + 25 + data[offset + 24], k - 1, now)) == all
  {
    PrependRunAssoc(frames, ExtendedReportAt(data, offset, now), ExtendedReportsAsWritten(data, offset, k, now),
      ExtendedReportsAsWritten(data, offset + 25 + data[offset + 24], k - 1, now));
  }

  lemma AsWrittenPanics(frames: seq<HciFrame>, data: bytes, offset: nat, k: nat, now: int)
    requires k > 0 && ExtendedGuardAsWritten(|data|, offset) && !ExtendedGuard(|data|, offset)
    ensures PrependRun(frames, ExtendedReportsAsWritten(data, offset, k, now)) == Panicked
  {
  }

  lemma AsWrittenStops(frames: seq<HciFrame>, data: bytes, offset: nat, k: nat, now: int)
    requires k == 0 || !ExtendedGuardAsWritten(|data|, offset)
    ensures PrependRun(frames, ExtendedReportsAsWritten(data, offset, k, now)) == Returned(frames)
  {
    assert frames + [] == frames;
  }

  /// Wherever the decoder as written does not panic, it decodes what the
  /// guarded decoder decodes.
  lemma {:induction false} ExtendedAsWrittenAgrees(data: bytes, offset: nat, k: nat, now: int)
    ensures ExtendedReportsAsWritten(data, offset, k, now) == Panicked ||
      ExtendedReportsAsWritten(data, offset, k, now) == Returned(ExtendedReports(data, offset, k, now))
    decreases k
  {
    if k > 0 && ExtendedGuard(|data|, offset) {
      ExtendedAsWrittenAgrees(data, offset + 25 + data[offset + 24], k - 1, now);
    }
  }

  /// At most `k` extended frames, each with data inside the input.
  lemma {:induction false} ExtendedReportsBounds(data: bytes, offset: nat, k: nat, now: int)
    ensures |ExtendedReports(data, offset, k, now)| <= k
    ensures forall j :: 0 <= j < |ExtendedReports(data, offset, k, now)| ==> |ExtendedReports(data, offset, k, now)[j].advertisingData| < |data|
    decreases k
  {
    if k > 0 && ExtendedGuard(|data|, offset) {
      var next := offset + 25 + data[offset + 24];
      ExtendedReportsBounds(data, next, k - 1, now);
      var head := ExtendedReportAt(data, offset, now);
      assert |head.advertisingData| < |data|;
      var all := ExtendedReports(data, offset, k, now);
      assert all == [head] + ExtendedReports(data, next, k - 1, now);
      forall j | 0 <= j < |all|
        ensures |all[j].advertisingData| < |data|
      {
        if j > 0 {
          assert all[j] == ExtendedReports(data, next, k - 1, now)[j - 1];
        }
      }
    } else {
      assert ExtendedReports(data, offset, k, now) == [];
    }
  }

  /// Coded PHY is refined by the secondary PHY; the frame type keeps only
  /// the low four bits of the event type.
  lemma ExtendedFieldRules(primary: byte, secondary: byte, eventType: u16)
    ensures ExtendedPhy(primary, secondary) == RawSniffer.UnknownPhy <==> !(1 <= primary <= 3)
    ensures primary == 3 ==> (ExtendedPhy(primary, secondary) == RawSniffer.LeCodedS2 <==> secondary == 2)
    ensures eventType >= 16 ==> ExtendedFrameType(eventType) == ExtendedFrameType(eventType % 16)
  {
  }
}
