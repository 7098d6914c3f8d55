// The classic libpcap writer for Bluetooth HCI captures
// (src/pcap_exporter.rs): the 24-byte global header, the 16-byte record
// header, HCI event and ACL packets, the file-backed exporter's counters and
// the in-memory export of captured advertising frames.

module PcapExporter {
  import opened Common
  import RawSniffer
  import HciSnifferExample

  type i32 = x: int | -0x8000_0000 <= x < 0x8000_0000

  /// `x as u32` for any integer: the low 32 bits.
  function TruncU32(x: int): u32
  {
    x % 0x1_0000_0000
  }

  // -----------------------------------------------------------------------
  // Headers

  datatype PcapGlobalHeader = PcapGlobalHeader(
    magicNumber: u32,
    versionMajor: u16,
    versionMinor: u16,
    thiszone: i32,
    sigfigs: u32,
    snaplen: u32,
    network: u32)

  /// Format 2.4, microsecond magic, UTC, 65535-byte snapshots and link type
  /// 201 (Bluetooth HCI H4 with pseudo-header).
  function NewGlobalHeader(): PcapGlobalHeader
  {
    PcapGlobalHeader(0xa1b2c3d4, 2, 4, 0, 0, 65535, 201)
  }

  /// Byte `k` of `v`, least significant first.
  function ByteAt(v: nat, k: nat): byte
  {
    if k == 0 then v % 0x100
    else if k == 1 then v / 0x100 % 0x100
    else if k == 2 then v / 0x1_0000 % 0x100
    else v / 0x100_0000 % 0x100
  }

  /// The four little-endian bytes of a `u32` read back to it.
  lemma U32Bytes(v: u32)
    ensures U32Le(ByteAt(v, 0), ByteAt(v, 1), ByteAt(v, 2), ByteAt(v, 3)) == v
  {
    var q1 := v / 0x100;
    var q2 := q1 / 0x100;
    ByteSplit(v);
    ByteSplit(q1);
    ByteSplit(q2);
    assert ByteAt(v, 3) == ByteAt(q2 / 0x100, 0);
  }

  /// The two little-endian bytes of a `u16` read back to it.
  lemma U16Bytes(v: u16)
    ensures U16Le(ByteAt(v, 0), ByteAt(v, 1)) == v
  {
    ByteSplit(v);
  }

  /// `PcapGlobalHeader::to_bytes`: every field little-endian.
  function GlobalHeaderBytes(h: PcapGlobalHeader): (r: bytes)
    ensures |r| == 24
  {
    var z := TruncU32(h.thiszone);
    [ByteAt(h.magicNumber, 0), ByteAt(h.magicNumber, 1), ByteAt(h.magicNumber, 2), ByteAt(h.magicNumber, 3),
     ByteAt(h.versionMajor, 0), ByteAt(h.versionMajor, 1), ByteAt(h.versionMinor, 0), ByteAt(h.versionMinor, 1),
     ByteAt(z, 0), ByteAt(z, 1), ByteAt(z, 2), ByteAt(z, 3),
     ByteAt(h.sigfigs, 0), ByteAt(h.sigfigs, 1), ByteAt(h.sigfigs, 2), ByteAt(h.sigfigs, 3),
     ByteAt(h.snaplen, 0), ByteAt(h.snaplen, 1), ByteAt(h.snaplen, 2), ByteAt(h.snaplen, 3),
     ByteAt(h.network, 0), ByteAt(h.network, 1), ByteAt(h.network, 2), ByteAt(h.network, 3)]
  }

  /// Reads a global header back, as a capture reader would.
  function ParseGlobalHeader(b: bytes): PcapGlobalHeader
    requires |b| >= 24
  {
    var zone := U32Le(b[8], b[9], b[10], b[11]);
    PcapGlobalHeader(U32Le(b[0], b[1], b[2], b[3]), U16Le(b[4], b[5]), U16Le(b[6], b[7]),
      if zone < 0x8000_0000 then zone else zone - 0x1_0000_0000,
      U32Le(b[12], b[13], b[14], b[15]), U32Le(b[16], b[17], b[18], b[19]), U32Le(b[20], b[21], b[22], b[23]))
  }

  /// The header reads back to itself.
  lemma GlobalHeaderRoundTrip(h: PcapGlobalHeader)
    ensures ParseGlobalHeader(GlobalHeaderBytes(h)) == h
  {
    U32Bytes(h.magicNumber);
    U16Bytes(h.versionMajor);
    U16Bytes(h.versionMinor);
    U32Bytes(TruncU32(h.thiszone));
    U32Bytes(h.sigfigs);
    U32Bytes(h.snaplen);
    U32Bytes(h.network);
  }

  /// The header written by the exporter starts with the magic bytes
  /// D4 C3 B2 A1 and ends with link type 201.
  lemma NewGlobalHeaderBytes(h: PcapGlobalHeader)
    requires h == NewGlobalHeader()
    ensures GlobalHeaderBytes(h)[..4] == [0xd4, 0xc3, 0xb2, 0xa1]
    ensures GlobalHeaderBytes(h)[20..] == [201, 0, 0, 0]
  {
  }

  datatype PcapPacketHeader = PcapPacketHeader(tsSec: u32, tsUsec: u32, inclLen: u32, origLen: u32)

  /// `PcapPacketHeader::new`: the capture time is given as seconds and
  /// microseconds; both lengths are the packet length.
  function NewPacketHeader(packetLen: u32, nowSec: nat, nowUsec: nat): PcapPacketHeader
    requires nowUsec < 1_000_000
  {
    PcapPacketHeader(TruncU32(nowSec), nowUsec, packetLen, packetLen)
  }

  /// `PcapPacketHeader::to_bytes`
  function PacketHeaderBytes(h: PcapPacketHeader): (r: bytes)
    ensures |r| == 16
  {
    [ByteAt(h.tsSec, 0), ByteAt(h.tsSec, 1), ByteAt(h.tsSec, 2), ByteAt(h.tsSec, 3),
     ByteAt(h.tsUsec, 0), ByteAt(h.tsUsec, 1), ByteAt(h.tsUsec, 2), ByteAt(h.tsUsec, 3),
     ByteAt(h.inclLen, 0), ByteAt(h.inclLen, 1), ByteAt(h.inclLen, 2), ByteAt(h.inclLen, 3),
     ByteAt(h.origLen, 0), ByteAt(h.origLen, 1), ByteAt(h.origLen, 2), ByteAt(h.origLen, 3)]
  }

  function ParsePacketHeader(b: bytes): PcapPacketHeader
    requires |b| >= 16
  {
    PcapPacketHeader(U32Le(b[0], b[1], b[2], b[3]), U32Le(b[4], b[5], b[6], b[7]),
      U32Le(b[8], b[9], b[10], b[11]), U32Le(b[12], b[13], b[14], b[15]))
  }

  /// A record header reads back to itself.
  lemma PacketHeaderRoundTrip(h: PcapPacketHeader)
    ensures ParsePacketHeader(PacketHeaderBytes(h)) == h
  {
    U32Bytes(h.tsSec);
    U32Bytes(h.tsUsec);
    U32Bytes(h.inclLen);
    U32Bytes(h.origLen);
  }

  // -----------------------------------------------------------------------
  // HCI packets

  /// `BluetoothPacketType` discriminants.
  const COMMAND: byte := 0x01
  const ACL_OUT: byte := 0x02
  const SCO_OUT: byte := 0x03
  const EVENT: byte := 0x04
  const ACL_IN: byte := 0x05
  const SCO_IN: byte := 0x06

  datatype HciPcapPacket = HciPcapPacket(packetType: byte, data: bytes, sourceMac: Option<string>, destMac: Option<string>)

  /// `HciPcapPacket::event`: code, parameter count as `u8`, parameters.
  function Event(eventCode: byte, parameters: bytes): HciPcapPacket
  {
    HciPcapPacket(EVENT, [eventCode, TruncByte(|parameters|)] + parameters, None, None)
  }

  /// `HciPcapPacket::acl_in`: the handle's low 12 bits with packet-boundary
  /// flag 2 in bits 12-13, the length as `u16`, then the data.
  function AclIn(handle: u16, data: bytes): HciPcapPacket
  {
    var handleFlags := handle % 0x1000 + 2 * 0x1000;
    HciPcapPacket(ACL_IN, U16LeBytes(handleFlags) + U16LeBytes(|data| % 0x1_0000) + data, None, None)
  }

  /// `get_size`: the packet-type byte plus the data, as `u32`.
  function GetSize(p: HciPcapPacket): u32
  {
    TruncU32(1 + |p.data|)
  }

  /// An event packet reads back to its code and parameters.
  lemma EventLayout(eventCode: byte, parameters: bytes)
    requires |parameters| < 0x100
    ensures Event(eventCode, parameters).packetType == EVENT
    ensures Event(eventCode, parameters).data[0] == eventCode
    ensures Event(eventCode, parameters).data[1] == |parameters|
    ensures Event(eventCode, parameters).data[2..] == parameters
    ensures GetSize(Event(eventCode, parameters)) == 3 + |parameters|
  {
  }

  /// An ACL packet reads back to the handle's low 12 bits, flag 2, the
  /// length and the data.
  lemma AclInLayout(handle: u16, data: bytes)
    requires |data| < 0x1_0000
    ensures AclIn(handle, data).packetType == ACL_IN
    ensures U16Le(AclIn(handle, data).data[0], AclIn(handle, data).data[1]) % 0x1000 == handle % 0x1000
    ensures U16Le(AclIn(handle, data).data[0], AclIn(handle, data).data[1]) / 0x1000 == 2
    ensures U16Le(AclIn(handle, data).data[2], AclIn(handle, data).data[3]) == |data|
    ensures AclIn(handle, data).data[4..] == data
    ensures GetSize(AclIn(handle, data)) == 5 + |data|
  {
    var d := AclIn(handle, data).data;
    var flags := U16LeBytes(handle % 0x1000 + 2 * 0x1000);
    assert |data| % 0x1_0000 == |data|;
    var len := U16LeBytes(|data|);
    assert d == flags + len + data;
    assert d[0] == flags[0] && d[1] == flags[1];
    assert d[2] == len[0] && d[3] == len[1];
    assert d[4..] == data;
    FlagsSplit(handle % 0x1000);
  }

  lemma FlagsSplit(low: nat)
    requires low < 0x1000
    ensures (low + 2 * 0x1000) % 0x1000 == low && (low + 2 * 0x1000) / 0x1000 == 2
  {
  }

  // -----------------------------------------------------------------------
  // The file-backed exporter

  /// `PcapExporter`. The file's contents are `written`; an in-memory
  /// exporter has no file and writes nothing. Write failures are not
  /// modelled.
  class PcapExporter {
    var filePath: string
    var hasFile: bool
    var written: bytes
    var packetCount: nat
    var totalBytes: nat

    /// `total_bytes` is the size of what was written.
    predicate Valid()
      reads this
    {
      totalBytes == |written| && (!hasFile ==> written == [])
    }

    /// `new`: creates the file (directory creation is not modelled).
    constructor (path: string)
      ensures Valid() && filePath == path && hasFile
      ensures written == [] && packetCount == 0 && totalBytes == 0
    {
      filePath := path;
      hasFile := true;
      written := [];
      packetCount := 0;
      totalBytes := 0;
    }

    /// `new_to_memory`
    constructor ToMemory()
      ensures Valid() && filePath == ":memory:" && !hasFile
      ensures written == [] && packetCount == 0 && totalBytes == 0
    {
      filePath := ":memory:";
      hasFile := false;
      written := [];
      packetCount := 0;
      totalBytes := 0;
    }

    /// `write_header`
    method WriteHeader()
      requires Valid()
      modifies this
      ensures Valid()
      ensures hasFile == old(hasFile) && filePath == old(filePath) && packetCount == old(packetCount)
      ensures hasFile ==> (written == old(written) + GlobalHeaderBytes(NewGlobalHeader())
        && totalBytes == old(totalBytes) + 24)
      ensures !hasFile ==> written == old(written) && totalBytes == old(totalBytes)
    {
      if hasFile {
        var headerBytes := GlobalHeaderBytes(NewGlobalHeader());
        written := written + headerBytes;
        totalBytes := totalBytes + |headerBytes|;
      }
    }

    /// `write_packet`: a record header stamped with the given time, the
    /// packet-type byte and the data.
    method WritePacket(packet: HciPcapPacket, nowSec: nat, nowUsec: nat)
      requires Valid() && nowUsec < 1_000_000
      modifies this
      ensures Valid()
      ensures hasFile == old(hasFile) && filePath == old(filePath)
      ensures hasFile ==> (written == old(written)
          + PacketHeaderBytes(NewPacketHeader(GetSize(packet), nowSec, nowUsec)) + [packet.packetType] + packet.data
        && packetCount == old(packetCount) + 1
        && totalBytes == old(totalBytes) + 17 + |packet.data|)
      ensures !hasFile ==> written == old(written) && packetCount == old(packetCount) && totalBytes == old(totalBytes)
    {
      if hasFile {
        var header := NewPacketHeader(GetSize(packet), nowSec, nowUsec);
        var headerBytes := PacketHeaderBytes(header);
        written := written + headerBytes + [packet.packetType] + packet.data;
        packetCount := packetCount + 1;
        totalBytes := totalBytes + |headerBytes| + 1 + |packet.data|;
      }
    }

    /// `get_stats`
    method GetStats() returns (path: string, count: nat, total: nat)
      ensures path == filePath && count == packetCount && total == totalBytes
    {
      path := filePath;
      count := packetCount;
      total := totalBytes;
    }
  }

  // -----------------------------------------------------------------------
  // export_frames_to_buffer

  /// The advertising-report event type written for a frame type; types
  /// without a legacy code are written as ADV_IND.
  function ExportEventType(t: RawSniffer.AdvertisingType): byte
  {
    match t
      case AdvInd => 0x00
      case AdvDirectInd => 0x01
      case AdvScanInd => 0x02
      case AdvNonconnInd => 0x03
      case ScanRsp => 0x04
      case _ => 0x00
  }

  /// The address bytes written for a frame: its hex digits decoded and
  /// reversed, or six zero bytes when they do not decode.
  function ExportMacBytes(mac: string): bytes
  {
    match HexDecode(RemoveChar(mac, ':'))
      case Some(b) => Reversed(b)
      case None => [0, 0, 0, 0, 0, 0]
  }

  /// The LE Advertising Report parameters for one frame.
  function ReportParams(f: RawSniffer.BluetoothFrame): bytes
  {
    [0x02, 0x01, ExportEventType(f.frameType), 0x00] + ExportMacBytes(f.macAddress)
    + [TruncByte(|f.advertisingData|)] + f.advertisingData + [I8AsByte(f.rssi)]
  }

  /// The H4 packet: type 0x04, LE Meta Event 0x3E, parameter count as `u8`,
  /// the parameters.
  function ReportPacket(f: RawSniffer.BluetoothFrame): bytes
  {
    [EVENT, 0x3E, TruncByte(|ReportParams(f)|)] + ReportParams(f)
  }

  /// The record header for a frame: its microsecond timestamp split into
  /// whole seconds (`timestamp() as u32`) and the microseconds within the
  /// second (`timestamp_subsec_micros()`).
  function ReportHeader(f: RawSniffer.BluetoothFrame): PcapPacketHeader
  {
    var len := TruncU32(|ReportPacket(f)|);
    PcapPacketHeader(TruncU32(f.timestamp / 1_000_000), f.timestamp % 1_000_000, len, len)
  }

  function FrameRecord(f: RawSniffer.BluetoothFrame): bytes
  {
    PacketHeaderBytes(ReportHeader(f)) + ReportPacket(f)
  }

  /// The records of `frames`, in order.
  function Records(frames: seq<RawSniffer.BluetoothFrame>): bytes
  {
    if frames == [] then [] else Records(frames[..|frames| - 1]) + FrameRecord(frames[|frames| - 1])
  }

  /// Builds one frame's record the way the exporter does, field by field.
  method BuildRecord(f: RawSniffer.BluetoothFrame) returns (rec: bytes)
    ensures rec == FrameRecord(f)
  {
    var params: bytes := [0x02, 0x01];
    params := params + [ExportEventType(f.frameType)];
    params := params + [0x00];
    var macClean := RemoveChar(f.macAddress, ':');
    var decoded := HexDecode(macClean);
    if decoded.Some? {
      params := params + Reversed(decoded.value);
    } else {
      params := params + [0, 0, 0, 0, 0, 0];
    }
    params := params + [TruncByte(|f.advertisingData|)];
    params := params + f.advertisingData;
    params := params + [I8AsByte(f.rssi)];
    assert params == ReportParams(f);
    var eventData := [0x3E, TruncByte(|params|)] + params;
    var packet := [EVENT] + eventData;
    assert packet == ReportPacket(f);
    var pktLen := TruncU32(|packet|);
    var header := PcapPacketHeader(TruncU32(f.timestamp / 1_000_000), f.timestamp % 1_000_000, pktLen, pktLen);
    rec := PacketHeaderBytes(header) + packet;
  }

  /// `export_frames_to_buffer`: the global header, then one record per
  /// frame.
  method ExportFramesToBuffer(frames: seq<RawSniffer.BluetoothFrame>) returns (buffer: bytes)
    ensures buffer == GlobalHeaderBytes(NewGlobalHeader()) + Records(frames)
  {
    var header := GlobalHeaderBytes(NewGlobalHeader());
    buffer := header;
    for i := 0 to |frames|
      invariant buffer == header + Records(frames[..i])
    {
      var rec := BuildRecord(frames[i]);
      RecordsSnoc(header, buffer, frames, i, rec);
      buffer := buffer + rec;
    }
    assert frames[..|frames|] == frames;
  }

  /// The records of a prefix one frame longer.
  lemma RecordsSnoc(header: bytes, buffer: bytes, frames: seq<RawSniffer.BluetoothFrame>, i: nat, rec: bytes)
    requires i < |frames|
    requires buffer == header + Records(frames[..i]) && rec == FrameRecord(frames[i])
    ensures buffer + rec == header + Records(frames[..i + 1])
  {
    RecordsPrefix(frames, i);
    AppendAssoc(header, Records(frames[..i]), rec);
  }

  lemma AppendAssoc(a: bytes, b: bytes, c: bytes)
    ensures (a + b) + c == a + (b + c)
  {
  }

  lemma RecordsPrefix(frames: seq<RawSniffer.BluetoothFrame>, i: nat)
    requires i < |frames|
    ensures Records(frames[..i + 1]) == Records(frames[..i]) + FrameRecord(frames[i])
  {
    assert frames[..i + 1][..i] == frames[..i];
  }

  /// Exporting more frames appends their records.
  lemma {:induction false} RecordsAppend(a: seq<RawSniffer.BluetoothFrame>, b: seq<RawSniffer.BluetoothFrame>)
    ensures Records(a + b) == Records(a) + Records(b)
    decreases |b|
  {
    if b != [] {
      var b' := b[..|b| - 1];
      assert (a + b)[..|a + b| - 1] == a + b';
      assert (a + b)[|a + b| - 1] == b[|b| - 1];
      RecordsAppend(a, b');
      AppendAssoc(Records(a), Records(b'), FrameRecord(b[|b| - 1]));
    } else {
      assert a + b == a;
    }
  }

  /// The H4 packet of a frame: an LE Advertising Report with one report,
  /// the event type, address type public, the address, the data length and
  /// data, and the RSSI last.
  lemma ReportPacketLayout(f: RawSniffer.BluetoothFrame)
    requires |f.advertisingData| < 0x100
    ensures var pkt := ReportPacket(f); var mac := ExportMacBytes(f.macAddress);
      |pkt| == 9 + |mac| + |f.advertisingData|
      && pkt[..5] == [EVENT, 0x3E, TruncByte(|pkt| - 3), 0x02, 0x01]
      && pkt[5] == ExportEventType(f.frameType) && pkt[6] == 0
      && pkt[7..7 + |mac|] == mac
      && pkt[7 + |mac|] == |f.advertisingData|
      && pkt[8 + |mac|..|pkt| - 1] == f.advertisingData
      && pkt[|pkt| - 1] == I8AsByte(f.rssi)
  {
    var mac := ExportMacBytes(f.macAddress);
    var params := ReportParams(f);
    var head: bytes := [0x02, 0x01, ExportEventType(f.frameType), 0x00];
    var tail: bytes := [TruncByte(|f.advertisingData|)] + f.advertisingData + [I8AsByte(f.rssi)];
    assert params == head + mac + tail;
    var pkt := ReportPacket(f);
    assert pkt == [EVENT, 0x3E, TruncByte(|params|)] + head + mac + tail;
    assert pkt[7..7 + |mac|] == mac;
    assert pkt[7 + |mac|..] == tail;
  }

  /// A record is a 16-byte header whose two lengths both count the H4
  /// packet that follows and whose time is the frame's microsecond
  /// timestamp split into seconds and microseconds.
  lemma FrameRecordLayout(f: RawSniffer.BluetoothFrame)
    requires |f.advertisingData| < 0x100 && |f.macAddress| < 0x1_0000
    ensures var rec := FrameRecord(f);
      |rec| == 16 + |ReportPacket(f)| && rec[16..] == ReportPacket(f)
      && ParsePacketHeader(rec[..16])
        == PcapPacketHeader(TruncU32(f.timestamp / 1_000_000), f.timestamp % 1_000_000, |rec| - 16, |rec| - 16)
    ensures 0 <= f.timestamp < 0x1_0000_0000 * 1_000_000 ==>
      var h := ParsePacketHeader(FrameRecord(f)[..16]);
      h.tsSec * 1_000_000 + h.tsUsec == f.timestamp
  {
    ExportMacBytesShort(f.macAddress);
    ReportPacketLayout(f);
    var pkt := ReportPacket(f);
    assert TruncU32(|pkt|) == |pkt|;
    var h := PcapPacketHeader(TruncU32(f.timestamp / 1_000_000), f.timestamp % 1_000_000, |pkt|, |pkt|);
    assert ReportHeader(f) == h;
    RecordSplit(h, pkt);
    assert FrameRecord(f) == PacketHeaderBytes(h) + pkt;
    TimestampSplit(f.timestamp);
  }

  /// Seconds and microseconds recombine to a timestamp that fits the
  /// `u32` seconds field.
  lemma TimestampSplit(t: int)
    ensures 0 <= t < 0x1_0000_0000 * 1_000_000 ==>
      TruncU32(t / 1_000_000) * 1_000_000 + t % 1_000_000 == t
  {
    if 0 <= t < 0x1_0000_0000 * 1_000_000 {
      assert t / 1_000_000 < 0x1_0000_0000;
    }
  }

  /// A record reads back to its header and its packet.
  lemma RecordSplit(h: PcapPacketHeader, pkt: bytes)
    ensures ParsePacketHeader((PacketHeaderBytes(h) + pkt)[..16]) == h
    ensures (PacketHeaderBytes(h) + pkt)[16..] == pkt
  {
    PacketHeaderRoundTrip(h);
    assert (PacketHeaderBytes(h) + pkt)[..16] == PacketHeaderBytes(h);
  }

  /// The exported address is never longer than its text.
  lemma ExportMacBytesShort(mac: string)
    ensures |ExportMacBytes(mac)| <= |mac| + 6
  {
    RemoveCharShorter(mac, ':');
  }

  /// `RemoveChar` never lengthens.
  lemma {:induction false} RemoveCharShorter(s: string, c: char)
    ensures |RemoveChar(s, c)| <= |s|
  {
    if s != [] {
      RemoveCharShorter(s[1..], c);
    }
  }

  /// A frame whose address was printed from six bytes gets those bytes
  /// back, reversed into HCI order.
  lemma ExportMacOfPrinted(b: bytes)
    requires |b| == 6
    ensures ExportMacBytes(MacText(b)) == Reversed(b)
  {
    MacTextWithoutColons(b);
    HexDecodeHexUpper(b);
  }

  // -----------------------------------------------------------------------
  // Event-type codes read back by the report decoders

  /// The decoders as written map 0x02 to non-connectable and 0x03 to
  /// scannable, while this exporter writes them the other way round (as
  /// the Core specification numbers them), so a scannable frame comes back
  /// non-connectable and the reverse.
  lemma ExportThenDecodeSwaps()
    ensures RawSniffer.ReportFrameTypeAsWritten(ExportEventType(RawSniffer.AdvScanInd)) == RawSniffer.AdvNonconnInd
    ensures RawSniffer.ReportFrameTypeAsWritten(ExportEventType(RawSniffer.AdvNonconnInd)) == RawSniffer.AdvScanInd
    ensures HciSnifferExample.LegacyFrameTypeAsWritten(ExportEventType(RawSniffer.AdvScanInd)) == RawSniffer.AdvNonconnInd
    ensures HciSnifferExample.LegacyFrameTypeAsWritten(ExportEventType(RawSniffer.AdvNonconnInd)) == RawSniffer.AdvScanInd
  {
  }

  /// With the Core numbering in the decoders every legacy type survives
  /// export and decode, and the other types come back as ADV_IND; the
  /// raw decoder, which has no SCAN_RSP, keeps the four others.
  lemma ExportThenDecodeRoundTrip(t: RawSniffer.AdvertisingType)
    ensures t !in {RawSniffer.ExtAdvInd, RawSniffer.UnknownAdv} ==> HciSnifferExample.LegacyFrameType(ExportEventType(t)) == t
    ensures t in {RawSniffer.ExtAdvInd, RawSniffer.UnknownAdv} ==> HciSnifferExample.LegacyFrameType(ExportEventType(t)) == RawSniffer.AdvInd
    ensures t !in {RawSniffer.ScanRsp, RawSniffer.ExtAdvInd, RawSniffer.UnknownAdv} ==> RawSniffer.ReportFrameType(ExportEventType(t)) == t
    ensures ExportEventType(t) <= 4
  {
  }
}
