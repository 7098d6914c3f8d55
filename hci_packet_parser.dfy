// The L2CAP basic header decoder and the HCI event/L2CAP counters
// (src/hci_packet_parser.rs).

module HciPacketParser {
  import opened Common

  const L2CAP_TOO_SHORT := "L2CAP packet too short"
  const L2CAP_INCOMPLETE := "L2CAP payload incomplete"

  datatype L2CapPacketType = Control | Data | FirstFragment | ContinuationFragment

  datatype L2CapPacket = L2CapPacket(
    payloadLength: u16,
    channelId: u16,
    packetType: L2CapPacketType,
    payload: bytes,
    sduLength: Option<u16>,
    sarFlags: byte)

  /// `L2CapPacket::parse`: a little-endian length and channel ID, then
  /// exactly `length` payload bytes; trailing bytes are ignored.
  function ParseL2Cap(data: bytes): Result<L2CapPacket>
  {
    if |data| < 4 then Err(L2CAP_TOO_SHORT)
    else
      var payloadLength := U16Le(data[0], data[1]);
      var channelId := U16Le(data[2], data[3]);
      if |data| < 4 + payloadLength then Err(L2CAP_INCOMPLETE)
      else Ok(L2CapPacket(payloadLength, channelId, Data, data[4..4 + payloadLength], None, 0))
  }

  /// The basic header followed by the payload.
  function EncodeL2Cap(channelId: u16, payload: bytes): (r: bytes)
    requires |payload| < 0x1_0000
  {
    U16LeBytes(|payload|) + U16LeBytes(channelId) + payload
  }

  /// Parsing fails exactly when the header or the declared payload is
  /// missing, and a success reads the declared number of bytes.
  lemma ParseL2CapMeaning(data: bytes)
    ensures |data| < 4 ==> ParseL2Cap(data) == Err(L2CAP_TOO_SHORT)
    ensures |data| >= 4 ==> (ParseL2Cap(data).Ok? <==> |data| >= 4 + U16Le(data[0], data[1]))
    ensures ParseL2Cap(data).Ok? ==> (
      var p := ParseL2Cap(data).value;
      |p.payload| == p.payloadLength && p.channelId == U16Le(data[2], data[3])
      && p.packetType == Data && p.sduLength == None && p.sarFlags == 0)
  {
  }

  /// A successful parse consumed exactly the encoding of its result.
  lemma ParseL2CapConsumes(data: bytes)
    requires ParseL2Cap(data).Ok?
    ensures |ParseL2Cap(data).value.payload| < 0x1_0000
    ensures data[..4 + ParseL2Cap(data).value.payloadLength]
      == EncodeL2Cap(ParseL2Cap(data).value.channelId, ParseL2Cap(data).value.payload)
  {
    var p := ParseL2Cap(data).value;
    assert U16LeBytes(|p.payload|) == data[0..2];
    assert U16LeBytes(p.channelId) == data[2..4];
    assert data[..4 + p.payloadLength] == data[0..2] + data[2..4] + p.payload;
  }

  /// An encoded packet parses back to its channel and payload.
  lemma EncodeParsesBack(channelId: u16, payload: bytes, trailing: bytes)
    requires |payload| < 0x1_0000
    ensures ParseL2Cap(EncodeL2Cap(channelId, payload) + trailing)
      == Ok(L2CapPacket(|payload|, channelId, Data, payload, None, 0))
  {
    var d := EncodeL2Cap(channelId, payload) + trailing;
    assert d[0..2] == U16LeBytes(|payload|);
    assert d[2..4] == U16LeBytes(channelId);
    assert d[4..4 + |payload|] == payload;
  }

  /// `channel_name`
  function ChannelName(cid: u16): string
  {
    match cid
      case 0x0001 => "L2CAP Signaling"
      case 0x0003 => "RFCOMM"
      case 0x001F => "Attribute Protocol (ATT)"
      case 0x0021 => "Enhanced ATT (EATT)"
      case 0x0023 => "Security Manager (SMP)"
      case _ => "Unknown"
  }

  /// Five fixed channels have names; every other channel is "Unknown".
  lemma ChannelNameKnown(cid: u16)
    ensures ChannelName(cid) != "Unknown" <==> cid in {0x0001, 0x0003, 0x001F, 0x0021, 0x0023}
    ensures cid == 0x001F ==> ChannelName(cid) == "Attribute Protocol (ATT)"
  {
  }

  // -----------------------------------------------------------------------
  // PhyType

  datatype PhyType = Le1m | Le2m | LeCoded
  {
    /// The enum discriminant.
    function Code(): byte
    {
      match this
        case Le1m => 1
        case Le2m => 2
        case LeCoded => 3
    }

    function Name(): string
    {
      match this
        case Le1m => "LE 1M"
        case Le2m => "LE 2M"
        case LeCoded => "LE Coded"
    }
  }

  /// `PhyType::from_u8`
  function PhyFromU8(value: byte): Option<PhyType>
  {
    match value
      case 1 => Some(Le1m)
      case 2 => Some(Le2m)
      case 3 => Some(LeCoded)
      case _ => None
  }

  /// `from_u8` is defined exactly on 1..3 and inverts the discriminant.
  lemma PhyFromU8Inverse(value: byte, p: PhyType)
    ensures PhyFromU8(value).Some? <==> 1 <= value <= 3
    ensures PhyFromU8(p.Code()) == Some(p)
    ensures PhyFromU8(value) == Some(p) ==> p.Code() == value
  {
  }

  /// The three names differ.
  lemma PhyNamesDistinct(p: PhyType, q: PhyType)
    ensures p.Name() == q.Name() ==> p == q
  {
  }

  // -----------------------------------------------------------------------
  // HCI events and the parser's counters

  /// `decoded` is always `None` in this decoder and is not carried.
  datatype HciEvent = HciEvent(eventCode: byte, eventName: string, parameterLength: byte, parameters: bytes)

  /// The name recorded for an event code; unknown codes are printed as two
  /// upper-case hex digits.
  function EventName(code: byte): string
  {
    match code
      case 0x05 => "Disconnection Complete"
      case 0x3E => "LE Meta Event"
      case 0x13 => "Number of Completed Packets"
      case _ => "Unknown Event (0x" + Hex2Upper(code) + ")"
  }

  /// Reads an event code back from its recorded name.
  function EventCodeOf(name: string): Option<byte>
  {
    if name == "Disconnection Complete" then Some(0x05)
    else if name == "LE Meta Event" then Some(0x3E)
    else if name == "Number of Completed Packets" then Some(0x13)
    else if |name| == 20 && name[..17] == "Unknown Event (0x" && name[19] == ')' then ParseU8Hex(name[17..19])
    else None
  }

  /// Every name reads back to its code, so different codes are counted
  /// under different names.
  lemma EventNameRoundTrip(code: byte)
    ensures EventCodeOf(EventName(code)) == Some(code)
  {
    if code != 0x05 && code != 0x3E && code != 0x13 {
      var name := EventName(code);
      assert |name| == 20;
      assert name[17..19] == Hex2Upper(code);
      ParseU8HexOfHex2(code);
    }
  }

  lemma EventNameInjective(a: byte, b: byte)
    ensures EventName(a) == EventName(b) ==> a == b
  {
    EventNameRoundTrip(a);
    EventNameRoundTrip(b);
  }

  /// `HciPacketParser`. Each `HashMap<_, u64>` of counts is a multiset: the
  /// count of a key is its multiplicity.
  class HciPacketParser {
    var totalHciEvents: nat
    var totalL2capPackets: nat
    var eventTypeCounts: multiset<string>
    var cidCounts: multiset<u16>
    var phyDistribution: multiset<string>

    /// Every counted event and packet is in its per-key counts.
    predicate Valid()
      reads this
    {
      totalHciEvents == |eventTypeCounts| && totalL2capPackets == |cidCounts|
    }

    constructor ()
      ensures Valid()
      ensures totalHciEvents == 0 && totalL2capPackets == 0
      ensures eventTypeCounts == multiset{} && cidCounts == multiset{} && phyDistribution == multiset{}
    {
      totalHciEvents := 0;
      totalL2capPackets := 0;
      eventTypeCounts := multiset{};
      cidCounts := multiset{};
      phyDistribution := multiset{};
    }

    /// `parse_hci_event`: counts the event under its name. The parameter
    /// length is the byte count truncated to `u8`.
    method ParseHciEvent(eventCode: byte, parameters: bytes) returns (e: HciEvent)
      requires Valid()
      modifies this
      ensures Valid()
      ensures e == HciEvent(eventCode, EventName(eventCode), TruncByte(|parameters|), parameters)
      ensures totalHciEvents == old(totalHciEvents) + 1
      ensures eventTypeCounts == old(eventTypeCounts) + multiset{EventName(eventCode)}
      ensures totalL2capPackets == old(totalL2capPackets) && cidCounts == old(cidCounts)
      ensures phyDistribution == old(phyDistribution)
    {
      totalHciEvents := totalHciEvents + 1;
      var eventName := EventName(eventCode);
      eventTypeCounts := eventTypeCounts[eventName := eventTypeCounts[eventName] + 1];
      e := HciEvent(eventCode, eventName, TruncByte(|parameters|), parameters);
    }

    /// `parse_l2cap_packet`: counts a packet under its channel only when it
    /// parses; a failed parse changes nothing.
    method ParseL2capPacket(data: bytes) returns (r: Result<L2CapPacket>)
      requires Valid()
      modifies this
      ensures Valid()
      ensures r == ParseL2Cap(data)
      ensures r.Ok? ==> (totalL2capPackets == old(totalL2capPackets) + 1
        && cidCounts == old(cidCounts) + multiset{r.value.channelId})
      ensures r.Err? ==> totalL2capPackets == old(totalL2capPackets) && cidCounts == old(cidCounts)
      ensures totalHciEvents == old(totalHciEvents) && eventTypeCounts == old(eventTypeCounts)
      ensures phyDistribution == old(phyDistribution)
    {
      r := ParseL2Cap(data);
      if r.Ok? {
        totalL2capPackets := totalL2capPackets + 1;
        cidCounts := cidCounts[r.value.channelId := cidCounts[r.value.channelId] + 1];
      }
    }
  }

  /// Counting an event raises its name's count by one and leaves every
  /// other name's count alone.
  lemma EventCountsOnlyThatName(counts: multiset<string>, code: byte, other: string)
    ensures (counts + multiset{EventName(code)})[EventName(code)] == counts[EventName(code)] + 1
    ensures other != EventName(code) ==> (counts + multiset{EventName(code)})[other] == counts[other]
  {
  }

  /// The test packet: a 4-byte payload on the ATT channel.
  lemma L2CapExample(data: bytes)
    requires data == [0x04, 0x00, 0x1F, 0x00, 0x01, 0x02, 0x03, 0x04]
    ensures ParseL2Cap(data).Ok?
    ensures ParseL2Cap(data).value.payloadLength == 4 && ParseL2Cap(data).value.channelId == 0x001F
    ensures ChannelName(ParseL2Cap(data).value.channelId) == "Attribute Protocol (ATT)"
  {
  }
}
