// Per-device RSSI filtering and deduplication, and the global packet order
// (src/packet_tracker.rs).

module PacketTracker {
  import opened Common
  import ConfigParams

  /// The fields of `RawPacketModel` the trackers read.
  datatype RawPacket = RawPacket(packetId: u64, macAddress: string, timestampMs: u64, rssi: i8)

  // -----------------------------------------------------------------------
  // DevicePacketTracker

  /// The fields of a `DevicePacketTracker`, as a value.
  datatype DeviceState = DeviceState(
    macAddress: string,
    packetSequence: seq<u64>,
    lastPacketTimeMs: u64,
    packetRssiMap: map<u64, i8>,
    totalPackets: nat,
    totalFiltered: nat,
    totalDuplicates: nat)

  /// `DevicePacketTracker::new`
  function NewDeviceState(mac: string): DeviceState
  {
    DeviceState(mac, [], 0, map[], 0, 0, 0)
  }

  /// Every packet received was accepted, filtered or a duplicate, and
  /// every accepted ID has an RSSI entry.
  predicate DeviceValid(s: DeviceState)
  {
    s.totalPackets == |s.packetSequence| + s.totalFiltered + s.totalDuplicates
    && forall i :: 0 <= i < |s.packetSequence| ==> s.packetSequence[i] in s.packetRssiMap
  }

  /// The rule of `is_duplicate`, given the RSSI it compares against: there
  /// was an earlier packet (time 0 means none), the new one is within the
  /// window (a packet from the past counts as 0 ms later) and it is
  /// strictly weaker.
  predicate DuplicateRule(lastTimeMs: u64, reference: Option<i8>, p: RawPacket)
  {
    lastTimeMs != 0
    && ConfigParams.CalculateLatencyMs(lastTimeMs, p.timestampMs) <= ConfigParams.PACKET_DEDUP_WINDOW_MS
    && reference.Some? && p.rssi < reference.value
  }

  /// `iter` over the RSSI map visits its keys in `order`, some order the
  /// hash map chooses.
  predicate IsIterationOrder(m: map<u64, i8>, order: seq<u64>)
  {
    (forall k :: k in m ==> k in order) && (forall i :: 0 <= i < |order| ==> order[i] in m) && |order| == |m|
  }

  /// `is_duplicate` as written: it compares against the value of the last
  /// entry the hash map's iterator yields, which is not the last packet.
  predicate IsDuplicateAsWritten(s: DeviceState, p: RawPacket, order: seq<u64>)
    requires IsIterationOrder(s.packetRssiMap, order)
  {
    DuplicateRule(s.lastPacketTimeMs, if order == [] then None else Some(s.packetRssiMap[order[|order| - 1]]), p)
  }

  /// Two orders of the same map give different verdicts: after accepting
  /// packet 1 at -60 dBm and packet 2 at -70 dBm, a -65 dBm packet 50 ms
  /// later is a duplicate under one order and accepted under the other.
  lemma IsDuplicateDependsOnOrder(s: DeviceState, p: RawPacket, o1: seq<u64>, o2: seq<u64>)
    requires s.packetRssiMap == map[1 := -60, 2 := -70] && s.lastPacketTimeMs == 2000
    requires p.timestampMs == 2050 && p.rssi == -65
    requires o1 == [2, 1] && o2 == [1, 2]
    ensures IsIterationOrder(s.packetRssiMap, o1) && IsIterationOrder(s.packetRssiMap, o2)
    ensures IsDuplicateAsWritten(s, p, o1) && !IsDuplicateAsWritten(s, p, o2)
  {
    assert |s.packetRssiMap| == 2 by {
      assert s.packetRssiMap.Keys == {1, 2};
    }
  }

  /// The RSSI of the most recently accepted packet.
  function LastAcceptedRssi(s: DeviceState): Option<i8>
    requires DeviceValid(s)
  {
    if s.packetSequence == [] then None else Some(s.packetRssiMap[s.packetSequence[|s.packetSequence| - 1]])
  }

  /// `is_duplicate`, comparing against the last accepted packet as its
  /// comment describes.
  predicate IsDuplicate(s: DeviceState, p: RawPacket)
    requires DeviceValid(s)
  {
    DuplicateRule(s.lastPacketTimeMs, LastAcceptedRssi(s), p)
  }

  /// `DevicePacketTracker::add_packet` as a function of the state: the new
  /// state and whether the packet was accepted.
  function DeviceStep(s: DeviceState, p: RawPacket): (DeviceState, bool)
    requires DeviceValid(s)
  {
    var counted := s.(totalPackets := s.totalPackets + 1);
    if !ConfigParams.ShouldAcceptRssi(p.rssi) then (counted.(totalFiltered := s.totalFiltered + 1), false)
    else if IsDuplicate(s, p) then (counted.(totalDuplicates := s.totalDuplicates + 1), false)
    else
      (counted.(packetSequence := s.packetSequence + [p.packetId],
                packetRssiMap := s.packetRssiMap[p.packetId := p.rssi],
                lastPacketTimeMs := p.timestampMs), true)
  }

  /// Every call counts the packet; a packet below -75 dBm is filtered, a
  /// duplicate is counted as one, and only an accepted packet is appended,
  /// with its RSSI recorded and its time remembered. The counts keep adding
  /// up.
  lemma DeviceStepMeaning(s: DeviceState, p: RawPacket)
    requires DeviceValid(s)
    ensures var (t, accepted) := DeviceStep(s, p);
      DeviceValid(t) && t.totalPackets == s.totalPackets + 1 && t.macAddress == s.macAddress
      && (p.rssi < -75 ==> !accepted && t.totalFiltered == s.totalFiltered + 1 && t.packetSequence == s.packetSequence)
      && (accepted <==> p.rssi >= -75 && !IsDuplicate(s, p))
      && (accepted ==> (t.packetSequence == s.packetSequence + [p.packetId]
            && t.lastPacketTimeMs == p.timestampMs && LastAcceptedRssi(t) == Some(p.rssi)
            && t.totalFiltered == s.totalFiltered && t.totalDuplicates == s.totalDuplicates))
      && (!accepted ==> (t.packetSequence == s.packetSequence && t.packetRssiMap == s.packetRssiMap
            && t.lastPacketTimeMs == s.lastPacketTimeMs))
  {
    var (t, accepted) := DeviceStep(s, p);
    if accepted {
      forall i | 0 <= i < |t.packetSequence|
        ensures t.packetSequence[i] in t.packetRssiMap
      {
        if i < |s.packetSequence| {
          assert t.packetSequence[i] == s.packetSequence[i];
        }
      }
    }
  }

  /// With the corrected rule the verdict depends on the state alone: it
  /// is the as-written verdict for every iteration order whose last key is
  /// the last accepted packet.
  lemma IsDuplicateIsAsWrittenForRecencyOrder(s: DeviceState, p: RawPacket, order: seq<u64>)
    requires DeviceValid(s) && IsIterationOrder(s.packetRssiMap, order)
    requires s.packetSequence != [] && order != [] && order[|order| - 1] == s.packetSequence[|s.packetSequence| - 1]
    ensures IsDuplicate(s, p) == IsDuplicateAsWritten(s, p, order)
  {
  }

  /// `PacketStats` without the floating-point acceptance rate.
  datatype PacketStats = PacketStats(totalReceived: nat, totalAccepted: nat, totalFiltered: nat, totalDuplicates: nat)

  /// `get_stats`
  function GetStats(s: DeviceState): PacketStats
  {
    PacketStats(s.totalPackets, |s.packetSequence|, s.totalFiltered, s.totalDuplicates)
  }

  /// The received count splits into accepted, filtered and duplicates.
  lemma GetStatsAddUp(s: DeviceState)
    requires DeviceValid(s)
    ensures GetStats(s).totalReceived == GetStats(s).totalAccepted + GetStats(s).totalFiltered + GetStats(s).totalDuplicates
  {
  }

  /// `DevicePacketTracker`
  class DevicePacketTracker {
    var macAddress: string
    var packetSequence: seq<u64>
    var lastPacketTimeMs: u64
    var packetRssiMap: map<u64, i8>
    var totalPackets: nat
    var totalFiltered: nat
    var totalDuplicates: nat

    function Snapshot(): DeviceState
      reads this
    {
      DeviceState(macAddress, packetSequence, lastPacketTimeMs, packetRssiMap, totalPackets, totalFiltered, totalDuplicates)
    }

    predicate Valid()
      reads this
    {
      DeviceValid(Snapshot())
    }

    /// `new`
    constructor (mac: string)
      ensures Valid() && Snapshot() == NewDeviceState(mac)
    {
      macAddress := mac;
      packetSequence := [];
      lastPacketTimeMs := 0;
      packetRssiMap := map[];
      totalPackets := 0;
      totalFiltered := 0;
      totalDuplicates := 0;
    }

    /// `add_packet`
    method AddPacket(p: RawPacket) returns (accepted: bool)
      requires Valid()
      modifies this
      ensures Valid()
      ensures (Snapshot(), accepted) == DeviceStep(old(Snapshot()), p)
    {
      var before := Snapshot();
      DeviceStepMeaning(before, p);
      totalPackets := totalPackets + 1;
      if !ConfigParams.ShouldAcceptRssi(p.rssi) {
        totalFiltered := totalFiltered + 1;
        return false;
      }
      if IsDuplicate(before, p) {
        totalDuplicates := totalDuplicates + 1;
        return false;
      }
      packetSequence := packetSequence + [p.packetId];
      packetRssiMap := packetRssiMap[p.packetId := p.rssi];
      lastPacketTimeMs := p.timestampMs;
      return true;
    }
  }

  /// The module's tests: on a new tracker a -60 dBm packet is accepted and
  /// a -85 dBm packet is filtered.
  lemma DeviceStepExamples(mac: string, good: RawPacket, weak: RawPacket)
    requires good.rssi == -60 && weak.rssi == -85
    ensures DeviceStep(NewDeviceState(mac), good).1
    ensures |DeviceStep(NewDeviceState(mac), good).0.packetSequence| == 1
    ensures !DeviceStep(NewDeviceState(mac), weak).1
    ensures DeviceStep(NewDeviceState(mac), weak).0.totalFiltered == 1
  {
  }

  // -----------------------------------------------------------------------
  // GlobalPacketTracker

  /// One entry of the global sequence: (mac_address, packet_id, timestamp_ms).
  datatype SeqEntry = SeqEntry(macAddress: string, packetId: u64, timestampMs: u64)

  datatype PacketAddResult =
    | Accepted(packetId: u64, deviceMac: string, sequencePosition: nat)
    | Rejected(packetId: u64, deviceMac: string, reason: string)

  const REJECT_REASON := "Failed RSSI or deduplication checks"

  /// The packet IDs of one device's entries, in order.
  function IdsOf(entries: seq<SeqEntry>, mac: string): seq<u64>
  {
    if entries == [] then []
    else
      var last := entries[|entries| - 1];
      IdsOf(entries[..|entries| - 1], mac) + (if last.macAddress == mac then [last.packetId] else [])
  }

  lemma IdsOfSnoc(entries: seq<SeqEntry>, e: SeqEntry, mac: string)
    ensures IdsOf(entries + [e], mac) == IdsOf(entries, mac) + (if e.macAddress == mac then [e.packetId] else [])
  {
    assert (entries + [e])[..|entries|] == entries;
  }

  /// The tracker of `mac`, or a fresh one.
  function TrackerFor(trackers: map<string, DeviceState>, mac: string): DeviceState
  {
    if mac in trackers then trackers[mac] else NewDeviceState(mac)
  }

  /// The count is the sequence's length, each tracker is valid and keyed
  /// by its own address, and each device's accepted IDs are exactly its
  /// entries of the global sequence.
  ghost predicate GlobalValid(trackers: map<string, DeviceState>, sequence: seq<SeqEntry>, count: nat)
  {
    && count == |sequence|
    && (forall mac :: mac in trackers ==> DeviceValid(trackers[mac]) && trackers[mac].macAddress == mac)
    && (forall mac :: IdsOf(sequence, mac) == TrackerFor(trackers, mac).packetSequence)
  }

  /// One `add_packet` step on the values keeps them consistent.
  lemma {:induction false} GlobalStepValid(trackers: map<string, DeviceState>, sequence: seq<SeqEntry>, count: nat,
                                           p: RawPacket)
    requires GlobalValid(trackers, sequence, count)
    ensures var (t, accepted) := DeviceStep(TrackerFor(trackers, p.macAddress), p);
      var entry := SeqEntry(p.macAddress, p.packetId, p.timestampMs);
      GlobalValid(trackers[p.macAddress := t],
                  if accepted then sequence + [entry] else sequence,
                  if accepted then count + 1 else count)
  {
    var mac := p.macAddress;
    var tracker := TrackerFor(trackers, mac);
    DeviceStepMeaning(tracker, p);
    var (t, accepted) := DeviceStep(tracker, p);
    var after := trackers[mac := t];
    var entry := SeqEntry(mac, p.packetId, p.timestampMs);
    var sequence' := if accepted then sequence + [entry] else sequence;
    forall m
      ensures IdsOf(sequence', m) == TrackerFor(after, m).packetSequence
    {
      if accepted {
        IdsOfSnoc(sequence, entry, m);
      }
    }
  }

  /// `GlobalPacketTracker`. The device trackers are values in its map.
  class GlobalPacketTracker {
    var deviceTrackers: map<string, DeviceState>
    var globalSequence: seq<SeqEntry>
    var packetCount: nat

    ghost predicate Valid()
      reads this
    {
      GlobalValid(deviceTrackers, globalSequence, packetCount)
    }

    /// `new`
    constructor ()
      ensures Valid() && deviceTrackers == map[] && globalSequence == [] && packetCount == 0
    {
      deviceTrackers := map[];
      globalSequence := [];
      packetCount := 0;
    }

    /// `add_packet`: the device's tracker (created if missing) decides;
    /// only an accepted packet joins the global sequence.
    method AddPacket(p: RawPacket) returns (r: PacketAddResult)
      requires Valid()
      modifies this
      ensures Valid()
      ensures var (t, accepted) := DeviceStep(TrackerFor(old(deviceTrackers), p.macAddress), p);
        deviceTrackers == old(deviceTrackers)[p.macAddress := t]
        && (accepted ==> (globalSequence == old(globalSequence) + [SeqEntry(p.macAddress, p.packetId, p.timestampMs)]
              && packetCount == old(packetCount) + 1
              && r == Accepted(p.packetId, p.macAddress, |t.packetSequence|)))
        && (!accepted ==> (globalSequence == old(globalSequence) && packetCount == old(packetCount)
              && r == Rejected(p.packetId, p.macAddress, REJECT_REASON)))
    {
      var mac := p.macAddress;
      var tracker := TrackerFor(deviceTrackers, mac);
      GlobalStepValid(deviceTrackers, globalSequence, packetCount, p);
      var step := DeviceStep(tracker, p);
      var updated := step.0;
      deviceTrackers := deviceTrackers[mac := updated];
      if step.1 {
        globalSequence := globalSequence + [SeqEntry(mac, p.packetId, p.timestampMs)];
        packetCount := packetCount + 1;
        r := Accepted(p.packetId, mac, |updated.packetSequence|);
      } else {
        r := Rejected(p.packetId, mac, REJECT_REASON);
      }
    }

    /// `get_device_sequence`
    function GetDeviceSequence(mac: string): (r: Option<seq<u64>>)
      reads this
      requires Valid()
      ensures r.Some? <==> mac in deviceTrackers
      ensures r.Some? ==> r.value == IdsOf(globalSequence, mac)
    {
      if mac in deviceTrackers then Some(deviceTrackers[mac].packetSequence) else None
    }

    /// `get_global_sequence`
    function GetGlobalSequence(): seq<SeqEntry>
      reads this
    {
      SortByTimestamp(globalSequence)
    }
  }

  // -----------------------------------------------------------------------
  // Ordering by timestamp (`sort_by_key`, a stable sort)

  predicate SortedByTimestamp(s: seq<SeqEntry>)
  {
    forall i, j :: 0 <= i < j < |s| ==> s[i].timestampMs <= s[j].timestampMs
  }

  /// Inserts `e` before the first entry that is not earlier than it.
  function InsertByTimestamp(e: SeqEntry, sorted: seq<SeqEntry>): seq<SeqEntry>
  {
    if sorted == [] || e.timestampMs <= sorted[0].timestampMs then [e] + sorted
    else [sorted[0]] + InsertByTimestamp(e, sorted[1..])
  }

  function SortByTimestamp(s: seq<SeqEntry>): seq<SeqEntry>
  {
    if s == [] then [] else InsertByTimestamp(s[0], SortByTimestamp(s[1..]))
  }

  /// A time-ordered sequence stays ordered behind an entry no later than
  /// any of its entries.
  lemma ConsSortedByTimestamp(h: SeqEntry, t: seq<SeqEntry>)
    requires SortedByTimestamp(t) && forall k :: 0 <= k < |t| ==> h.timestampMs <= t[k].timestampMs
    ensures SortedByTimestamp([h] + t)
  {
    var r := [h] + t;
    forall i, j | 0 <= i < j < |r|
      ensures r[i].timestampMs <= r[j].timestampMs
    {
      assert r[j] == t[j - 1];
      if i > 0 {
        assert r[i] == t[i - 1];
      }
    }
  }

  lemma {:induction false} InsertByTimestampSorted(e: SeqEntry, sorted: seq<SeqEntry>)
    requires SortedByTimestamp(sorted)
    ensures SortedByTimestamp(InsertByTimestamp(e, sorted))
    ensures multiset(InsertByTimestamp(e, sorted)) == multiset{e} + multiset(sorted)
  {
    if sorted == [] || e.timestampMs <= sorted[0].timestampMs {
      ConsSortedByTimestamp(e, sorted);
    } else {
      var rest := sorted[1..];
      assert SortedByTimestamp(rest);
      InsertByTimestampSorted(e, rest);
      var ins := InsertByTimestamp(e, rest);
      assert sorted == [sorted[0]] + rest;
      forall k | 0 <= k < |ins|
        ensures sorted[0].timestampMs <= ins[k].timestampMs
      {
        assert ins[k] in multiset(ins);
        assert ins[k] == e || ins[k] in multiset(rest);
      }
      ConsSortedByTimestamp(sorted[0], ins);
    }
  }

  /// The global sequence comes back ordered by timestamp and holds the
  /// same entries.
  lemma {:induction false} SortByTimestampCorrect(s: seq<SeqEntry>)
    ensures SortedByTimestamp(SortByTimestamp(s))
    ensures multiset(SortByTimestamp(s)) == multiset(s)
  {
    if s != [] {
      SortByTimestampCorrect(s[1..]);
      InsertByTimestampSorted(s[0], SortByTimestamp(s[1..]));
      assert s == [s[0]] + s[1..];
    }
  }

  /// The entries stamped `t`, in sequence order.
  function AtTime(s: seq<SeqEntry>, t: u64): (r: seq<SeqEntry>)
    ensures forall k :: 0 <= k < |r| ==> r[k].timestampMs == t && r[k] in s
  {
    if s == [] then []
    else if s[0].timestampMs == t then [s[0]] + AtTime(s[1..], t)
    else AtTime(s[1..], t)
  }

  lemma AtTimeCons(x: SeqEntry, s: seq<SeqEntry>, t: u64)
    ensures AtTime([x] + s, t) == if x.timestampMs == t then [x] + AtTime(s, t) else AtTime(s, t)
  {
    assert ([x] + s)[1..] == s;
  }

  /// Inserting an entry puts it ahead of every entry with its own
  /// timestamp.
  lemma {:induction false} InsertByTimestampAtTime(e: SeqEntry, sorted: seq<SeqEntry>, t: u64)
    ensures AtTime(InsertByTimestamp(e, sorted), t) ==
      if e.timestampMs == t then [e] + AtTime(sorted, t) else AtTime(sorted, t)
  {
    if sorted == [] || e.timestampMs <= sorted[0].timestampMs {
      assert InsertByTimestamp(e, sorted) == [e] + sorted;
      AtTimeCons(e, sorted, t);
    } else {
      var x, rest := sorted[0], sorted[1..];
      assert sorted == [x] + rest;
      assert InsertByTimestamp(e, sorted) == [x] + InsertByTimestamp(e, rest);
      InsertByTimestampAtTime(e, rest, t);
      AtTimeCons(x, InsertByTimestamp(e, rest), t);
      AtTimeCons(x, rest, t);
    }
  }

  /// `sort_by_key` is stable: the entries of any one timestamp come back
  /// in the order they were recorded.
  lemma {:induction false} SortByTimestampStable(s: seq<SeqEntry>, t: u64)
    ensures AtTime(SortByTimestamp(s), t) == AtTime(s, t)
  {
    if s != [] {
      SortByTimestampStable(s[1..], t);
      InsertByTimestampAtTime(s[0], SortByTimestamp(s[1..]), t);
    }
  }

  /// The module's test: packets at 1000, 2000 (same device) and 1500
  /// (another device) come back in time order.
  lemma SortExample(a: string, b: string, entries: seq<SeqEntry>)
    requires entries == [SeqEntry(a, 1, 1000), SeqEntry(a, 2, 2000), SeqEntry(b, 3, 1500)]
    ensures SortByTimestamp(entries) == [SeqEntry(a, 1, 1000), SeqEntry(b, 3, 1500), SeqEntry(a, 2, 2000)]
  {
    var e1, e2, e3 := SeqEntry(a, 1, 1000), SeqEntry(a, 2, 2000), SeqEntry(b, 3, 1500);
    assert entries[1..] == [e2, e3] && entries[1..][1..] == [e3] && [e3][1..] == [];
    assert SortByTimestamp([e3]) == [e3];
    assert InsertByTimestamp(e2, [e3]) == [e3] + InsertByTimestamp(e2, []) == [e3, e2];
    assert SortByTimestamp([e2, e3]) == [e3, e2];
    assert InsertByTimestamp(e1, [e3, e2]) == [e1, e3, e2];
  }
}
