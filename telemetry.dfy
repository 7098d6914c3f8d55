// Inter-packet latency analysis and the event timeline (src/telemetry.rs).
// The floating-point average and the clock are not part of this model; the
// event timestamp is an input.

module Telemetry {
  import opened Common
  import PacketTracker

  // -----------------------------------------------------------------------
  // Latency analysis

  /// The strictly positive differences between consecutive timestamps, in
  /// order: a step backwards (`checked_sub` fails) or a repeat (difference
  /// 0) contributes nothing.
  function Latencies(ts: seq<u64>): seq<u64>
  {
    if |ts| < 2 then []
    else
      var n := |ts| - 1;
      Latencies(ts[..n]) + (if ts[n] > ts[n - 1] then [ts[n] - ts[n - 1]] else [])
  }

  /// Every latency is positive, and there is at most one per step.
  lemma {:induction false} LatenciesPositive(ts: seq<u64>)
    ensures forall i :: 0 <= i < |Latencies(ts)| ==> Latencies(ts)[i] > 0
    ensures |Latencies(ts)| <= if |ts| < 2 then 0 else |ts| - 1
  {
    if |ts| >= 2 {
      LatenciesPositive(ts[..|ts| - 1]);
    }
  }

  predicate StrictlyIncreasing(ts: seq<u64>)
  {
    forall i :: 0 < i < |ts| ==> ts[i - 1] < ts[i]
  }

  /// For strictly increasing timestamps the latencies are exactly the
  /// consecutive differences, one per step.
  lemma {:induction false} LatenciesOfIncreasing(ts: seq<u64>)
    requires StrictlyIncreasing(ts) && |ts| >= 2
    ensures |Latencies(ts)| == |ts| - 1
    ensures forall i :: 0 <= i < |ts| - 1 ==> Latencies(ts)[i] == ts[i + 1] - ts[i]
  {
    var n := |ts| - 1;
    if n > 1 {
      LatenciesOfIncreasing(ts[..n]);
    }
  }

  /// Timestamps that never move forward give no latencies.
  lemma {:induction false} LatenciesOfNonIncreasing(ts: seq<u64>)
    requires forall i :: 0 < i < |ts| ==> ts[i] <= ts[i - 1]
    ensures Latencies(ts) == []
  {
    if |ts| >= 2 {
      LatenciesOfNonIncreasing(ts[..|ts| - 1]);
    }
  }

  /// `iter().min()` of a non-empty sequence.
  function SeqMin(s: seq<u64>): (r: u64)
    requires s != []
    ensures r in s && forall i :: 0 <= i < |s| ==> r <= s[i]
  {
    if |s| == 1 then s[0]
    else
      var m := SeqMin(s[..|s| - 1]);
      assert forall i :: 0 <= i < |s| - 1 ==> s[..|s| - 1][i] == s[i];
      if s[|s| - 1] < m then s[|s| - 1] else m
  }

  /// `iter().max()` of a non-empty sequence.
  function SeqMax(s: seq<u64>): (r: u64)
    requires s != []
    ensures r in s && forall i :: 0 <= i < |s| ==> s[i] <= r
  {
    if |s| == 1 then s[0]
    else
      var m := SeqMax(s[..|s| - 1]);
      assert forall i :: 0 <= i < |s| - 1 ==> s[..|s| - 1][i] == s[i];
      if s[|s| - 1] > m then s[|s| - 1] else m
  }

  predicate Ascending(s: seq<u64>)
  {
    forall i, j :: 0 <= i < j < |s| ==> s[i] <= s[j]
  }

  /// `x` placed before the first larger element of an ascending sequence.
  function InsertAscending(x: u64, s: seq<u64>): seq<u64>
  {
    if s == [] || x <= s[0] then [x] + s else [s[0]] + InsertAscending(x, s[1..])
  }

  /// `sort()` on the values.
  function SortAscending(s: seq<u64>): seq<u64>
  {
    if s == [] then [] else InsertAscending(s[0], SortAscending(s[1..]))
  }

  /// An ascending sequence stays ascending behind a head no larger than
  /// any of its elements.
  lemma ConsAscending(h: u64, t: seq<u64>)
    requires Ascending(t) && forall k :: 0 <= k < |t| ==> h <= t[k]
    ensures Ascending([h] + t)
  {
    var r := [h] + t;
    forall i, j | 0 <= i < j < |r|
      ensures r[i] <= r[j]
    {
      assert r[j] == t[j - 1];
      if i > 0 {
        assert r[i] == t[i - 1];
      }
    }
  }

  lemma {:induction false} InsertAscendingCorrect(x: u64, s: seq<u64>)
    requires Ascending(s)
    ensures Ascending(InsertAscending(x, s))
    ensures multiset(InsertAscending(x, s)) == multiset{x} + multiset(s)
  {
    if s == [] || x <= s[0] {
      ConsAscending(x, s);
    } else {
      var rest := s[1..];
      assert Ascending(rest);
      InsertAscendingCorrect(x, rest);
      var ins := InsertAscending(x, rest);
      assert s == [s[0]] + rest;
      forall k | 0 <= k < |ins|
        ensures s[0] <= ins[k]
      {
        assert ins[k] in multiset(ins);
        assert ins[k] == x || ins[k] in multiset(rest);
      }
      ConsAscending(s[0], ins);
    }
  }

  /// Sorting gives an ascending permutation.
  lemma {:induction false} SortAscendingCorrect(s: seq<u64>)
    ensures Ascending(SortAscending(s))
    ensures multiset(SortAscending(s)) == multiset(s)
    ensures |SortAscending(s)| == |s|
  {
    if s != [] {
      SortAscendingCorrect(s[1..]);
      InsertAscendingCorrect(s[0], SortAscending(s[1..]));
      assert s == [s[0]] + s[1..];
    }
    assert |SortAscending(s)| == |multiset(SortAscending(s))|;
  }

  /// `LatencyAnalysis` without the floating-point average.
  datatype LatencyAnalysis = LatencyAnalysis(
    deviceMac: string,
    interPacketLatenciesMs: seq<u64>,
    minLatencyMs: u64,
    maxLatencyMs: u64,
    medianLatencyMs: u64)

  /// The summary of a latency list: minimum, maximum and the upper median
  /// `sorted[len / 2]`, all 0 for no latencies.
  function Summary(latencies: seq<u64>): (u64, u64, u64)
  {
    if latencies == [] then (0, 0, 0)
    else
      SortAscendingCorrect(latencies);
      var sorted := SortAscending(latencies);
      (SeqMin(latencies), SeqMax(latencies), sorted[|sorted| / 2])
  }

  /// With latencies the summary orders minimum, median and maximum, all
  /// of them observed; without, it is all zero.
  lemma SummaryBounds(latencies: seq<u64>)
    ensures latencies == [] ==> Summary(latencies) == (0, 0, 0)
    ensures latencies != [] ==>
      var (lo, hi, median) := Summary(latencies);
      && lo <= median <= hi
      && lo in latencies && hi in latencies && median in latencies
  {
    if latencies != [] {
      SortAscendingCorrect(latencies);
      var sorted := SortAscending(latencies);
      var median := sorted[|sorted| / 2];
      assert median in multiset(sorted);
      assert median in latencies;
    }
  }

  /// `LatencyAnalysis::new`: a loop collecting the positive consecutive
  /// differences, then the summary.
  method NewLatencyAnalysis(deviceMac: string, timestampsMs: seq<u64>) returns (a: LatencyAnalysis)
    ensures a.deviceMac == deviceMac
    ensures a.interPacketLatenciesMs == Latencies(timestampsMs)
    ensures (a.minLatencyMs, a.maxLatencyMs, a.medianLatencyMs) == Summary(Latencies(timestampsMs))
  {
    var latencies: seq<u64> := [];
    if |timestampsMs| > 0 {
      var i := 1;
      while i < |timestampsMs|
        invariant 1 <= i <= |timestampsMs|
        invariant latencies == Latencies(timestampsMs[..i])
      {
        assert timestampsMs[..i + 1][..i] == timestampsMs[..i];
        if timestampsMs[i] >= timestampsMs[i - 1] {
          var diff := timestampsMs[i] - timestampsMs[i - 1];
          if diff > 0 {
            latencies := latencies + [diff];
          }
        }
        i := i + 1;
      }
      assert timestampsMs[..i] == timestampsMs;
    }
    var (lo, hi, median) := Summary(latencies);
    a := LatencyAnalysis(deviceMac, latencies, lo, hi, median);
  }

  /// The latency test: timestamps 50 ms apart give four latencies of 50,
  /// which are also the minimum, maximum and median.
  lemma LatencyExample()
    ensures Latencies([1000, 1050, 1100, 1150, 1200]) == [50, 50, 50, 50]
    ensures Summary([50, 50, 50, 50]) == (50, 50, 50)
  {
    var ts: seq<u64> := [1000, 1050, 1100, 1150, 1200];
    LatenciesOfIncreasing(ts);
    SummaryBounds([50, 50, 50, 50]);
  }

  // -----------------------------------------------------------------------
  // Event timeline

  datatype EventType = PacketReceived | PacketFiltered | PacketDuplicate

  datatype TimelineEvent = TimelineEvent(
    timestampMs: u64,
    deviceMac: string,
    packetId: u64,
    eventType: EventType,
    rssi: i8,
    details: string)

  const ACCEPTED_DETAILS := "Packet accepted and added to sequence"

  /// The event `record_packet_result` logs: an accepted packet is
  /// received; a rejection is a duplicate when its reason mentions
  /// "duplicate" and filtered otherwise, with the reason as details.
  function EventFor(result: PacketTracker.PacketAddResult, rssi: i8, nowMs: u64): (e: TimelineEvent)
    ensures e.packetId == result.packetId && e.deviceMac == result.deviceMac
    ensures e.rssi == rssi && e.timestampMs == nowMs
    ensures e.eventType == PacketReceived <==> result.Accepted?
    ensures e.eventType == PacketDuplicate <==> result.Rejected? && Contains(result.reason, "duplicate")
    ensures e.eventType == PacketFiltered <==> result.Rejected? && !Contains(result.reason, "duplicate")
    ensures result.Rejected? ==> e.details == result.reason
  {
    match result
    case Accepted(packetId, deviceMac, _) =>
      TimelineEvent(nowMs, deviceMac, packetId, PacketReceived, rssi, ACCEPTED_DETAILS)
    case Rejected(packetId, deviceMac, reason) =>
      TimelineEvent(nowMs, deviceMac, packetId,
        if Contains(reason, "duplicate") then PacketDuplicate else PacketFiltered, rssi, reason)
  }

  /// The event test: a rejection for "duplicate packet" is a duplicate.
  lemma DuplicateEventExample(mac: string, rssi: i8, nowMs: u64)
    ensures EventFor(PacketTracker.Rejected(1, mac, "duplicate packet"), rssi, nowMs).eventType
            == PacketDuplicate
  {
    assert OccursAt("duplicate packet", "duplicate", 0);
  }

  /// `TelemetryCollector`: the event timeline.
  class TelemetryCollector {
    var events: seq<TimelineEvent>

    /// `TelemetryCollector::new`
    constructor ()
      ensures events == []
    {
      events := [];
    }

    /// `record_packet_result`: exactly one event is appended.
    method RecordPacketResult(result: PacketTracker.PacketAddResult, rssi: i8, nowMs: u64)
      modifies this
      ensures events == old(events) + [EventFor(result, rssi, nowMs)]
    {
      match result {
        case Accepted(packetId, deviceMac, _) =>
          events := events + [TimelineEvent(nowMs, deviceMac, packetId, PacketReceived, rssi, ACCEPTED_DETAILS)];
        case Rejected(packetId, deviceMac, reason) =>
          var eventType := if Contains(reason, "duplicate") then PacketDuplicate else PacketFiltered;
          events := events + [TimelineEvent(nowMs, deviceMac, packetId, eventType, rssi, reason)];
      }
    }

    /// `get_events`
    function GetEvents(): seq<TimelineEvent>
      reads this
    {
      events
    }
  }

  /// The categorisation test: one duplicate rejection gives one event,
  /// marked a duplicate.
  method EventCategorizationExample() returns (count: nat, first: EventType)
    ensures count == 1 && first == PacketDuplicate
  {
    var collector := new TelemetryCollector();
    DuplicateEventExample("AA:BB:CC:DD:EE:FF", -75, 0);
    collector.RecordPacketResult(PacketTracker.Rejected(1, "AA:BB:CC:DD:EE:FF", "duplicate packet"), -75, 0);
    count := |collector.events|;
    first := collector.events[0].eventType;
  }
}
