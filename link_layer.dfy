// Channel maps, per-device packet statistics (integer parts) and PHY names
// (src/link_layer.rs).

module LinkLayer {
  import opened Common

  // -----------------------------------------------------------------------
  // ChannelMap

  /// The three advertising channels and the enabled data channels (0..36).
  datatype ChannelMap = ChannelMap(channel37: bool, channel38: bool, channel39: bool, dataChannels: bytes)

  /// `ChannelMap::new`: every channel enabled.
  function NewChannelMap(): ChannelMap
  {
    ChannelMap(true, true, true, seq(37, i requires 0 <= i < 37 => i))
  }

  /// Bit `i % 8` of byte `i / 8`: data channel `i` in a 5-byte channel map.
  predicate ChannelBit(data: bytes, i: nat)
    requires |data| >= 5 && i < 37
  {
    Bit(data[i / 8], i % 8)
  }

  /// The channels below `n` whose bit is set, in ascending order.
  function EnabledBelow(data: bytes, n: nat): bytes
    requires |data| >= 5 && n <= 37
  {
    if n == 0 then []
    else EnabledBelow(data, n - 1) + (if ChannelBit(data, n - 1) then [n - 1] else [])
  }

  /// `ChannelMap::from_bytes`: at least five bytes are needed; the result
  /// keeps all three advertising channels and takes its data channels from
  /// the first 37 bits.
  method FromBytes(data: bytes) returns (r: Option<ChannelMap>)
    ensures |data| < 5 ==> r == None
    ensures |data| >= 5 ==> r == Some(ChannelMap(true, true, true, EnabledBelow(data, 37)))
  {
    if |data| < 5 {
      return None;
    }
    var channelMap := NewChannelMap();
    var enabled: bytes := [];
    for i := 0 to 37
      invariant enabled == EnabledBelow(data, i)
    {
      var byteIdx := i / 8;
      var bitIdx := i % 8;
      if (data[byteIdx] / Pow2(bitIdx)) % 2 != 0 {
        enabled := enabled + [i];
      }
    }
    channelMap := channelMap.(dataChannels := enabled);
    return Some(channelMap);
  }

  /// A channel is listed exactly when it is below `n` and its bit is set.
  lemma {:induction false} EnabledBelowMembers(data: bytes, n: nat, c: int)
    requires |data| >= 5 && n <= 37
    ensures c in EnabledBelow(data, n) <==> 0 <= c < n && ChannelBit(data, c)
  {
    if n > 0 {
      EnabledBelowMembers(data, n - 1, c);
    }
  }

  /// The list is strictly ascending, so it holds no channel twice.
  lemma {:induction false} EnabledBelowAscending(data: bytes, n: nat)
    requires |data| >= 5 && n <= 37
    ensures forall i, j :: 0 <= i < j < |EnabledBelow(data, n)| ==> EnabledBelow(data, n)[i] < EnabledBelow(data, n)[j]
    ensures |EnabledBelow(data, n)| <= n
  {
    if n > 0 {
      var prev := EnabledBelow(data, n - 1);
      EnabledBelowAscending(data, n - 1);
      forall i | 0 <= i < |prev|
        ensures prev[i] < n - 1
      {
        EnabledBelowMembers(data, n - 1, prev[i]);
      }
    }
  }

  /// With every bit set, the data channels are 0..36 in order, as in
  /// `ChannelMap::new`.
  lemma {:induction false} EnabledBelowAllOnes(data: bytes, n: nat)
    requires |data| >= 5 && n <= 37
    requires forall k :: 0 <= k < 5 ==> data[k] == 0xFF
    ensures EnabledBelow(data, n) == seq(n, i requires 0 <= i < n => i)
  {
    if n > 0 {
      EnabledBelowAllOnes(data, n - 1);
      AllOnesBit((n - 1) % 8);
    }
  }

  lemma AllOnesBit(k: nat)
    requires k < 8
    ensures Bit(0xFF, k)
  {
    assert Pow2(1) == 2 && Pow2(2) == 4 && Pow2(3) == 8;
    assert Pow2(4) == 16 && Pow2(5) == 32 && Pow2(6) == 64 && Pow2(7) == 128;
  }

  /// An all-ones channel map decodes to the default map.
  lemma FromBytesAllOnes(data: bytes)
    requires |data| >= 5 && forall k :: 0 <= k < 5 ==> data[k] == 0xFF
    ensures ChannelMap(true, true, true, EnabledBelow(data, 37)) == NewChannelMap()
  {
    EnabledBelowAllOnes(data, 37);
  }

  /// The number of enabled advertising channels.
  function AdvEnabled(m: ChannelMap): nat
  {
    (if m.channel37 then 1 else 0) + (if m.channel38 then 1 else 0) + (if m.channel39 then 1 else 0)
  }

  /// `enabled_count`
  function EnabledCount(m: ChannelMap): nat
  {
    AdvEnabled(m) + |m.dataChannels|
  }

  /// `is_healthy`
  predicate IsHealthy(m: ChannelMap)
  {
    AdvEnabled(m) >= 2 && |m.dataChannels| > 0
  }

  /// Healthy means two of the three advertising channels and some data
  /// channel, so a healthy map has at least three channels.
  lemma IsHealthyMeaning(m: ChannelMap)
    ensures IsHealthy(m) <==>
      ((m.channel37 && m.channel38) || (m.channel37 && m.channel39) || (m.channel38 && m.channel39))
      && m.dataChannels != []
    ensures IsHealthy(m) ==> EnabledCount(m) >= 3
  {
  }

  /// The default map has all 40 channels and is healthy.
  lemma NewChannelMapFull()
    ensures EnabledCount(NewChannelMap()) == 40 && IsHealthy(NewChannelMap())
  {
  }

  /// A decoded map has at most 40 channels: its data channels are distinct
  /// and below 37.
  lemma FromBytesBounds(data: bytes)
    requires |data| >= 5
    ensures EnabledCount(ChannelMap(true, true, true, EnabledBelow(data, 37))) <= 40
    ensures forall c :: c in EnabledBelow(data, 37) ==> c < 37
  {
    EnabledBelowAscending(data, 37);
    forall c | c in EnabledBelow(data, 37)
      ensures c < 37
    {
      EnabledBelowMembers(data, 37, c);
    }
  }

  // -----------------------------------------------------------------------
  // PacketStatistics

  const DEFAULT_STRONGEST: i8 := -100
  const DEFAULT_WEAKEST: i8 := -30
  const MAX_SAMPLES: nat := 1000

  /// The strongest RSSI seen, starting from `init`, updated when a sample
  /// is strictly greater.
  function MaxFrom(init: i8, h: seq<i8>): i8
  {
    if h == [] then init
    else
      var m := MaxFrom(init, h[..|h| - 1]);
      if h[|h| - 1] > m then h[|h| - 1] else m
  }

  /// The weakest RSSI seen, starting from `init`, updated when a sample is
  /// strictly smaller.
  function MinFrom(init: i8, h: seq<i8>): i8
  {
    if h == [] then init
    else
      var m := MinFrom(init, h[..|h| - 1]);
      if h[|h| - 1] < m then h[|h| - 1] else m
  }

  /// The last `n` entries of `h` (all of it when shorter).
  function LastN<T>(h: seq<T>, n: nat): seq<T>
  {
    if |h| <= n then h else h[|h| - n..]
  }

  /// The running maximum is at least the start and every sample, and is
  /// the start or one of the samples.
  lemma {:induction false} MaxFromIsMax(init: i8, h: seq<i8>)
    ensures MaxFrom(init, h) >= init
    ensures forall i :: 0 <= i < |h| ==> MaxFrom(init, h) >= h[i]
    ensures MaxFrom(init, h) == init || MaxFrom(init, h) in h
  {
    if h != [] {
      var h' := h[..|h| - 1];
      MaxFromIsMax(init, h');
      assert forall i :: 0 <= i < |h'| ==> h[i] == h'[i];
    }
  }

  /// The running minimum is at most the start and every sample, and is the
  /// start or one of the samples.
  lemma {:induction false} MinFromIsMin(init: i8, h: seq<i8>)
    ensures MinFrom(init, h) <= init
    ensures forall i :: 0 <= i < |h| ==> MinFrom(init, h) <= h[i]
    ensures MinFrom(init, h) == init || MinFrom(init, h) in h
  {
    if h != [] {
      var h' := h[..|h| - 1];
      MinFromIsMin(init, h');
      assert forall i :: 0 <= i < |h'| ==> h[i] == h'[i];
    }
  }

  /// Keeping the last `n` entries is a suffix of at most `n` entries.
  lemma LastNSuffix<T>(h: seq<T>, n: nat)
    ensures |LastN(h, n)| <= n && |LastN(h, n)| <= |h|
    ensures LastN(h, n) == h[|h| - |LastN(h, n)|..]
    ensures |h| >= n ==> |LastN(h, n)| == n
  {
  }

  /// `PacketStatistics` without the floating-point average and variance.
  /// `history` is every RSSI ever added, which the class does not keep: the
  /// samples are its last 1000 entries and the extremes are its running
  /// maximum and minimum from the defaults.
  class PacketStatistics {
    var totalPackets: nat
    var totalBytes: nat
    var strongestRssi: i8
    var weakestRssi: i8
    var rssiSamples: seq<i8>
    var channelDistribution: multiset<byte>
    ghost var history: seq<i8>

    ghost predicate Valid()
      reads this
    {
      totalPackets == |history| == |channelDistribution|
      && strongestRssi == MaxFrom(DEFAULT_STRONGEST, history)
      && weakestRssi == MinFrom(DEFAULT_WEAKEST, history)
      && rssiSamples == LastN(history, MAX_SAMPLES)
    }

    /// `PacketStatistics::default`
    constructor ()
      ensures Valid() && history == []
      ensures totalPackets == 0 && totalBytes == 0 && rssiSamples == [] && channelDistribution == multiset{}
      ensures strongestRssi == -100 && weakestRssi == -30
    {
      totalPackets := 0;
      totalBytes := 0;
      strongestRssi := DEFAULT_STRONGEST;
      weakestRssi := DEFAULT_WEAKEST;
      rssiSamples := [];
      channelDistribution := multiset{};
      history := [];
    }

    /// `add_packet`: counts the packet and its bytes, updates the extremes,
    /// counts the channel, and keeps only the last 1000 samples.
    method AddPacket(rssi: i8, byteCount: nat, channel: byte)
      requires Valid()
      modifies this
      ensures Valid()
      ensures history == old(history) + [rssi]
      ensures totalPackets == old(totalPackets) + 1 && totalBytes == old(totalBytes) + byteCount
      ensures strongestRssi == (if rssi > old(strongestRssi) then rssi else old(strongestRssi))
      ensures weakestRssi == (if rssi < old(weakestRssi) then rssi else old(weakestRssi))
      ensures channelDistribution == old(channelDistribution) + multiset{channel}
      ensures |rssiSamples| <= MAX_SAMPLES && rssiSamples[|rssiSamples| - 1] == rssi
    {
      ghost var h := history + [rssi];
      assert h[..|h| - 1] == history;
      history := h;
      totalPackets := totalPackets + 1;
      totalBytes := totalBytes + byteCount;
      rssiSamples := rssiSamples + [rssi];
      if rssi > strongestRssi {
        strongestRssi := rssi;
      }
      if rssi < weakestRssi {
        weakestRssi := rssi;
      }
      channelDistribution := channelDistribution + multiset{channel};
      if |rssiSamples| > MAX_SAMPLES {
        rssiSamples := rssiSamples[1..];
      }
      LastNSnoc(history[..|history| - 1], rssi, MAX_SAMPLES);
    }
  }

  /// Appending one entry to a window of the last `n` shifts it when full.
  lemma LastNSnoc<T>(h: seq<T>, x: T, n: nat)
    requires n >= 1
    ensures LastN(h + [x], n) ==
      (if |LastN(h, n) + [x]| > n then (LastN(h, n) + [x])[1..] else LastN(h, n) + [x])
  {
    if |h| + 1 > n {
      if |h| <= n {
        assert |h| == n;
        assert (h + [x])[|h + [x]| - n..] == (h + [x])[1..];
      } else {
        assert (h + [x])[|h + [x]| - n..] == h[|h| - n..][1..] + [x];
      }
    }
  }

  /// The statistics after adding the three packets of the module's test:
  /// three packets, 330 bytes, strongest -55, weakest -65, channel 37
  /// counted twice.
  method StatisticsExample() returns (packets: nat, byteTotal: nat, strongest: i8, weakest: i8, onChannel37: nat)
    ensures packets == 3 && byteTotal == 330 && strongest == -55 && weakest == -65 && onChannel37 == 2
  {
    var stats := new PacketStatistics();
    stats.AddPacket(-60, 100, 37);
    stats.AddPacket(-65, 120, 38);
    stats.AddPacket(-55, 110, 37);
    packets := stats.totalPackets;
    byteTotal := stats.totalBytes;
    strongest := stats.strongestRssi;
    weakest := stats.weakestRssi;
    onChannel37 := stats.channelDistribution[37];
  }

  // -----------------------------------------------------------------------
  // PHY names

  /// `phy_to_string`
  function PhyToString(phy: byte): string
  {
    match phy
      case 0x01 => "LE 1M"
      case 0x02 => "LE 2M"
      case 0x03 => "LE Coded (S=8)"
      case 0x04 => "LE Coded (S=2)"
      case _ => "Unknown PHY (" + NatToString(phy) + ")"
  }

  /// The four PHY codes have their own names, all starting "LE "; every
  /// other code is reported as unknown with its decimal value.
  lemma PhyToStringCases(phy: byte)
    ensures 1 <= phy <= 4 ==> PhyToString(phy)[..3] == "LE "
    ensures !(1 <= phy <= 4) ==> PhyToString(phy) == "Unknown PHY (" + NatToString(phy) + ")"
    ensures phy == 1 ==> PhyToString(phy) == "LE 1M"
    ensures phy == 2 ==> PhyToString(phy) == "LE 2M"
  {
  }

  /// Different known codes give different names.
  lemma PhyNamesDistinct(a: byte, b: byte)
    requires 1 <= a <= 4 && 1 <= b <= 4 && a != b
    ensures PhyToString(a) != PhyToString(b)
  {
    if a <= 2 && b <= 2 {
      assert PhyToString(a)[3] != PhyToString(b)[3];
    } else if a >= 3 && b >= 3 {
      assert PhyToString(a)[12] != PhyToString(b)[12];
    } else {
      assert |PhyToString(a)| != |PhyToString(b)|;
    }
  }
}
