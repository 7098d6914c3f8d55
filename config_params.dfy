// RSSI threshold, deduplication window, latency and signal-quality helpers
// (src/config_params.rs).

module ConfigParams {
  import opened Common

  const RSSI_THRESHOLD: i8 := -75
  const SIGNAL_LOSS_TIMEOUT_MS: nat := 5000
  const PACKET_DEDUP_WINDOW_MS: nat := 100
  const MIN_PACKET_INTERVAL_MS: nat := 50

  /// `should_accept_rssi`
  predicate ShouldAcceptRssi(rssi: i8)
  {
    rssi >= RSSI_THRESHOLD
  }

  /// The threshold is inclusive: -75 passes, -76 does not.
  lemma ShouldAcceptRssiThreshold(rssi: i8)
    ensures ShouldAcceptRssi(rssi) <==> rssi >= -75
    ensures ShouldAcceptRssi(rssi) && rssi > -75 ==> ShouldAcceptRssi(rssi - 1)
  {
  }

  /// `is_duplicate_packet`: the absolute difference of the timestamps is
  /// within the window.
  predicate IsDuplicatePacket(t1: u64, t2: u64)
  {
    var diff := if t1 > t2 then t1 - t2 else t2 - t1;
    diff <= PACKET_DEDUP_WINDOW_MS
  }

  /// The relation is symmetric, reflexive, and holds exactly within 100 ms
  /// either way.
  lemma IsDuplicatePacketMeaning(t1: u64, t2: u64)
    ensures IsDuplicatePacket(t1, t2) <==> IsDuplicatePacket(t2, t1)
    ensures IsDuplicatePacket(t1, t2) <==> t2 - 100 <= t1 <= t2 + 100
    ensures IsDuplicatePacket(t1, t1)
  {
  }

  /// `calculate_latency_ms`: the elapsed time, or 0 when the end is not
  /// after the start.
  function CalculateLatencyMs(startMs: u64, endMs: u64): u64
  {
    if endMs > startMs then endMs - startMs else 0
  }

  /// The latency added to the start gives the end when the end is later,
  /// and is 0 otherwise.
  lemma CalculateLatencyMeaning(startMs: u64, endMs: u64)
    ensures endMs > startMs ==> startMs + CalculateLatencyMs(startMs, endMs) == endMs
    ensures endMs <= startMs <==> CalculateLatencyMs(startMs, endMs) == 0
    ensures CalculateLatencyMs(startMs, endMs) <= endMs
  {
  }

  // -----------------------------------------------------------------------
  // should_process_packet

  /// `should_process_packet` as written: the `u64` subtraction
  /// `current - last` overflows when the current time is earlier, which
  /// panics in a debug build (`None` here).
  function ShouldProcessPacketAsWritten(lastMs: u64, currentMs: u64): Option<bool>
  {
    if currentMs >= lastMs then Some(currentMs - lastMs >= MIN_PACKET_INTERVAL_MS) else None
  }

  /// A clock that steps back makes the check overflow.
  lemma ShouldProcessPacketUnderflows(lastMs: u64, currentMs: u64)
    requires lastMs == 1000 && currentMs == 500
    ensures ShouldProcessPacketAsWritten(lastMs, currentMs) == None
  {
  }

  /// `should_process_packet` with the elapsed time saturating at 0, as
  /// `calculate_latency_ms` does.
  function ShouldProcessPacket(lastMs: u64, currentMs: u64): bool
  {
    CalculateLatencyMs(lastMs, currentMs) >= MIN_PACKET_INTERVAL_MS
  }

  /// A packet is processed exactly when 50 ms have passed; the corrected
  /// check agrees with the original wherever the original does not
  /// overflow.
  lemma ShouldProcessPacketMeaning(lastMs: u64, currentMs: u64)
    ensures ShouldProcessPacket(lastMs, currentMs) <==> currentMs >= lastMs + 50
    ensures ShouldProcessPacketAsWritten(lastMs, currentMs).Some? ==>
      ShouldProcessPacketAsWritten(lastMs, currentMs).value == ShouldProcessPacket(lastMs, currentMs)
  {
  }

  // -----------------------------------------------------------------------
  // rssi_to_signal_quality

  /// Rust's integer `/` on signed values: the quotient rounds toward zero.
  function QuotTowardZero(x: int, d: nat): int
    requires d > 0
  {
    if x >= 0 then x / d else -((-x) / d)
  }

  /// `x as u8` for an `i8`: two's-complement reinterpretation.
  function AsU8(x: int): byte
  {
    x % 0x100
  }

  /// `a - b` on `u8`, which panics in a debug build when `b > a` (`None`).
  function CheckedSubU8(a: byte, b: byte): Option<byte>
  {
    if a >= b then Some(a - b) else None
  }

  function MaxByte(a: byte, b: byte): byte
  {
    if a >= b then a else b
  }

  /// `rssi_to_signal_quality` as written. Between -90 and -30 dBm the
  /// offset `rssi + k` is negative, so its halved value cast to `u8` is
  /// 246..255 and the `u8` subtraction overflows; below -90 dBm the
  /// negative sum cast to `u8` gives up to 127.
  function RssiToSignalQualityAsWritten(rssi: i8): Option<byte>
  {
    if rssi >= -30 then Some(100)
    else if rssi >= -50 then CheckedSubU8(100, AsU8(QuotTowardZero(rssi + 30, 2)))
    else if rssi >= -70 then CheckedSubU8(80, AsU8(QuotTowardZero(rssi + 50, 2)))
    else if rssi >= -90 then CheckedSubU8(60, AsU8(QuotTowardZero(rssi + 70, 2)))
    else Some(MaxByte(10, AsU8(rssi + 100) / 2))
  }

  /// The module's own test values -60 and -85 overflow, and -128 dBm is
  /// rated 114, above the best signal.
  lemma RssiToSignalQualityOverflows(a: i8, b: i8, c: i8)
    requires a == -60 && b == -85 && c == -128
    ensures RssiToSignalQualityAsWritten(a) == None
    ensures RssiToSignalQualityAsWritten(b) == None
    ensures RssiToSignalQualityAsWritten(c) == Some(114)
  {
  }

  /// `rssi_to_signal_quality` with each band's offset taken as a
  /// magnitude and the weakest band clamped at 10: 100 at -30 dBm and
  /// above, then 90..80, 70..60, 50 down to the floor of 10.
  function RssiToSignalQuality(rssi: i8): byte
  {
    if rssi >= -30 then 100
    else if rssi >= -50 then 100 - (-(rssi + 30)) / 2
    else if rssi >= -70 then 80 - (-(rssi + 50)) / 2
    else if rssi >= -90 then 60 - (-(rssi + 70)) / 2
    else if rssi + 100 > 0 then MaxByte(10, (rssi + 100) / 2)
    else 10
  }

  /// The corrected rating lies in 10..100, never falls as the signal gets
  /// stronger, and is 100 from -31 dBm up (the halving truncates).
  lemma RssiToSignalQualityMonotone(a: i8, b: i8)
    ensures 10 <= RssiToSignalQuality(a) <= 100
    ensures a <= b ==> RssiToSignalQuality(a) <= RssiToSignalQuality(b)
    ensures RssiToSignalQuality(a) == 100 <==> a >= -31
  {
  }

  /// The corrected rating orders the test's three signals as the test
  /// expects.
  lemma RssiToSignalQualityExample(a: i8, b: i8, c: i8)
    requires a == -30 && b == -60 && c == -85
    ensures RssiToSignalQuality(a) > RssiToSignalQuality(b) > RssiToSignalQuality(c)
  {
  }

  /// Where the original neither overflows nor runs below -90 dBm it
  /// agrees with the corrected rating.
  lemma RssiToSignalQualityAgrees(rssi: i8)
    requires rssi >= -90 && RssiToSignalQualityAsWritten(rssi).Some?
    ensures RssiToSignalQualityAsWritten(rssi) == Some(RssiToSignalQuality(rssi))
  {
  }
}
