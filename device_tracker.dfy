// Per-device discovery records, the telemetry sample window and the
// capacity-limited manager (src/device_tracker.rs). Timestamps are inputs;
// the floating-point telemetry is not part of this model.

module DeviceTracker {
  import opened Common
  import LinkLayer

  // -----------------------------------------------------------------------
  // SampleWindow

  /// `SampleWindow::push` on the contents: at capacity the oldest sample is
  /// dropped (a no-op on an empty window), then the new one is appended.
  function WindowPush<S>(samples: seq<S>, maxSize: nat, s: S): seq<S>
  {
    if |samples| == maxSize && samples != [] then samples[1..] + [s]
    else samples + [s]
  }

  /// A window with positive capacity never exceeds it, keeps the newest
  /// samples in order and drops exactly the oldest one when full.
  lemma WindowPushMeaning<S>(samples: seq<S>, maxSize: nat, s: S)
    requires 0 < maxSize && |samples| <= maxSize
    ensures |WindowPush(samples, maxSize, s)| <= maxSize
    ensures |samples| < maxSize ==> WindowPush(samples, maxSize, s) == samples + [s]
    ensures |samples| == maxSize ==> WindowPush(samples, maxSize, s) == (samples + [s])[1..]
  {
  }

  /// With capacity 0 the length check `len == max_size` never matches
  /// again after the first push, so the window grows without bound.
  lemma WindowPushZeroCapacity<S>(samples: seq<S>, s: S)
    ensures WindowPush(samples, 0, s) == samples + [s]
    ensures |WindowPush(samples, 0, s)| == |samples| + 1
  {
  }

  /// A fixed-capacity window of samples.
  class SampleWindow<S> {
    var samples: seq<S>
    const maxSize: nat

    /// `SampleWindow::new`
    constructor (maxSize: nat)
      ensures this.maxSize == maxSize && samples == []
    {
      this.maxSize := maxSize;
      samples := [];
    }

    /// `SampleWindow::push`
    method Push(s: S)
      modifies this
      ensures samples == WindowPush(old(samples), maxSize, s)
    {
      if |samples| == maxSize && samples != [] {
        samples := samples[1..];
      }
      samples := samples + [s];
    }

    /// `SampleWindow::len`
    function Len(): nat
      reads this
    {
      |samples|
    }

    /// `SampleWindow::is_empty`
    predicate IsEmpty()
      reads this
    {
      samples == []
    }
  }

  // -----------------------------------------------------------------------
  // DeviceTracker

  /// Identification: address, name and manufacturer.
  datatype Identity = Identity(
    macAddress: string,
    deviceName: Option<string>,
    manufacturerId: Option<u16>,
    manufacturerName: Option<string>)

  /// Temporal tracking; timestamps are milliseconds.
  datatype Temporal = Temporal(
    firstDetected: int,
    lastDetected: int,
    detectionCount: nat,
    detectionTimes: seq<int>)

  /// Signal tracking without the floating-point average.
  datatype Signal = Signal(
    rssiValues: seq<i8>,
    currentRssi: i8,
    minRssi: i8,
    maxRssi: i8)

  /// Detection metadata.
  datatype DetectionMeta = DetectionMeta(
    detectedByMethods: seq<string>,
    detectionMethodsCount: nat,
    lastDetectionMethod: Option<string>)

  /// Database persistence status.
  datatype Persistence = Persistence(dbDeviceId: Option<int>, storedInDb: bool)

  /// A device record, section by section as the struct groups its fields.
  datatype TrackerState = TrackerState(
    identity: Identity,
    temporal: Temporal,
    signal: Signal,
    meta: DetectionMeta,
    persistence: Persistence)

  /// `DeviceTracker::new`: first and last detection at `now`, which is
  /// also the one entry of the detection times; no detections counted;
  /// the RSSI extremes start at `i8::MAX` and `i8::MIN`.
  function NewTracker(mac: string, now: int): TrackerState
  {
    TrackerState(
      Identity(mac, None, None, None),
      Temporal(now, now, 0, [now]),
      Signal([], 0, I8_MAX, I8_MIN),
      DetectionMeta([], 0, None),
      Persistence(None, false))
  }

  predicate NoDuplicates(xs: seq<string>)
  {
    forall i, j :: 0 <= i < j < |xs| ==> xs[i] != xs[j]
  }

  /// The detection times hold the creation time and one entry per
  /// detection, the last being the last detection; the RSSI extremes are
  /// the running ones from `i8::MAX` and `i8::MIN` over one sample per
  /// detection; the method list has no duplicates and its count is its
  /// length; a manufacturer name only comes with an ID.
  ghost predicate TrackerValid(s: TrackerState)
  {
    && |s.temporal.detectionTimes| == s.temporal.detectionCount + 1
    && s.temporal.detectionTimes[|s.temporal.detectionTimes| - 1] == s.temporal.lastDetected
    && |s.signal.rssiValues| == s.temporal.detectionCount
    && s.signal.minRssi == LinkLayer.MinFrom(I8_MAX, s.signal.rssiValues)
    && s.signal.maxRssi == LinkLayer.MaxFrom(I8_MIN, s.signal.rssiValues)
    && NoDuplicates(s.meta.detectedByMethods)
    && s.meta.detectionMethodsCount == |s.meta.detectedByMethods|
    && (s.identity.manufacturerName.Some? ==> s.identity.manufacturerId.Some?)
  }

  /// The identity part of a detection: a given name replaces the old one;
  /// the manufacturer is set only the first time, with `companyName`, what
  /// the company-ID reference table gives for the reported ID when it
  /// knows it.
  function IdentityStep(id: Identity, deviceName: Option<string>, manufacturerId: Option<u16>,
                        companyName: Option<string>): Identity
  {
    var setManufacturer := manufacturerId.Some? && id.manufacturerId.None?;
    id.(deviceName := if deviceName.Some? then deviceName else id.deviceName,
        manufacturerId := if setManufacturer then manufacturerId else id.manufacturerId,
        manufacturerName := if setManufacturer && companyName.Some? then companyName else id.manufacturerName)
  }

  /// The method list after a detection by `detectionMethod`: a new method
  /// is appended and the count re-read from the list.
  function MetaStep(m: DetectionMeta, detectionMethod: string): DetectionMeta
  {
    if detectionMethod in m.detectedByMethods then
      m.(lastDetectionMethod := Some(detectionMethod))
    else
      var methods := m.detectedByMethods + [detectionMethod];
      DetectionMeta(methods, |methods|, Some(detectionMethod))
  }

  /// `record_detection` without the average and the telemetry.
  function RecordStep(s: TrackerState, now: int, rssi: i8, detectionMethod: string,
                      deviceName: Option<string>, manufacturerId: Option<u16>,
                      companyName: Option<string>): TrackerState
  {
    var t := s.temporal;
    var g := s.signal;
    s.(identity := IdentityStep(s.identity, deviceName, manufacturerId, companyName),
       temporal := t.(lastDetected := now, detectionCount := t.detectionCount + 1,
                      detectionTimes := t.detectionTimes + [now]),
       signal := Signal(g.rssiValues + [rssi], rssi,
                        if rssi < g.minRssi then rssi else g.minRssi,
                        if rssi > g.maxRssi then rssi else g.maxRssi),
       meta := MetaStep(s.meta, detectionMethod))
  }

  /// A new tracker is valid.
  lemma NewTrackerValid(mac: string, now: int)
    ensures TrackerValid(NewTracker(mac, now))
  {
  }

  /// Appending a method not yet listed keeps the list duplicate-free.
  lemma {:induction false} AppendNewKeepsNoDuplicates(xs: seq<string>, x: string)
    requires NoDuplicates(xs) && x !in xs
    ensures NoDuplicates(xs + [x])
  {
    var ys := xs + [x];
    forall i, j | 0 <= i < j < |ys|
      ensures ys[i] != ys[j]
    {
      if j == |xs| {
        assert ys[i] == xs[i];
      }
    }
  }

  /// A detection keeps the record valid.
  lemma {:induction false} RecordStepValid(s: TrackerState, now: int, rssi: i8, detectionMethod: string,
                                           deviceName: Option<string>, manufacturerId: Option<u16>,
                                           companyName: Option<string>)
    requires TrackerValid(s)
    ensures TrackerValid(RecordStep(s, now, rssi, detectionMethod, deviceName, manufacturerId, companyName))
  {
    var t := RecordStep(s, now, rssi, detectionMethod, deviceName, manufacturerId, companyName);
    assert t.signal.rssiValues[..|t.signal.rssiValues| - 1] == s.signal.rssiValues;
    if detectionMethod !in s.meta.detectedByMethods {
      AppendNewKeepsNoDuplicates(s.meta.detectedByMethods, detectionMethod);
    }
  }

  /// One detection adds one to the count and one time; the method is then
  /// listed, and an already listed method changes neither list nor count;
  /// the extremes move only past the new RSSI; a given name replaces the
  /// old one and an absent one keeps it; a known manufacturer ID is never
  /// replaced; address, first detection and persistence stay.
  lemma RecordStepMeaning(s: TrackerState, now: int, rssi: i8, detectionMethod: string,
                          deviceName: Option<string>, manufacturerId: Option<u16>,
                          companyName: Option<string>)
    ensures var t := RecordStep(s, now, rssi, detectionMethod, deviceName, manufacturerId, companyName);
      && t.temporal.detectionCount == s.temporal.detectionCount + 1
      && t.temporal.detectionTimes == s.temporal.detectionTimes + [now]
      && t.temporal.lastDetected == now && t.signal.currentRssi == rssi
      && detectionMethod in t.meta.detectedByMethods
      && (detectionMethod in s.meta.detectedByMethods ==>
            t.meta.detectedByMethods == s.meta.detectedByMethods
            && t.meta.detectionMethodsCount == s.meta.detectionMethodsCount)
      && t.signal.minRssi <= rssi && t.signal.minRssi <= s.signal.minRssi
      && (t.signal.minRssi == rssi || t.signal.minRssi == s.signal.minRssi)
      && t.signal.maxRssi >= rssi && t.signal.maxRssi >= s.signal.maxRssi
      && (t.signal.maxRssi == rssi || t.signal.maxRssi == s.signal.maxRssi)
      && t.identity.deviceName == (if deviceName.Some? then deviceName else s.identity.deviceName)
      && (s.identity.manufacturerId.Some? ==> t.identity.manufacturerId == s.identity.manufacturerId)
      && (s.identity.manufacturerId.None? ==> t.identity.manufacturerId == manufacturerId)
      && t.identity.macAddress == s.identity.macAddress
      && t.temporal.firstDetected == s.temporal.firstDetected
      && t.persistence == s.persistence
  {
  }

  /// After at least one detection the extremes are samples, bounding all
  /// the others.
  lemma {:induction false} ExtremesAreSamples(s: TrackerState)
    requires TrackerValid(s) && s.signal.rssiValues != []
    ensures s.signal.minRssi in s.signal.rssiValues && s.signal.maxRssi in s.signal.rssiValues
    ensures forall i :: 0 <= i < |s.signal.rssiValues| ==>
      s.signal.minRssi <= s.signal.rssiValues[i] <= s.signal.maxRssi
  {
    var h := s.signal.rssiValues;
    LinkLayer.MinFromIsMin(I8_MAX, h);
    LinkLayer.MaxFromIsMax(I8_MIN, h);
    if s.signal.minRssi == I8_MAX {
      assert h[0] >= I8_MAX;
    }
    if s.signal.maxRssi == I8_MIN {
      assert h[0] <= I8_MIN;
    }
  }

  /// One device's record, its sections updated in place.
  class DeviceTracker {
    var identity: Identity
    var temporal: Temporal
    var signal: Signal
    var meta: DetectionMeta
    var persistence: Persistence

    function Snapshot(): TrackerState
      reads this
    {
      TrackerState(identity, temporal, signal, meta, persistence)
    }

    /// A copy of a stored record (the derived `clone`).
    constructor CloneOf(s: TrackerState)
      ensures Snapshot() == s
    {
      identity, temporal, signal, meta, persistence := s.identity, s.temporal, s.signal, s.meta, s.persistence;
    }

    /// `DeviceTracker::new`
    constructor (mac: string, now: int)
      ensures Snapshot() == NewTracker(mac, now)
    {
      identity := Identity(mac, None, None, None);
      temporal := Temporal(now, now, 0, [now]);
      signal := Signal([], 0, I8_MAX, I8_MIN);
      meta := DetectionMeta([], 0, None);
      persistence := Persistence(None, false);
    }

    /// `DeviceTracker::record_detection`
    method RecordDetection(now: int, rssi: i8, detectionMethod: string,
                           deviceName: Option<string>, manufacturerId: Option<u16>,
                           companyName: Option<string>)
      modifies this
      ensures Snapshot() == RecordStep(old(Snapshot()), now, rssi, detectionMethod, deviceName, manufacturerId, companyName)
    {
      temporal := temporal.(lastDetected := now, detectionCount := temporal.detectionCount + 1,
                            detectionTimes := temporal.detectionTimes + [now]);

      if detectionMethod !in meta.detectedByMethods {
        var methods := meta.detectedByMethods + [detectionMethod];
        meta := meta.(detectedByMethods := methods, detectionMethodsCount := |methods|);
      }
      meta := meta.(lastDetectionMethod := Some(detectionMethod));

      var lowest := if rssi < signal.minRssi then rssi else signal.minRssi;
      var highest := if rssi > signal.maxRssi then rssi else signal.maxRssi;
      signal := Signal(signal.rssiValues + [rssi], rssi, lowest, highest);

      if deviceName.Some? {
        identity := identity.(deviceName := deviceName);
      }
      if manufacturerId.Some? && identity.manufacturerId.None? {
        identity := identity.(manufacturerId := manufacturerId);
        if companyName.Some? {
          identity := identity.(manufacturerName := companyName);
        }
      }
    }
  }

  /// The tracker test: one detection at -50 dBm by "btleplug".
  method TrackerExample()
    returns (mac: string, count: nat, current: i8, methods: seq<string>)
    ensures mac == "AA:BB:CC:DD:EE:FF" && count == 1 && current == -50 && "btleplug" in methods
  {
    var tracker := new DeviceTracker("AA:BB:CC:DD:EE:FF", 0);
    tracker.RecordDetection(10, -50, "btleplug", Some("MyDevice"), Some(0x004C), None);
    mac, count, current := tracker.identity.macAddress, tracker.temporal.detectionCount, tracker.signal.currentRssi;
    methods := tracker.meta.detectedByMethods;
  }

  // -----------------------------------------------------------------------
  // DeviceTrackerManager

  /// Among any non-empty set of stored addresses one has the earliest
  /// first detection.
  lemma {:induction false} OldestAmong(m: map<string, TrackerState>, keys: set<string>) returns (oldest: string)
    requires keys != {} && keys <= m.Keys
    ensures oldest in keys
    ensures forall j :: j in keys ==> m[oldest].temporal.firstDetected <= m[j].temporal.firstDetected
    decreases keys
  {
    var k0 :| k0 in keys;
    var rest := keys - {k0};
    if rest == {} {
      oldest := k0;
      assert keys == {k0};
    } else {
      var k1 := OldestAmong(m, rest);
      oldest := if m[k0].temporal.firstDetected <= m[k1].temporal.firstDetected then k0 else k1;
      forall j | j in keys
        ensures m[oldest].temporal.firstDetected <= m[j].temporal.firstDetected
      {
        if j != k0 {
          assert j in rest;
        }
      }
    }
  }

  const DEFAULT_MAX_DEVICES: nat := 10000

  /// Every record is valid and filed under its own address; a positive
  /// limit bounds the number of records.
  ghost predicate StoreValid(devices: map<string, TrackerState>, maxDevices: nat)
  {
    && (forall m :: m in devices ==> TrackerValid(devices[m]) && devices[m].identity.macAddress == m)
    && (maxDevices > 0 ==> |devices| <= maxDevices)
  }

  /// The eviction `get_or_create` makes: exactly when a new address
  /// arrives with the store at its limit (and not empty), a device with the
  /// earliest first detection leaves.
  ghost predicate EvictionChoice(devices: map<string, TrackerState>, maxDevices: nat, mac: string,
                                 evicted: Option<string>)
  {
    && (evicted.Some? <==> mac !in devices && |devices| >= maxDevices && |devices| > 0)
    && (evicted.Some? ==>
          && evicted.value in devices
          && forall m :: m in devices ==>
               devices[evicted.value].temporal.firstDetected <= devices[m].temporal.firstDetected)
  }

  /// The store after `get_or_create` has evicted `evicted` (if anything)
  /// and made sure `mac` has a record.
  function Admit(devices: map<string, TrackerState>, mac: string, now: int, evicted: Option<string>)
    : map<string, TrackerState>
  {
    var kept := if evicted.Some? then devices - {evicted.value} else devices;
    if mac in kept then kept else kept[mac := NewTracker(mac, now)]
  }

  /// After admission the address has its old record or a new one; only
  /// the evicted device leaves and every other record stays as it was.
  lemma AdmitMeaning(devices: map<string, TrackerState>, mac: string, now: int, evicted: Option<string>)
    requires evicted.Some? ==> evicted.value in devices && mac !in devices
    ensures var after := Admit(devices, mac, now, evicted);
      && mac in after
      && after[mac] == (if mac in devices then devices[mac] else NewTracker(mac, now))
      && after.Keys == (if evicted.Some? then devices.Keys - {evicted.value} else devices.Keys) + {mac}
      && (forall m :: m in after && m != mac ==> m in devices && after[m] == devices[m])
  {
  }

  /// Admission keeps the store valid and within its limit.
  lemma {:induction false} AdmitValid(devices: map<string, TrackerState>, maxDevices: nat, mac: string, now: int,
                                      evicted: Option<string>)
    requires StoreValid(devices, maxDevices) && EvictionChoice(devices, maxDevices, mac, evicted)
    ensures StoreValid(Admit(devices, mac, now, evicted), maxDevices)
  {
    var after := Admit(devices, mac, now, evicted);
    AdmitMeaning(devices, mac, now, evicted);
    forall m | m in after
      ensures TrackerValid(after[m]) && after[m].identity.macAddress == m
    {
      if m == mac && mac !in devices {
        NewTrackerValid(mac, now);
      }
    }
    if maxDevices > 0 {
      AdmitSize(devices, maxDevices, mac, now, evicted);
    }
  }

  /// Admission stays within a positive limit.
  lemma {:induction false} AdmitSize(devices: map<string, TrackerState>, maxDevices: nat, mac: string, now: int,
                                     evicted: Option<string>)
    requires 0 < maxDevices && |devices| <= maxDevices && EvictionChoice(devices, maxDevices, mac, evicted)
    ensures |Admit(devices, mac, now, evicted)| <= maxDevices
  {
    var after := Admit(devices, mac, now, evicted);
    AdmitMeaning(devices, mac, now, evicted);
    if mac in devices {
      assert after.Keys == devices.Keys;
    } else if evicted.Some? {
      assert |devices.Keys - {evicted.value}| == |devices.Keys| - 1;
    } else {
      assert |devices.Keys + {mac}| == |devices.Keys| + 1;
    }
  }

  /// A detection stored back under its address keeps the store valid.
  lemma StoreRecordValid(devices: map<string, TrackerState>, maxDevices: nat, mac: string, now: int, rssi: i8,
                         detectionMethod: string, deviceName: Option<string>, manufacturerId: Option<u16>,
                         companyName: Option<string>)
    requires StoreValid(devices, maxDevices) && mac in devices
    ensures StoreValid(devices[mac := RecordStep(devices[mac], now, rssi, detectionMethod, deviceName,
                                                 manufacturerId, companyName)], maxDevices)
  {
    RecordStepValid(devices[mac], now, rssi, detectionMethod, deviceName, manufacturerId, companyName);
    assert devices[mac := RecordStep(devices[mac], now, rssi, detectionMethod, deviceName,
                                     manufacturerId, companyName)].Keys == devices.Keys;
  }

  /// The stored records by MAC address, at most `maxDevices` of them.
  class DeviceTrackerManager {
    var devices: map<string, TrackerState>
    const maxDevices: nat

    ghost predicate Valid()
      reads this
    {
      StoreValid(devices, maxDevices)
    }

    /// `DeviceTrackerManager::new`
    constructor ()
      ensures Valid() && devices == map[] && maxDevices == DEFAULT_MAX_DEVICES
    {
      devices := map[];
      maxDevices := DEFAULT_MAX_DEVICES;
    }

    /// `DeviceTrackerManager::with_limit`
    constructor WithLimit(maxDevices: nat)
      ensures Valid() && devices == map[] && this.maxDevices == maxDevices
    {
      devices := map[];
      this.maxDevices := maxDevices;
    }

    /// `get_or_create`: at the limit a new address first evicts a device
    /// with the earliest first detection; an unknown address gets a new
    /// record; the caller receives a copy of the stored record.
    method GetOrCreate(mac: string, now: int) returns (tracker: DeviceTracker, ghost evicted: Option<string>)
      requires Valid()
      modifies this
      ensures Valid()
      ensures EvictionChoice(old(devices), maxDevices, mac, evicted)
      ensures devices == Admit(old(devices), mac, now, evicted)
      ensures fresh(tracker) && mac in devices && tracker.Snapshot() == devices[mac]
    {
      ghost var before := devices;
      evicted := None;
      if |devices| >= maxDevices && mac !in devices && |devices| > 0 {
        ghost var earliest := OldestAmong(devices, devices.Keys);
        var oldest :| oldest in devices && forall m :: m in devices ==>
          devices[oldest].temporal.firstDetected <= devices[m].temporal.firstDetected;
        devices := devices - {oldest};
        evicted := Some(oldest);
      }
      if mac !in devices {
        devices := devices[mac := NewTracker(mac, now)];
      }
      AdmitValid(before, maxDevices, mac, now, evicted);
      tracker := new DeviceTracker.CloneOf(devices[mac]);
    }

    /// `DeviceTrackerManager::record_detection` as written: the detection is
    /// recorded on the copy `get_or_create` hands out, so the store is only
    /// admitted to and never updated; the returned count is the copy's.
    method RecordDetectionAsWritten(mac: string, now: int, rssi: i8, detectionMethod: string,
                                    deviceName: Option<string>, manufacturerId: Option<u16>,
                                    companyName: Option<string>) returns (count: nat, ghost evicted: Option<string>)
      requires Valid()
      modifies this
      ensures Valid()
      ensures EvictionChoice(old(devices), maxDevices, mac, evicted)
      ensures devices == Admit(old(devices), mac, now, evicted)
      ensures mac in devices && count == devices[mac].temporal.detectionCount + 1
    {
      var tracker;
      tracker, evicted := GetOrCreate(mac, now);
      tracker.RecordDetection(now, rssi, detectionMethod, deviceName, manufacturerId, companyName);
      count := tracker.temporal.detectionCount;
    }

    /// `DeviceTrackerManager::record_detection` storing the updated record
    /// back under its address.
    method RecordDetection(mac: string, now: int, rssi: i8, detectionMethod: string,
                           deviceName: Option<string>, manufacturerId: Option<u16>,
                           companyName: Option<string>) returns (count: nat, ghost evicted: Option<string>)
      requires Valid()
      modifies this
      ensures Valid()
      ensures EvictionChoice(old(devices), maxDevices, mac, evicted)
      ensures var admitted := Admit(old(devices), mac, now, evicted);
        && mac in admitted
        && devices == admitted[mac := RecordStep(admitted[mac], now, rssi, detectionMethod, deviceName,
                                                 manufacturerId, companyName)]
      ensures mac in devices && count == devices[mac].temporal.detectionCount
      ensures count == (if mac in old(devices) then old(devices)[mac].temporal.detectionCount else 0) + 1
      ensures devices.Keys == Admit(old(devices), mac, now, evicted).Keys
    {
      var tracker;
      tracker, evicted := GetOrCreate(mac, now);
      StoreRecordValid(devices, maxDevices, mac, now, rssi, detectionMethod, deviceName, manufacturerId, companyName);
      tracker.RecordDetection(now, rssi, detectionMethod, deviceName, manufacturerId, companyName);
      devices := devices[mac := tracker.Snapshot()];
      count := tracker.temporal.detectionCount;
    }

    /// `get_device`
    function GetDevice(mac: string): (r: Option<TrackerState>)
      reads this
      ensures r.Some? <==> mac in devices
      ensures r.Some? ==> r.value == devices[mac]
    {
      if mac in devices then Some(devices[mac]) else None
    }
  }

  /// The manager test as written: after two detections of one address the
  /// store holds one device whose record still counts no detection, where
  /// the test expects 2.
  method ManagerTrackingAsWritten() returns (deviceCount: nat, storedCount: nat)
    ensures deviceCount == 1 && storedCount == 0
  {
    var manager := new DeviceTrackerManager();
    var _, _ := manager.RecordDetectionAsWritten("AA:BB:CC:DD:EE:FF", 0, -50, "btleplug", Some("Test"), Some(0x004C), None);
    assert manager.devices.Keys == {"AA:BB:CC:DD:EE:FF"};
    var _, _ := manager.RecordDetectionAsWritten("AA:BB:CC:DD:EE:FF", 1, -48, "btleplug", None, None, None);
    assert manager.devices.Keys == {"AA:BB:CC:DD:EE:FF"};
    deviceCount := |manager.devices|;
    storedCount := manager.devices["AA:BB:CC:DD:EE:FF"].temporal.detectionCount;
  }

  /// The manager test with the record stored back: one device, counted
  /// twice.
  method ManagerTracking() returns (deviceCount: nat, storedCount: nat)
    ensures deviceCount == 1 && storedCount == 2
  {
    var mac := "AA:BB:CC:DD:EE:FF";
    var manager := new DeviceTrackerManager();
    var _, _ := manager.RecordDetection(mac, 0, -50, "btleplug", Some("Test"), Some(0x004C), None);
    assert manager.devices.Keys == {mac};
    var _, _ := manager.RecordDetection(mac, 1, -48, "btleplug", None, None, None);
    assert manager.devices.Keys == {mac};
    deviceCount := |manager.devices|;
    storedCount := manager.devices[mac].temporal.detectionCount;
  }
}
