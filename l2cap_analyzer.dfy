// L2CAP protocol/service multiplexers, per-device channel profiles and the
// analyzer that keeps one profile per MAC address (src/l2cap_analyzer.rs).

module L2capAnalyzer {
  import opened Common

  // -----------------------------------------------------------------------
  // L2CapPsm

  /// `L2CapPsm::is_dynamic`: the service-specific range 0x1000..0xFFFF.
  predicate IsDynamic(psm: u16)
  {
    psm >= 0x1000
  }

  /// `L2CapPsm::is_reserved`
  predicate IsReserved(psm: u16)
  {
    !IsDynamic(psm)
  }

  /// The fixed PSMs that have a name.
  const NAMED_PSMS: set<u16> :=
    {0x0001, 0x0003, 0x0005, 0x0007, 0x000F, 0x0011, 0x0013, 0x0015, 0x0017,
     0x0019, 0x001B, 0x001D, 0x001F, 0x0021, 0x0023, 0x0025}

  /// `L2CapPsm::service_name` as written: 0x0017 is named AVDTP and 0x0019
  /// AVCTP.
  function ServiceNameAsWritten(psm: u16): string
  {
    if psm == 0x0017 then "AVDTP (Audio/Video Distribution Protocol)"
    else if psm == 0x0019 then "AVCTP (Audio/Video Control Transport Protocol)"
    else ServiceName(psm)
  }

  /// `L2CapPsm::service_name` with the Bluetooth assigned numbers for the
  /// two audio/video protocols: AVCTP is 0x0017 and AVDTP is 0x0019.
  function ServiceName(psm: u16): string
  {
    match psm
    case 0x0001 => "SDP (Service Discovery Protocol)"
    case 0x0003 => "RFCOMM"
    case 0x0005 => "TCS-BIN"
    case 0x0007 => "TCS-BIN-CORDLESS"
    case 0x000F => "BNEP (Bluetooth Network Encapsulation Protocol)"
    case 0x0011 => "HID-Control (Human Interface Device)"
    case 0x0013 => "HID-Interrupt"
    case 0x0015 => "BLE L2CAP (Attribute Protocol)"
    case 0x0017 => "AVCTP (Audio/Video Control Transport Protocol)"
    case 0x0019 => "AVDTP (Audio/Video Distribution Protocol)"
    case 0x001B => "AVCTP-Browsing"
    case 0x001D => "UDI_C-Plane"
    case 0x001F => "ATT (Attribute Protocol)"
    case 0x0021 => "EATT (Enhanced ATT)"
    case 0x0023 => "LE-SMP (Security Manager Protocol)"
    case 0x0025 => "SMP Br/EDR"
    case _ => if psm >= 0x1000 then "Dynamic PSM" else "Unknown PSM"
  }

  /// Every PSM has a name: "Dynamic PSM" exactly for the dynamic range,
  /// "Unknown PSM" exactly for the unnamed fixed values.
  lemma ServiceNameRanges(psm: u16)
    ensures ServiceName(psm) == "Dynamic PSM" <==> IsDynamic(psm)
    ensures ServiceName(psm) == "Unknown PSM" <==> IsReserved(psm) && psm !in NAMED_PSMS
    ensures ServiceNameAsWritten(psm) == "Dynamic PSM" <==> IsDynamic(psm)
    ensures IsReserved(psm) <==> !IsDynamic(psm)
  {
  }

  /// The PSM constants as written: AVDTP and AVCTP share 0x0019.
  const PSM_SDP: u16 := 0x0001
  const PSM_RFCOMM: u16 := 0x0003
  const PSM_HID_CONTROL: u16 := 0x0011
  const PSM_HID_INTERRUPT: u16 := 0x0013
  const PSM_ATT: u16 := 0x001F
  const PSM_EATT: u16 := 0x0021
  const PSM_SMP: u16 := 0x0023
  const PSM_AVDTP: u16 := 0x0019
  const PSM_AVCTP_AS_WRITTEN: u16 := 0x0019

  /// AVCTP at its assigned number.
  const PSM_AVCTP: u16 := 0x0017

  /// As written, the AVDTP and AVCTP constants are one PSM, whose name is
  /// AVCTP's.
  lemma PsmConstantsCollide()
    ensures PSM_AVDTP == PSM_AVCTP_AS_WRITTEN
    ensures ServiceNameAsWritten(PSM_AVDTP) == "AVCTP (Audio/Video Control Transport Protocol)"
  {
  }

  /// With AVCTP at 0x0017 the two constants differ and each names its own
  /// protocol; the SDP name is as the test expects.
  lemma PsmConstantsNamed()
    ensures ServiceName(PSM_SDP) == "SDP (Service Discovery Protocol)"
    ensures ServiceName(PSM_AVDTP) == "AVDTP (Audio/Video Distribution Protocol)"
    ensures ServiceName(PSM_AVCTP) == "AVCTP (Audio/Video Control Transport Protocol)"
    ensures ServiceName(PSM_ATT) == "ATT (Attribute Protocol)" && ServiceName(PSM_EATT) == "EATT (Enhanced ATT)"
    ensures PSM_AVDTP != PSM_AVCTP
  {
  }

  // -----------------------------------------------------------------------
  // Channels and device profiles

  datatype ChannelState = Connecting | Connected | Disconnecting | Disconnected | Error

  /// An L2CAP channel; the open and last-activity timestamps are left out.
  datatype L2CapChannel = L2CapChannel(
    channelId: u16, psm: u16, macAddress: string, state: ChannelState,
    txBytes: u32, rxBytes: u32, mtu: u16, flushTimeoutMs: u16)

  function TxSum(channels: seq<L2CapChannel>): nat
  {
    if channels == [] then 0 else TxSum(channels[..|channels| - 1]) + channels[|channels| - 1].txBytes
  }

  function RxSum(channels: seq<L2CapChannel>): nat
  {
    if channels == [] then 0 else RxSum(channels[..|channels| - 1]) + channels[|channels| - 1].rxBytes
  }

  /// How many channels use `psm`.
  function PsmCount(channels: seq<L2CapChannel>, psm: u16): nat
  {
    if channels == [] then 0
    else PsmCount(channels[..|channels| - 1], psm) + (if channels[|channels| - 1].psm == psm then 1 else 0)
  }

  /// The counters of a profile, as a value.
  datatype ProfileState = ProfileState(
    macAddress: string,
    deviceName: Option<string>,
    channels: seq<L2CapChannel>,
    psmUsage: map<u16, nat>,
    totalTxBytes: nat,
    totalRxBytes: nat,
    supportsBle: bool,
    supportsBredr: bool,
    supportsEatt: bool)

  /// `L2CapDeviceProfile::new`
  function NewProfileState(mac: string): ProfileState
  {
    ProfileState(mac, None, [], map[], 0, 0, false, false, false)
  }

  /// The usage map counts the channels per PSM and lists exactly the PSMs
  /// in use; the totals are the channels' byte sums.
  ghost predicate ProfileValid(s: ProfileState)
  {
    && s.totalTxBytes == TxSum(s.channels)
    && s.totalRxBytes == RxSum(s.channels)
    && (forall psm :: psm in s.psmUsage ==> s.psmUsage[psm] == PsmCount(s.channels, psm) > 0)
    && (forall psm :: psm !in s.psmUsage ==> PsmCount(s.channels, psm) == 0)
  }

  /// `L2CapDeviceProfile::add_channel`: one more use of the channel's PSM,
  /// its bytes added to the totals, the channel appended.
  function AddChannelStep(s: ProfileState, channel: L2CapChannel): ProfileState
  {
    var count := if channel.psm in s.psmUsage then s.psmUsage[channel.psm] else 0;
    s.(psmUsage := s.psmUsage[channel.psm := count + 1],
       totalTxBytes := s.totalTxBytes + channel.txBytes,
       totalRxBytes := s.totalRxBytes + channel.rxBytes,
       channels := s.channels + [channel])
  }

  /// Adding a channel keeps the usage map and totals in step with the
  /// channel list.
  lemma {:induction false} AddChannelStepValid(s: ProfileState, channel: L2CapChannel)
    requires ProfileValid(s)
    ensures ProfileValid(AddChannelStep(s, channel))
  {
    var t := AddChannelStep(s, channel);
    assert t.channels[..|t.channels| - 1] == s.channels;
    forall psm
      ensures PsmCount(t.channels, psm) == PsmCount(s.channels, psm) + (if channel.psm == psm then 1 else 0)
    {
    }
  }

  /// A new profile is valid.
  lemma NewProfileValid(mac: string)
    ensures ProfileValid(NewProfileState(mac))
  {
  }

  /// `get_active_channels`: the `Connected` channels, in order.
  function ActiveChannels(channels: seq<L2CapChannel>): (r: seq<L2CapChannel>)
    ensures |r| <= |channels|
    ensures forall i :: 0 <= i < |r| ==> r[i].state == Connected
    ensures forall c :: c in r <==> c in channels && c.state == Connected
    ensures forall c :: multiset(r)[c] == if c.state == Connected then multiset(channels)[c] else 0
  {
    if channels == [] then []
    else
      var init := ActiveChannels(channels[..|channels| - 1]);
      var last := channels[|channels| - 1];
      assert channels == channels[..|channels| - 1] + [last];
      if last.state == Connected then init + [last] else init
  }

  /// The active channels of two runs of channels are those of each, in
  /// order.
  lemma {:induction false} ActiveChannelsAppend(a: seq<L2CapChannel>, b: seq<L2CapChannel>)
    ensures ActiveChannels(a + b) == ActiveChannels(a) + ActiveChannels(b)
    decreases |b|
  {
    if b != [] {
      var n := |b| - 1;
      assert (a + b)[..|a + b| - 1] == a + b[..n] && (a + b)[|a + b| - 1] == b[n];
      ActiveChannelsAppend(a, b[..n]);
    }
    else {
      assert a + b == a;
    }
  }

  /// The profile of one device.
  class L2CapDeviceProfile {
    var macAddress: string
    var deviceName: Option<string>
    var channels: seq<L2CapChannel>
    var psmUsage: map<u16, nat>
    var totalTxBytes: nat
    var totalRxBytes: nat
    var supportsBle: bool
    var supportsBredr: bool
    var supportsEatt: bool

    function Snapshot(): ProfileState
      reads this
    {
      ProfileState(macAddress, deviceName, channels, psmUsage, totalTxBytes, totalRxBytes,
        supportsBle, supportsBredr, supportsEatt)
    }

    ghost predicate Valid()
      reads this
    {
      ProfileValid(Snapshot())
    }

    /// `L2CapDeviceProfile::new`
    constructor (mac: string)
      ensures Valid() && Snapshot() == NewProfileState(mac)
    {
      macAddress := mac;
      deviceName := None;
      channels := [];
      psmUsage := map[];
      totalTxBytes := 0;
      totalRxBytes := 0;
      supportsBle := false;
      supportsBredr := false;
      supportsEatt := false;
    }

    /// `L2CapDeviceProfile::add_channel`
    method AddChannel(channel: L2CapChannel)
      requires Valid()
      modifies this
      ensures Valid()
      ensures Snapshot() == AddChannelStep(old(Snapshot()), channel)
    {
      ghost var next := AddChannelStep(Snapshot(), channel);
      AddChannelStepValid(Snapshot(), channel);
      var count := if channel.psm in psmUsage then psmUsage[channel.psm] else 0;
      psmUsage := psmUsage[channel.psm := count + 1];
      totalTxBytes := totalTxBytes + channel.txBytes;
      totalRxBytes := totalRxBytes + channel.rxBytes;
      channels := channels + [channel];
      assert Snapshot() == next;
    }

    /// `L2CapDeviceProfile::get_active_channels`
    function GetActiveChannels(): seq<L2CapChannel>
      reads this
    {
      ActiveChannels(channels)
    }
  }

  /// The profile test: one ATT channel with 1000 bytes sent and 2000
  /// received.
  method DeviceProfileExample() returns (channelCount: nat, tx: nat, attUses: nat, active: nat)
    ensures channelCount == 1 && tx == 1000 && attUses == 1 && active == 1
  {
    var profile := new L2CapDeviceProfile("AA:BB:CC:DD:EE:FF");
    assert |profile.channels| == 0;
    var channel := L2CapChannel(0x0040, PSM_ATT, "AA:BB:CC:DD:EE:FF", Connected, 1000, 2000, 512, 3000);
    profile.AddChannel(channel);
    channelCount := |profile.channels|;
    tx := profile.totalTxBytes;
    attUses := profile.psmUsage[PSM_ATT];
    assert profile.channels == [channel];
    active := |profile.GetActiveChannels()|;
  }

  // -----------------------------------------------------------------------
  // L2CapAnalyzer

  /// One profile per registered MAC address.
  class L2CapAnalyzer {
    var devices: map<string, L2CapDeviceProfile>

    /// Every stored profile is valid, is filed under its own address, and
    /// no two addresses share a profile object.
    ghost predicate Valid()
      reads this, devices.Values
    {
      && (forall m :: m in devices ==> devices[m].Valid() && devices[m].macAddress == m)
      && (forall m1, m2 :: m1 in devices && m2 in devices && m1 != m2 ==> devices[m1] != devices[m2])
    }

    /// `L2CapAnalyzer::new`
    constructor ()
      ensures Valid() && devices == map[]
    {
      devices := map[];
    }

    /// `register_device`: a fresh profile with the given name, replacing
    /// any profile already filed under the address.
    method RegisterDevice(mac: string, deviceName: Option<string>)
      requires Valid()
      modifies this
      ensures Valid()
      ensures mac in devices && devices == old(devices)[mac := devices[mac]]
      ensures fresh(devices[mac]) && devices[mac].Snapshot() == NewProfileState(mac).(deviceName := deviceName)
    {
      var profile := new L2CapDeviceProfile(mac);
      profile.deviceName := deviceName;
      devices := devices[mac := profile];
    }

    /// `add_channel`: the device's profile adds the channel; an
    /// unregistered address is an error and changes nothing.
    method AddChannel(mac: string, channel: L2CapChannel) returns (r: Result<()>)
      requires Valid()
      modifies if mac in devices then {devices[mac]} else {}
      ensures Valid()
      ensures devices == old(devices)
      ensures r.Err? <==> mac !in devices
      ensures r.Err? ==> r.msg == "Device " + mac + " not registered"
      ensures mac in devices ==> devices[mac].Snapshot() == AddChannelStep(old(devices[mac].Snapshot()), channel)
    {
      if mac in devices {
        var profile := devices[mac];
        profile.AddChannel(channel);
        return Ok(());
      } else {
        return Err("Device " + mac + " not registered");
      }
    }

    /// `get_device`
    function GetDevice(mac: string): Option<L2CapDeviceProfile>
      reads this
    {
      if mac in devices then Some(devices[mac]) else None
    }
  }

  /// The analyzer test: a registered device receives a channel.
  method AnalyzerExample() returns (added: bool, found: bool, channelCount: nat, name: Option<string>)
    ensures added && found && channelCount == 1 && name == Some("Test Device")
  {
    var analyzer := new L2CapAnalyzer();
    analyzer.RegisterDevice("AA:BB:CC:DD:EE:FF", Some("Test Device"));
    var channel := L2CapChannel(0x0040, PSM_ATT, "AA:BB:CC:DD:EE:FF", Connected, 500, 1000, 512, 3000);
    var r := analyzer.AddChannel("AA:BB:CC:DD:EE:FF", channel);
    added := r.Ok?;
    var device := analyzer.GetDevice("AA:BB:CC:DD:EE:FF");
    found := device.Some?;
    channelCount := |device.value.channels|;
    name := device.value.deviceName;
  }
}
