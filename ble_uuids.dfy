// Known 128-bit service UUIDs, company identifiers, the adopted 16-bit
// UUID base and the service-class sets (src/ble_uuids.rs).

module BleUuids {
  import opened Common

  /// `get_known_128bit_service`: a match on the upper-cased text.
  function Known128BitService(uuid: string): Option<string>
  {
    Known128BitKey(ToUpper(uuid))
  }

  /// The vendor 128-bit service UUIDs with names, keyed by upper-case text.
  function Known128BitKey(key: string): (r: Option<string>)
  {
    match key
    case "6E400001-B5A3-F393-E0A9-E50E24DCCA9E" => Some("Nordic UART Service (NUS)")
    case "6E400002-B5A3-F393-E0A9-E50E24DCCA9E" => Some("Nordic UART TX")
    case "6E400003-B5A3-F393-E0A9-E50E24DCCA9E" => Some("Nordic UART RX")
    case "00001523-1212-EFDE-1523-785FEABCD123" => Some("Nordic DFU")
    case "8EC90001-F315-4F60-9FB8-838830DAEA50" => Some("Nordic Secure DFU")
    case "FE2C123B-8366-4814-8EB0-01DE32100BEA" => Some("Google Fast Pair Model ID")
    case "FE2C123C-8366-4814-8EB0-01DE32100BEA" => Some("Google Fast Pair Additional Data")
    case "0000FEAA-0000-1000-8000-00805F9B34FB" => Some("Google Eddystone / Nearby")
    case "FDA50693-A4E2-4FB1-AFCF-C6EB07647825" => Some("Google Nearby Share")
    case "AE5ACDB1-4B1A-4B06-8319-1B0050DFABCF" => Some("Google Cast")
    case "4C000215-E2C0-4B0C-98A4-C529E59D6D4F" => Some("Apple Find My / iBeacon")
    case "4C000216-E2C0-4B0C-98A4-C529E59D6D4F" => Some("Apple iBeacon Manufacturer")
    case "D0611E78-BBB4-4591-A5F8-4879101FEAE2" => Some("Apple AirPods Pairing")
    case "0000FD51-0000-1000-8000-00805F9B34FB" => Some("Apple Continuity Protocol")
    case "0000FD52-0000-1000-8000-00805F9B34FB" => Some("Apple Handoff")
    case "0000FE2C-0000-1000-8000-00805F9B34FB" => Some("Apple HomeKit")
    case "0000FE55-0000-1000-8000-00805F9B34FB" => Some("Apple AirPlay")
    case "0000FE95-0000-1000-8000-00805F9B34FB" => Some("Apple AirDrop")
    case "00000D00-0000-1000-8000-00805F9B34FB" => Some("Apple Wireless Direct Link")
    case "0000FEE0-0000-1000-8000-00805F9B34FB" => Some("Xiaomi Mi Band / Amazfit Service")
    case "0000FEE1-0000-1000-8000-00805F9B34FB" => Some("Xiaomi Auth / Config")
    case "FEE7D263-1E4B-4A0B-918F-C50C247CD498" => Some("Xiaomi Mesh")
    case "6FBFE641-DA44-4CB9-AC8F-0846105F6AEF" => Some("Samsung SmartThings")
    case "12345678-1234-5678-1234-56789ABCDEF0" => Some("Samsung Watch Connect")
    case "0000FD2D-0000-1000-8000-00805F9B34FB" => Some("Huawei Share / Find My Device")
    case "0000180A-0000-1000-8000-00805F9B34FB" => Some("Huawei Device Information")
    case "0000FDB8-0000-1000-8000-00805F9B34FB" => Some("Huawei HiLink")
    case "ADAB0000-6E7D-4601-BDA2-BFFAA68956BA" => Some("Fitbit Service")
    case "ADAB0001-6E7D-4601-BDA2-BFFAA68956BA" => Some("Fitbit Charge/Versa")
    case "ADABFB00-6E7D-4601-BDA2-BFFAA68956BA" => Some("Fitbit Data Transfer")
    case "8D53DC1D-1DB7-41F3-A51B-A9C9C7A46B4D" => Some("Sony WH-1000XM5 / Headphones")
    case "0000FD4B-0000-1000-8000-00805F9B34FB" => Some("Sony LinkBuds")
    case "0000FD47-0000-1000-8000-00805F9B34FB" => Some("Sony WH-CH710N")
    case "0000FFE0-0000-1000-8000-00805F9B34FB" => Some("ESP32 Custom Serial (HM-10)")
    case "0000FFE1-0000-1000-8000-00805F9B34FB" => Some("ESP32 TX/RX")
    case "03B80E5A-EDE8-4B33-A751-6CE34EC4C700" => Some("MIDI over BLE Service")
    case "7772E5DB-3868-4112-A1A9-F2669D106BF3" => Some("MIDI I/O Characteristic")
    case "0000FD6F-0000-1000-8000-00805F9B34FB" => Some("Qualcomm Snapdragon Secure Processor")
    case "0000FD7A-0000-1000-8000-00805F9B34FB" => Some("LG Smart Device Service")
    case "0000FD7B-0000-1000-8000-00805F9B34FB" => Some("LG TV Remote Control")
    case "FEED0000-BEBA-BEBA-BEBA-FEEDDBABAEBE" => Some("Tile Lite/Slim UUID")
    case "0000FD3D-0000-1000-8000-00805F9B34FB" => Some("Philips Hue Service")
    case "10000000-0000-0000-0000-000000000000" => Some("Generic IoT Service")
    case "36D4DC5D-DFD5-4216-93F7-B91F4816E34E" => Some("Matter / Thread Bridge")
    case "C3C9221C-7F1A-4E5E-B0F5-2ABBC601D4A7" => Some("Tesla Vehicle Service")
    case "112755DC-DCDB-ECDB-DCDB-DCCCBCCBCCBC" => Some("BMW ConnectedDrive")
    case "0000183E-0000-1000-8000-00805F9B34FB" => Some("Medical Health Device Service")
    case "0000FEB3-0000-1000-8000-00805F9B34FB" => Some("Garmin ANT+ Bridge")
    case "6ACCDBEE-6D60-4C76-9E48-9FFDE405EBC9" => Some("Garmin Device Service")
    case "FB005C80-02E7-F387-1CAD-8ACD2D8DF0C8" => Some("Polar H9/H10 Heart Rate Monitor")
    case "0000FCE0-0000-1000-8000-00805F9B34FB" => Some("OnePlus Alert Notification")
    case "00001812-0000-1000-8000-00805F9B34FB" => Some("Microsoft Xbox Wireless")
    case "00001801-0000-1000-8000-00805F9B34FB" => Some("Microsoft Surface Connector")
    case "7ADBFB00-6E7D-4601-BDA2-BFFAA68956BA" => Some("LEGO Wireless Protocol")
    case "00000000-0000-1000-8000-00805F9B34FB" => Some("Withings Health Monitoring")
    case _ => None
  }

  /// `get_manufacturer_name` (Bluetooth SIG company identifiers).
  function ManufacturerName(code: u16): Option<string>
  {
    match code
    case 0x0001 => Some("Ericsson Technology Licensing")
    case 0x0004 => Some("Nokia Mobile Phones")
    case 0x0005 => Some("Toshiba Corp.")
    case 0x0006 => Some("Microsoft Corporation")
    case 0x0007 => Some("Lucent")
    case 0x0008 => Some("Motorola")
    case 0x0009 => Some("Infineon Technologies AG")
    case 0x000A => Some("Cambridge Silicon Radio")
    case 0x000B => Some("Silicon Wave")
    case 0x000C => Some("Digianswer A/S")
    case 0x000D => Some("Texas Instruments Inc.")
    case 0x000E => Some("Parthus Technologies Inc.")
    case 0x000F => Some("Broadcom Corporation")
    case 0x0010 => Some("Intel Corp.")
    case 0x0011 => Some("Waveplus Technology Co., Ltd.")
    case 0x0015 => Some("ASUSTek Computer Inc.")
    case 0x004C => Some("Apple Inc.")
    case 0x0059 => Some("Google LLC")
    case 0x00E0 => Some("Google")
    case 0x0075 => Some("Samsung Electronics Co. Ltd.")
    case 0x0076 => Some("LG Electronics")
    case 0x0156 => Some("Huawei Technologies Co. Ltd.")
    case 0x019F => Some("Sony Corporation")
    case 0x01E4 => Some("Panasonic Corporation")
    case 0x0124 => Some("Sony Ericsson Mobile Communications AB")
    case 0x038F => Some("Xiaomi Inc.")
    case 0x028E => Some("Xiaomi Inc.")
    case 0x01C3 => Some("Xiaomi Communications Co., Ltd.")
    case 0x02E3 => Some("Anhui Huami Information Technology Co., Ltd.")
    case 0x023D => Some("Dreame Innovation Technology Co., Ltd.")
    case 0x0152 => Some("OPPO Mobile Telecommunications Corp., Ltd.")
    case 0x0190 => Some("OnePlus Electronics (Shenzhen) Co. Ltd.")
    case 0x0157 => Some("Shenzhen Goodix Technology Co., Ltd.")
    case 0x02A6 => Some("Realme Chongqing Mobile Telecommunications Corp., Ltd.")
    case 0x03C7 => Some("Vivo Mobile Communication Co., Ltd.")
    case 0x003C => Some("Bose Corporation")
    case 0x0117 => Some("Harman International Industries Inc.")
    case 0x0158 => Some("Sonos, Inc.")
    case 0x02D9 => Some("Marshall London")
    case 0x0087 => Some("Sennheiser Communications A/S")
    case 0x0138 => Some("Plantronics")
    case 0x0277 => Some("Bowers & Wilkins")
    case 0x0220 => Some("Fitbit, Inc.")
    case 0x0293 => Some("TomTom International BV")
    case 0x0219 => Some("Garmin Ltd.")
    case 0x020E => Some("Polar Electro Oy")
    case 0x015D => Some("Jawbone")
    case 0x029D => Some("HUAWEI Technologies Co., Ltd. (wearables)")
    case 0x0394 => Some("Samsung Electronics Co., Ltd. (wearables)")
    case 0x004D => Some("Broadcom Corporation")
    case 0x00D0 => Some("Nordic Semiconductor ASA")
    case 0x025D => Some("Philips Lighting B.V.")
    case 0x0100 => Some("LEGO System A/S")
    case 0x02CA => Some("Espressif Incorporated")
    case 0x0131 => Some("Amazon.com Services, Inc.")
    case 0x00AD => Some("TP-Link Corporation Limited")
    case 0x02DB => Some("Infineon Technologies AG")
    case 0x025B => Some("Realtek Semiconductor Corporation")
    case 0x0060 => Some("NXP Semiconductors")
    case 0x0088 => Some("STMicroelectronics International NV")
    case 0x00CB => Some("Marvell Technology Group Ltd.")
    case 0x02E5 => Some("Nordic Semiconductor ASA (DFU)")
    case 0x0171 => Some("MediaTek Inc.")
    case 0x00E5 => Some("Qualcomm Technologies, Inc.")
    case 0x0229 => Some("Qualcomm Inc.")
    case 0x0099 => Some("BMW Group")
    case 0x00CF => Some("Daimler AG")
    case 0x0110 => Some("Tesla Inc.")
    case 0x0167 => Some("BMW AG")
    case 0x006D => Some("Ford Motor Company")
    case 0x0085 => Some("Volkswagen AG")
    case 0x009E => Some("Audi AG")
    case 0x00E3 => Some("Porsche AG")
    case 0x012D => Some("Tesla Motors")
    case 0x00DA => Some("A&D Company, Limited")
    case 0x014D => Some("GN ReSound A/S")
    case 0x0223 => Some("ResMed Inc.")
    case 0x02C8 => Some("NeuroPace Inc.")
    case 0x00A7 => Some("Abbott Diabetes Care")
    case 0x0168 => Some("Medtronic Inc.")
    case 0x01A8 => Some("Dexcom, Inc.")
    case 0x0046 => Some("Logitech International SA")
    case 0x004F => Some("Hewlett-Packard Company")
    case 0x0057 => Some("Microsoft Corporation (Xbox)")
    case 0x005B => Some("Dell Inc.")
    case 0x0068 => Some("Lenovo (Singapore) Pte. Ltd.")
    case 0x0078 => Some("Mitel Semiconductor Ltd.")
    case 0x01E5 => Some("Valve Corporation")
    case 0x0269 => Some("Razer Inc.")
    case 0x0339 => Some("Nintendo Co., Ltd.")
    case 0x01F6 => Some("OpenWrt Project")
    case 0x020F => Some("Arch Evo Ltd.")
    case 0x0224 => Some("Tile, Inc.")
    case 0x022D => Some("GoPro, Inc.")
    case 0x0239 => Some("Roku Inc.")
    case 0x0245 => Some("Lemonade Inc.")
    case 0x02BC => Some("Dyson Ltd.")
    case 0x0031 => Some("Seiko Epson Corporation")
    case 0x0113 => Some("Tencent Holdings Ltd.")
    case 0x0275 => Some("DJI Innovations")
    case _ => None
  }

  /// The names the source's unit tests look up.
  lemma ManufacturerNameExamples(apple: u16, google: u16)
    requires apple == 0x004C && google == 0x0059
    ensures ManufacturerName(apple) == Some("Apple Inc.")
    ensures ManufacturerName(google) == Some("Google LLC")
  {
  }

  /// The lookup ignores case.
  lemma Known128BitServiceIgnoresCase(uuid: string)
    ensures Known128BitService(ToUpper(uuid)) == Known128BitService(uuid)
    ensures Known128BitService(ToLower(uuid)) == Known128BitService(uuid)
  {
    ToUpperIdempotent(uuid);
    ToUpperOfToLower(uuid);
  }

  // ---------------------------------------------------------------------
  // The adopted 16-bit UUID base, 0000xxxx-0000-1000-8000-00805F9B34FB

  /// Bytes 4..16 of an adopted UUID, in the written (big-endian) order.
  const ADOPTED_BASE: bytes := [0x00, 0x00, 0x10, 0x00, 0x80, 0x00, 0x00, 0x80, 0x5F, 0x9B, 0x34, 0xFB]

  /// `is_adopted_16bit_uuid`
  predicate IsAdopted16BitUuid(uuid: bytes)
    requires |uuid| == 16
  {
    uuid[4..] == ADOPTED_BASE
  }

  /// `extract_16bit_from_uuid` as written: bytes 0..1 read little-endian.
  function Extract16BitAsWritten(uuid: bytes): (r: Option<u16>)
    requires |uuid| == 16
  {
    if IsAdopted16BitUuid(uuid) then Some(U16Le(uuid[0], uuid[1])) else None
  }

  /// The 128-bit form of a 16-bit UUID in big-endian (RFC 4122) byte order.
  function AdoptedUuid(v: u16): (r: bytes)
    ensures |r| == 16
  {
    [0, 0, v / 0x100, v % 0x100] + ADOPTED_BASE
  }

  /// As written, the result is Some exactly for adopted UUIDs and is bytes
  /// 0..1 little-endian; on a big-endian adopted UUID those bytes are the
  /// leading zeros, so every 16-bit UUID comes out as 0.
  lemma Extract16BitAsWrittenLosesUuid(uuid: bytes, v: u16)
    requires |uuid| == 16
    ensures Extract16BitAsWritten(uuid).Some? <==> IsAdopted16BitUuid(uuid)
    ensures Extract16BitAsWritten(uuid).Some? ==> Extract16BitAsWritten(uuid).value == U16Le(uuid[0], uuid[1])
    ensures Extract16BitAsWritten(AdoptedUuid(v)) == Some(0)
  {
    assert AdoptedUuid(v)[4..] == ADOPTED_BASE;
  }

  /// The 16-bit UUID of an adopted 128-bit UUID in big-endian byte order:
  /// bytes 0..1 zero, bytes 2..3 the value, bytes 4..16 the base.
  function Extract16Bit(uuid: bytes): (r: Option<u16>)
    requires |uuid| == 16
  {
    if IsAdopted16BitUuid(uuid) && uuid[0] == 0 && uuid[1] == 0 then Some(U16Be(uuid[2], uuid[3])) else None
  }

  /// `Extract16Bit` and `AdoptedUuid` are inverse.
  lemma Extract16BitRoundTrip(uuid: bytes, v: u16)
    requires |uuid| == 16
    ensures Extract16Bit(AdoptedUuid(v)) == Some(v)
    ensures Extract16Bit(uuid).Some? ==> AdoptedUuid(Extract16Bit(uuid).value) == uuid
  {
    assert AdoptedUuid(v)[4..] == ADOPTED_BASE;
    if Extract16Bit(uuid).Some? {
      var w := Extract16Bit(uuid).value;
      assert w / 0x100 == uuid[2] && w % 0x100 == uuid[3];
      assert uuid == uuid[..4] + uuid[4..];
    }
  }

  // ---------------------------------------------------------------------
  // Service classes

  /// `is_le_audio_service`
  predicate IsLeAudioService(uuid16: u16)
  {
    uuid16 in {0x1844, 0x1845, 0x1849, 0x184B, 0x184F, 0x1850, 0x1853, 0x1854}
  }

  /// `is_fitness_wearable_service`
  predicate IsFitnessWearableService(uuid16: u16)
  {
    uuid16 in {0x180D, 0x181A, 0x181C, 0x181D, 0x181F, 0x1814, 0x1816, 0x1818, 0x1826, 0x183E}
  }

  /// `is_iot_smart_service`
  predicate IsIotSmartService(uuid16: u16)
  {
    uuid16 in {0x1800, 0x1802, 0x1803, 0x1804, 0x1820, 0x1821, 0x183B, 0x183C}
  }

  /// `is_bt50_or_later_service`
  predicate IsBt50OrLaterService(uuid16: u16)
  {
    uuid16 in {0x184F, 0x1850, 0x1853, 0x1854}
  }

  /// `is_bt52_or_later_service`
  predicate IsBt52OrLaterService(uuid16: u16)
  {
    uuid16 in {0x1849, 0x1844, 0x1845, 0x1853, 0x1854}
  }

  /// The version classes are LE Audio services, and the three device
  /// classes do not overlap.
  lemma ServiceClassInclusions(uuid16: u16)
    ensures IsBt52OrLaterService(uuid16) ==> IsLeAudioService(uuid16)
    ensures IsBt50OrLaterService(uuid16) ==> IsLeAudioService(uuid16)
    ensures !(IsLeAudioService(uuid16) && IsFitnessWearableService(uuid16))
    ensures !(IsLeAudioService(uuid16) && IsIotSmartService(uuid16))
    ensures !(IsFitnessWearableService(uuid16) && IsIotSmartService(uuid16))
  {
  }
}
