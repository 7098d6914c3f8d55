// The GATT service and characteristic name tables (src/gatt_client.rs).

module GattNames {
  import opened Common

  /// The adopted services 0x1800..0x1834, in UUID order.
  function ServiceNames(): (r: seq<string>)
    ensures |r| == 53
  {
    [
    "Generic Access", "Generic Attribute", "Immediate Alert", "Link Loss", "Tx Power",
    "Current Time", "Reference Time Update", "Next DST Change", "Glucose", "Health Thermometer",
    "Device Information", "Network Availability", "Watchdog", "Heart Rate", "Phone Alert Status",
    "Battery", "Blood Pressure", "Alert Notification", "Human Interface Device", "Scan Parameters",
    "Running Speed and Cadence", "Automation IO", "Cycling Speed and Cadence", "Cycling Power",
    "Location and Navigation", "Environmental Sensing", "Body Composition", "User Data",
    "Weight Scale", "Bond Management", "Continuous Glucose Monitoring", "Internet Protocol Support",
    "Indoor Positioning", "Pulse Oximeter", "HTTP Proxy", "Transport Discovery", "Object Transfer",
    "Mesh Provisioning", "Mesh Proxy", "Reconnection", "Insulin Delivery", "Binary Sensor",
    "Emergency Configuration", "Authorization and Authentication", "Fitness Machine", "Mesh Beacon",
    "Big Data Transfer", "Lighting and Control", "QALE", "Air and Water Quality", "Personal Mobility",
    "Electronic Shelf Label", "Microphone Control"]
  }

  /// `get_gatt_service_name`: a dense table from 0x1800.
  function ServiceName(uuid16: u16): (r: Option<string>)
  {
    if 0x1800 <= uuid16 < 0x1800 + |ServiceNames()| then Some(ServiceNames()[uuid16 - 0x1800]) else None
  }

  /// The table covers exactly 0x1800..0x1834.
  lemma ServiceNameRange(uuid16: u16)
    ensures ServiceName(uuid16).Some? <==> 0x1800 <= uuid16 <= 0x1834
  {
  }

  /// The names the source's unit tests look up.
  lemma ServiceNameExamples(heartRate: u16, deviceInfo: u16)
    requires heartRate == 0x180D && deviceInfo == 0x180A
    ensures ServiceName(heartRate) == Some("Heart Rate")
    ensures ServiceName(deviceInfo) == Some("Device Information")
  {
    assert ServiceNames()[13] == "Heart Rate";
    assert ServiceNames()[10] == "Device Information";
  }

  function CharacteristicNames(): map<int, string>
  {
    map[
    0x2A00 := "Device Name", 0x2A01 := "Appearance", 0x2A02 := "Peripheral Privacy Flag",
    0x2A03 := "Reconnection Address", 0x2A04 := "Peripheral Preferred Connection Parameters",
    0x2A05 := "Service Changed", 0x2A37 := "Heart Rate Measurement", 0x2A38 := "Body Sensor Location",
    0x2A39 := "Heart Rate Control Point", 0x2A47 := "IEEE 11073-20601 Regulatory Certification Data List",
    0x2A50 := "Glucose Measurement", 0x2A51 := "Glucose Measurement Context", 0x2A52 := "Glucose Features",
    0x2A53 := "Record Access Control Point", 0x2A19 := "Battery Level", 0x2A49 := "Blood Pressure Feature",
    0x2A35 := "Blood Pressure Measurement", 0x2A5C := "CSC Feature", 0x2A5B := "CSC Measurement",
    0x2A2B := "Current Time", 0x2A0D := "Date of Birth", 0x2A0E := "Date of Death",
    0x2A29 := "Manufacturer Name String", 0x2A24 := "Model Number String", 0x2A25 := "Serial Number String",
    0x2A27 := "Hardware Revision String", 0x2A26 := "Firmware Revision String",
    0x2A28 := "Software Revision String", 0x2A23 := "System ID"]
  }

  /// `get_gatt_characteristic_name`
  function CharacteristicName(uuid16: u16): Option<string>
  {
    var names := CharacteristicNames();
    if uuid16 in names then Some(names[uuid16]) else None
  }

  /// Only characteristic UUIDs 0x2A00..0x2A5C have names.
  lemma CharacteristicNameRange(uuid16: u16)
    ensures CharacteristicName(uuid16).Some? ==> 0x2A00 <= uuid16 <= 0x2A5C
  {
  }

  /// The names the source's unit tests look up, and a gap in the table.
  lemma CharacteristicNameExamples(heartRate: u16, battery: u16, gap: u16)
    requires heartRate == 0x2A37 && battery == 0x2A19 && gap == 0x2A06
    ensures CharacteristicName(heartRate) == Some("Heart Rate Measurement")
    ensures CharacteristicName(battery) == Some("Battery Level")
    ensures CharacteristicName(gap) == None
  {
  }
}
