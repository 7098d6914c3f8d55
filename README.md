# only-bt-scan: a verified model of the decoders and trackers

only-bt-scan is a Bluetooth Low Energy scanner with a browser dashboard.
Everything that moves bytes or counts packets sits between the radio and
the screen, and this project models that part in Dafny. The model covers:

- the three walks over length-prefixed advertising-data (AD) structures
  (Bluetooth Core Specification Vol 3 Part C section 11):
  - the typed parser in `src/advertising_parser.rs`;
  - the generic structure list of the raw sniffer;
  - the dashboard's own decoder in `frontend/app.js`;
- the vendor sub-parsers: iBeacon, Eddystone and its URL compression,
  AltBeacon, Apple Continuity, Google Fast Pair and the Microsoft Swift Pair
  TLVs;
- the HCI LE Advertising Report decoders, legacy and extended, and the L2CAP
  basic header decoder;
- the libpcap writer, byte for byte: the 24-byte global header, the 16-byte
  record header, H4 event and ACL packets;
- the GATT characteristic-properties bit field, the GATT client's read,
  write and summary, and the GATT name tables;
- MAC address text, address-type bits, wildcard patterns and the
  allow/deny filter;
- the address-type heuristics and the advertising-based security summary;
- UUID helpers: the adopted 16-bit UUID base and the service-class sets;
- the small stateful parts:
  - the bounded frame buffer with running statistics;
  - per-device deduplication and filtering counters, and the global packet
    order;
  - per-device discovery records with a capacity-limited manager;
  - link-layer channel maps and packet statistics;
  - L2CAP channel profiles;
  - HCI event counters;
  - the telemetry event timeline and latency summary;
- the pure rule tables:
  - version-to-feature sets and version detection;
  - adapter scoring and selection;
  - RSSI thresholds, the deduplication window and signal quality;
  - HTML escaping and duration text for the report.

There is one Dafny module per source file. The GATT client is split in
three: `GattProperties`, `GattClient` and `GattNames`. Two further modules
hold shared material:

- `Common`: fixed-width integers, Option and Result, byte-order helpers,
  hex and ASCII case;
- `Utf8`: `String::from_utf8` with its inverse encoder.

Each source file keeps its own form in the model:

- Code that computes a value becomes functions and lemmas.
- Cursor and index loops become methods with loop invariants. Each such
  method is proved equal to a specification function, and the properties
  are proved about that function.
- Structs that are updated in place become classes whose methods state
  their whole new state. Examples: the frame sniffer, the packet trackers,
  the device tracker and its manager, the L2CAP profiles and analyzer, the
  GATT client, the MAC filter, the HCI counters, the pcap exporter, link
  statistics and the telemetry collector.

Rust integers are modelled as ranges over `int`. Where a Rust operation can
overflow or wrap, the model spells out what happens: a `u8` subtraction, a
`u64` difference, `as u8` on a length, an `i8` reinterpretation. JavaScript
numbers are `parseInt` results (an integer or NaN). Reading past the end of
an array gives `undefined`, and `undefined.toString()` throws.

Where the code is evidently wrong (see "## Findings"), the model states the
code as written in its own members and the rest of the model uses a
corrected version; "## Left out" names every member that deviates this way.

Some behaviours of the code are easy to misread:

- The dashboard decoder splits its input on whitespace and reads each token
  with `parseInt(token, 16)`. It does not strip non-hex characters or pair
  digits. So unseparated hex such as "020106" is one number, and nothing is
  decoded (`FrontendDecoder.UnseparatedHexIsOneToken`).
- The typed parser dispatches on its own type codes, not on the Core
  Specification Supplement's:
  - 0x14 is read as a 128-bit UUID list;
  - 0x15 as 128-bit service data;
  - 0x16 as the appearance;
  - 0x1F as a 32-bit list;
  - 0x20 as 32-bit service data.
  The model keeps these codes.
- The HCI sniffer reads its own report layouts. These are described at the
  head of `hci_sniffer_example.dfy`.

## Model

| member | source | states |
|---|---|---|
| AdvertisingParser.FlagsFromByteRoundTrip | src/advertising_parser.rs:64-72 | `from_byte` (`FlagsFromByte`) reads exactly bits 0..4: writing the five flags back gives the byte modulo 32 |
| AdvertisingParser.FlagsToByteRoundTrip | src/advertising_parser.rs:64-72 | every combination of the five flags is read back unchanged from the byte it encodes to |
| AdvertisingParser.FlagsExample | src/advertising_parser.rs:357-364 | 0x06 gives general discoverable and BR/EDR not supported and no other flag |
| AdvertisingParser.FlagsStructure | src/advertising_parser.rs:214-218 | a Flags structure takes the flags from its first data byte and changes nothing when the data is empty |
| AdvertisingParser.FlagsPacketExample | src/advertising_parser.rs:214-218 | the packet built from [02 01 06] has general discoverability and BR/EDR not supported |
| AdvertisingParser.EncodeElement | src/advertising_parser.rs:114-119 | the layout the walk reads: length byte `|data|+1`, type byte, then the data |
| AdvertisingParser.ScanConsumesPrefix | src/advertising_parser.rs:103-124 | the accepted structures, written back, are a prefix of the input: the cursor never consumes more than the input |
| AdvertisingParser.AdElementsOfEncoded | src/advertising_parser.rs:114-124 | a complete structure is read back first, with `len-1` data bytes, whatever follows it |
| AdvertisingParser.ScanRoundTrip | src/advertising_parser.rs:103-124 | walking the bytes of written-out structures gives exactly those structures, in order |
| AdvertisingParser.ScanStopRule | src/advertising_parser.rs:106-116 | a zero length byte or a structure running past the end stops the walk, and nothing of it or after it is recorded |
| AdvertisingParser.FlagsPacketElements | src/advertising_parser.rs:103-124 | the walk over [02 01 06] finds one Flags structure with data [06] |
| AdvertisingParser.AdTypeInfoFallback | src/advertising_parser.rs:209 | `AdTypeInfo` names an unknown type "Unknown (0xTT)" with two upper-case hex digits and described "Unknown AD type" |
| AdvertisingParser.ChunkAtIsSlice | src/advertising_parser.rs:222-223 | the full chunks are the consecutive `w`-byte slices of the data; a trailing partial chunk is not one of them |
| AdvertisingParser.NewChunksContents | src/advertising_parser.rs:221-230 | a UUID is in the list afterwards iff it was there before or it decodes some full chunk |
| AdvertisingParser.NewChunksKeepsUnique | src/advertising_parser.rs:221-230 | the UUID list only grows at its end and never gains a duplicate |
| AdvertisingParser.AddNewChunks | src/advertising_parser.rs:221-230 | the chunk loop pushes exactly the new UUIDs the specification function lists, in chunk order |
| AdvertisingParser.Uuid16Example | src/advertising_parser.rs:374-380 | [0x0D, 0x18] yields the single UUID 0x180D |
| AdvertisingParser.FormatUuid128 | src/advertising_parser.rs:240-247 | the text of a 128-bit UUID is 36 characters long |
| AdvertisingParser.UuidParts | src/advertising_parser.rs:240-247 | bytes 3..0, 5..4 and 7..6 are printed reversed, bytes 8..9 and 10..15 in order, as lower-case hex groups |
| AdvertisingParser.FormatUuid128Injective | src/advertising_parser.rs:249-251 | different UUID bytes give different texts, so the `contains` check on texts de-duplicates UUIDs |
| AdvertisingParser.AppearanceRoundTrip | src/advertising_parser.rs:286-292 | appearance reads a 16-bit value little-endian (the inverse of writing it) and is None for fewer than two bytes |
| AdvertisingParser.AppearanceNotServiceData | src/advertising_parser.rs:155 | type 0x16 sets the appearance, or clears it on short data, and never touches 16-bit service data |
| AdvertisingParser.TxPowerExample | src/advertising_parser.rs:279-283 | TX power is the first data byte read as i8 (0xFB is -5); empty data leaves it unchanged |
| AdvertisingParser.ManufacturerOverwrite | src/advertising_parser.rs:330-336 | the company ID is little-endian, a later structure with the same ID replaces the data, and fewer than two bytes change nothing |
| AdvertisingParser.NameDecoding | src/advertising_parser.rs:348-350 | names decode as UTF-8; a byte that starts no UTF-8 sequence makes the short or complete name None |
| AdvertisingParser.AddServiceUuids | src/advertising_parser.rs:221-276 | the service-list arms (16-, 32- and 128-bit lists) update the packet as the list specification says |
| AdvertisingParser.ParseAdStructure | src/advertising_parser.rs:129-163 | one structure: its record is pushed, then the type-specific arm runs; the result equals the per-structure specification |
| AdvertisingParser.ParseAdStructures | src/advertising_parser.rs:103-124 | the cursor loop applies `parse_ad_structure` to exactly the structures the walk accepts, in order |
| AdvertisingParser.ParseAdvertisingPacket | src/advertising_parser.rs:85-100 | a default packet with the address, RSSI and scan-response marker, filled by the walk |
| RawSniffer.StructureNameDefined | src/raw_sniffer.rs:110-158 | a structure has a name exactly when its type is one of the named types; every other type gets None |
| RawSniffer.ParseAdvertisingData | src/raw_sniffer.rs:163-181 | the cursor loop returns one generic structure per element the shared walk accepts (same zero-length and overrun stop rule), in payload order |
| RawSniffer.FlagsStructureExample | src/raw_sniffer.rs:385-391 | [02 01 06] yields one structure, of type 0x01, named Flags |
| RawSniffer.ParseLeAdvertisingReport | src/raw_sniffer.rs:309-364 | the report is Ok iff it has at least 11 bytes; the address is the text of bytes 2..8 in received order, the address type that of byte 1, the frame type that of byte 0 (Core numbering, see "## Left out"), the data a clipped slice from byte 9, the RSSI the last byte as i8, and the frame is stamped `now` on LE 1M, channel 37 |
| RawSniffer.ReportDataClipping | src/raw_sniffer.rs:329-334 | the data is the declared length when the input holds it, otherwise everything after the length byte, the RSSI byte included |
| RawSniffer.MaxRssiIsMax | src/raw_sniffer.rs:216-222 | the running maximum is the RSSI of some frame and no frame is stronger |
| RawSniffer.MinRssiIsMin | src/raw_sniffer.rs:216-222 | the running minimum is the RSSI of some frame and no frame is weaker |
| RawSniffer.StatsStep | src/raw_sniffer.rs:211-222 | the counter update keeps the statistics equal to those of all frames seen: the first frame sets both extremes, later ones fold into max and min |
| RawSniffer.WindowIsNewest | src/raw_sniffer.rs:225-230 | the buffer holds at most `max_buffer_size` frames, the newest ones in arrival order, and is full once that many have arrived |
| RawSniffer.WindowStep | src/raw_sniffer.rs:225-230 | one more frame: when the buffer is full the oldest frame is dropped, then the new one is appended |
| RawSniffer.AddFrameStep | src/raw_sniffer.rs:211-230 | the buffer and counters after `add_frame` are those of the frames seen so far plus the new one |
| RawSniffer.Select | src/raw_sniffer.rs:233-270 | a filter keeps each frame that satisfies the condition as many times as the buffer holds it and drops every other frame, so never more frames than the buffer has |
| RawSniffer.SelectAppend | src/raw_sniffer.rs:233-270 | filtering a concatenation filters each part and concatenates, so with `SelectOne` the kept frames come in buffer order, as `filter().collect()` gives them |
| RawSniffer.SelectOne | src/raw_sniffer.rs:233-270 | a single frame is kept exactly when it satisfies the condition |
| RawSniffer.InsertSorted | src/raw_sniffer.rs:241-250 | inserting into a strictly sorted address list keeps it strictly sorted and adds exactly the new address |
| RawSniffer.SortedAddresses | src/raw_sniffer.rs:241-250 | the device addresses of the buffer, strictly sorted (so sorted and without repeats), each buffered address present |
| RawSniffer.StrictlySortedUnique | src/raw_sniffer.rs:247-248 | a strictly sorted list is fixed by its elements, so `sort` followed by `dedup` can only give `SortedAddresses` |
| RawSniffer.RawPacketSniffer.constructor | src/raw_sniffer.rs:202-208 | an empty buffer with the given capacity and default statistics |
| RawSniffer.RawPacketSniffer.AddFrame | src/raw_sniffer.rs:211-230 | for a positive capacity: total frames grow by one, captured bytes by the data length, the buffer stays within capacity and ends with the new frame, and the state stays that of the frames seen (capacity 0 is under "## Left out") |
| RawSniffer.RawPacketSniffer.DeviceFrames | src/raw_sniffer.rs:233-238 | the buffered frames of that address, each with its multiplicity in the buffer, and no other frame (their order is that of `Select`) |
| RawSniffer.RawPacketSniffer.FramesInRange | src/raw_sniffer.rs:253-262 | the buffered frames whose timestamp lies in the range, both ends included, each with its multiplicity in the buffer, and no other frame (in buffer order, as `Select` keeps it) |
| RawSniffer.RawPacketSniffer.FramesByType | src/raw_sniffer.rs:265-270 | the buffered frames of that advertising type, each with its multiplicity in the buffer, and no other frame (in buffer order, as `Select` keeps it) |
| RawSniffer.RawPacketSniffer.UniqueDevices | src/raw_sniffer.rs:241-250 | the buffered addresses, strictly sorted, each once |
| RawSniffer.RawPacketSniffer.Clear | src/raw_sniffer.rs:283-286 | the buffer is empty and the statistics are back to their defaults |
| RawSniffer.OneFrameStats | src/raw_sniffer.rs:394-410 | after one frame the totals are 1 and the data length, both extremes are its RSSI, and one device is known |
| FrontendDecoder.SplitWsTokens | frontend/app.js:242 | splitting on whitespace gives at least one token and no token holds whitespace |
| FrontendDecoder.SplitJoin | frontend/app.js:242 | splitting undoes joining tokens with single spaces when no token is empty or holds whitespace |
| FrontendDecoder.UnseparatedHexIsOneToken | frontend/app.js:242 | "020106" is one token read as 0x020106, so the walk stops at once and nothing is decoded |
| FrontendDecoder.HexTextOfByte | frontend/app.js:258-259 | `typeHex` and `lengthHex` of a byte are its two-digit upper-case hex text |
| FrontendDecoder.ParseUnpaddedHex | frontend/app.js:317 | `parseInt(n.toString(16), 16) == n`: the unpadded lower-case hex of the fallback name reads back as the type |
| FrontendDecoder.AdTypeInfoFallback | frontend/app.js:289-318 | an unknown type is named "Unknown (0x" + its unpadded lower-case hex + ")", and exactly the listed types (0x2A once, with its later entry) escape the fallback description |
| FrontendDecoder.AdTypeColorTotal | frontend/app.js:320-331 | every type gets a seven-character colour starting with '#'; exactly the seven listed types get one other than '#6b7280' |
| FrontendDecoder.ReadStructure | frontend/app.js:247-266 | one turn of the loop under the corrected stop rule (`>=`, not app.js:248's `>`; see "## Left out" and "## Findings"): stop, push one structure and continue at `i + 1 + length`, or throw, as the walk specification says |
| FrontendDecoder.ScanStructures | frontend/app.js:244-267 | the index loop returns what the corrected walk specification returns (structures or the TypeError of `undefined.toString` after a NaN length); a structure missing its last byte stops the walk instead of being clipped as app.js:248 does (see "## Left out") |
| FrontendDecoder.Summarize | frontend/app.js:269-284 | the `forEach` loop builds the summary entry by entry from the structures, in order |
| FrontendDecoder.ParseAdvertisingData | frontend/app.js:239-287 | the decoder equals the tokenize-walk-summarize specification under the corrected walk, and empty input gives empty structures and summary; the as-written walk is `ScanAsWrittenFrom` (see "## Left out") |
| FrontendDecoder.ManufacturerOfBytes | frontend/app.js:274-278 | a manufacturer structure with two bytes gives the little-endian ID, printed "0x" + upper-case hex |
| FrontendDecoder.TxPowerUnsigned | frontend/app.js:279-282 | TX power is shown as the unsigned byte with " dBm": 0xFB reads "251 dBm" |
| FrontendDecoder.TruncatedStructureAccepted | frontend/app.js:248-251 | as written, [02 01] yields a Flags structure with clipped, empty data where the Rust walk finds nothing, and a lone 01 throws |
| FrontendDecoder.ScanAsWrittenExtendsScan | frontend/app.js:246-267 | on numeric input the walk as written agrees with the corrected walk except for at most one extra clipped structure at the end |
| FrontendDecoder.ScanMatchesWalk | frontend/app.js:246-267 | with the corrected guard `i + length >= bytes.length`, the walk over byte input decodes exactly the structures of the Rust parsers, with nothing clipped and no exception |
| VendorProtocols.IBeaconGuard | src/vendor_protocols.rs:135-162 | `DetectIBeacon` reports an iBeacon exactly for company 0x004C data of at least 23 bytes starting 02 15; major and minor are big-endian and the TX power is signed |
| VendorProtocols.EddystoneLengths | src/vendor_protocols.rs:165-245 | in `DetectEddystone` the frame kind follows the first service-data byte, and UID, URL, TLM and EID need at least 19, 4, 14 and 10 bytes |
| VendorProtocols.DetectAltBeacon | src/vendor_protocols.rs:248-279 | the loop over the manufacturer data returns at the first entry, in iteration order, that starts BE AC and has at least 26 bytes |
| VendorProtocols.AltBeaconFound | src/vendor_protocols.rs:248-279 | whether an AltBeacon is found does not depend on the iteration order, and a found frame is stored under the reported company ID |
| VendorProtocols.IBeaconNotContinuity | src/vendor_protocols.rs:282-330 | `DetectContinuity` never reads iBeacon data (first byte 02) as Continuity, and every Continuity hash is the tail of the Apple data |
| VendorProtocols.FastPairFields | src/vendor_protocols.rs:333-362 | `DetectFastPair` needs at least 3 bytes of 0xFE2C service data; show-UI is bit 0 of the flags and the model ID fits in 24 bits |
| VendorProtocols.ParseTlvs | src/vendor_protocols.rs:372-387 | the TLV loop from offset 1 collects exactly the TLVs of the specification, stopping at the first one that does not fit |
| VendorProtocols.DetectSwiftPair | src/vendor_protocols.rs:365-396 | Microsoft data of at least 2 bytes gives its version byte and the TLVs after it; anything else gives None |
| VendorProtocols.TlvsFit | src/vendor_protocols.rs:372-387 | every collected value lies inside the data: the TLVs read never take more bytes than are left, and each value is under 256 bytes |
| VendorProtocols.TlvsRoundTrip | src/vendor_protocols.rs:372-387 | reading back encoded TLVs, after any prefix, gives exactly those TLVs |
| VendorProtocols.SwiftPairRoundTrip | src/vendor_protocols.rs:365-396 | an advertisement built from a version and a non-empty TLV list decodes to exactly that version and list |
| VendorProtocols.DecodeEddystoneUrl | src/vendor_protocols.rs:399-433 | the loop writes the scheme prefix and then each byte's expansion in turn, as the URL specification says |
| VendorProtocols.MapConcatAppend | src/vendor_protocols.rs:410-431 | expansion distributes over concatenation of the URL bytes |
| VendorProtocols.ExpandedText | src/vendor_protocols.rs:410-431 | the decoded URL is printable ASCII, and printable bytes come out unchanged after the scheme |
| VendorProtocols.DroppedBytes | src/vendor_protocols.rs:427-428 | bytes 0x0E..0x1F and 0x7F..0xFF are dropped |
| VendorProtocols.UrlExample | src/vendor_protocols.rs:440-444 | scheme 00 and "goog" decode to "http://www.goog" |
| VendorProtocols.ParseVendorProtocols | src/vendor_protocols.rs:88-121 | the detectors run in their fixed order, each contributing its result when it has one |
| VendorProtocols.ListedContents | src/vendor_protocols.rs:88-121 | the report holds each detector's result exactly when that detector found one |
| VendorProtocols.ListedOrder | src/vendor_protocols.rs:88-121 | the report lists at most six results, in the fixed detector order iBeacon, Eddystone, AltBeacon, Continuity, Fast Pair, Swift Pair |
| VendorProtocols.VendorOrder | src/vendor_protocols.rs:88-121 | the report lists at most one result per detector in the order iBeacon, Eddystone, AltBeacon, Continuity, Fast Pair, Swift Pair, and holds an iBeacon (a Swift Pair) iff the detector found one |
| GattProperties.ToByte | src/gatt_client.rs:57-84 | the OR chain gives the byte whose bits are the eight flags, bit 0 first |
| GattProperties.FlagsValue | src/gatt_client.rs:57-84 | the value of the flags is the sum of the masks of the set flags |
| GattProperties.FromByteRoundTrip | src/gatt_client.rs:44-84 | `to_byte(from_byte(b)) == b` for every byte |
| GattProperties.ToByteRoundTrip | src/gatt_client.rs:44-84 | `from_byte(to_byte(p)) == p` for every set of flags, and the byte is below 256 |
| GattProperties.AsBitsInjective | src/gatt_client.rs:44-55 | equal bit sequences come from equal flags |
| GattProperties.PropertiesExample | src/gatt_client.rs:547-560 | 0x12 is read and notify and not write; 0x02 is read alone |
| GattProperties.PropertiesList | src/gatt_client.rs:86-113 | the loop pushes the name of each set flag, in bit order |
| GattProperties.SelectedOfProperties | src/gatt_client.rs:86-113 | the names selected by the flags, written out flag by flag |
| GattProperties.OptsNames | src/gatt_client.rs:86-113 | each of the eight names is listed exactly when its flag is set |
| GattProperties.PropertiesListNames | src/gatt_client.rs:86-113 | `properties_list` names exactly the set flags, at most eight |
| GattProperties.PropertiesListExample | src/gatt_client.rs:554-560 | the module's test: for 0x02 the list is exactly ["Read"] |
| GattClient.ReadOutcomeMeaning | src/gatt_client.rs:313-341 | Ok only with the value of a matching readable characteristic; "not readable" only when a matching one lacks the read flag; "not found" when no candidate decides or there is none |
| GattClient.Client.constructor | src/gatt_client.rs:132-138 | a client with the address and no services |
| GattClient.Client.ReadCharacteristic | src/gatt_client.rs:302-341 | the nested loops return the outcome the read specification gives for the matching characteristics in visiting order |
| GattClient.Client.WriteCharacteristic | src/gatt_client.rs:345-387 | no match gives "not found" and no change; a match without either write flag gives "not writable" and no change; otherwise only that characteristic's value becomes the written value |
| GattClient.Client.GetSummary | src/gatt_client.rs:390-425 | the nested counting loops give the summary specification of the services |
| GattClient.CountCharacteristics | src/gatt_client.rs:399-421 | the inner loop bumps the counters once per characteristic, as the tally specification says |
| GattClient.FirstMatchFacts | src/gatt_client.rs:356-383 | the pair the write finds matches both UUIDs, and every pair the nested loops visit before it does not |
| GattClient.SetValueChangesOnlyTarget | src/gatt_client.rs:379-380 | a successful write changes the value of the one characteristic found and nothing else |
| GattClient.WriteThenRead | src/gatt_client.rs:302-387 | after a write, reading the same UUID pair returns the written value when the characteristic is readable |
| GattClient.TallyCounts | src/gatt_client.rs:399-421 | every characteristic is counted once, and each class counter is the number of characteristics with that flag (writable: write or write-without-response) |
| GattClient.SummaryMeaning | src/gatt_client.rs:390-425 | the characteristic count is the total over all services, the service count is the number of services, and no class counter exceeds the total |
| GattClient.EmptySummary | src/gatt_client.rs:578-583 | a client without services reports zero of everything |
| GattNames.ServiceNames | src/gatt_client.rs:447-504 | the service table has 53 entries, one per UUID 0x1800..0x1834 |
| GattNames.ServiceNameRange | src/gatt_client.rs:447-504 | a service name exists exactly for 0x1800..0x1834 |
| GattNames.ServiceNameExamples | src/gatt_client.rs:563-566 | 0x180D is "Heart Rate" and 0x180A is "Device Information" |
| GattNames.CharacteristicNameRange | src/gatt_client.rs:507-540 | only characteristic UUIDs 0x2A00..0x2A5C have names |
| GattNames.CharacteristicNameExamples | src/gatt_client.rs:569-575 | 0x2A37 is "Heart Rate Measurement", 0x2A19 is "Battery Level", and 0x2A06 has no name |
| GattNames.ServiceName | src/gatt_client.rs:447-504 | no contract of its own: indexes the dense table from 0x1800; `ServiceNameRange` proves a name exists exactly on 0x1800..0x1834 |
| GattNames.CharacteristicName | src/gatt_client.rs:507-540 | no contract of its own: the characteristic table; `CharacteristicNameRange` proves names exist only on 0x2A00..0x2A5C |
| MacAddressHandler.FromBytes | src/mac_address_handler.rs:35-44 | an address built from six octets keeps them and is well formed (its text is their colon form) |
| MacAddressHandler.AddressBitsPartition | src/mac_address_handler.rs:54-89 | unicast is the negation of multicast, local of universal administration; RPA and static random exclude each other and NRPA excludes both |
| MacAddressHandler.AddressTypeExamples | src/mac_address_handler.rs:255-265 | first octet 0x4A is a resolvable private address and 0xCA a static random one |
| MacAddressHandler.ManufacturerAndDevice | src/mac_address_handler.rs:91-97 | the manufacturer and device IDs are the first and last three octets |
| MacAddressHandler.ParseOctets | src/mac_address_handler.rs:24-29 | a successful parse of `n` pairs gives `n` octets |
| MacAddressHandler.FromString | src/mac_address_handler.rs:13-33 | the octet loop returns what the parsing specification returns |
| MacAddressHandler.ParseOctetsMeaning | src/mac_address_handler.rs:24-29 | parsing succeeds iff every pair is a valid hex byte, and the octets are exactly the pairs' values |
| MacAddressHandler.ParseMacMeaning | src/mac_address_handler.rs:13-33 | `from_string` succeeds iff twelve characters remain after dropping ':' and '-' and each pair is hex; the result is the well-formed upper-case colon form |
| MacAddressHandler.FromBytesRoundTrip | src/mac_address_handler.rs:13-44 | parsing the colon text of any six octets gives them back |
| MacAddressHandler.ParseMacIdempotent | src/mac_address_handler.rs:13-33 | parsing the text `from_string` produces gives the same address |
| MacAddressHandler.DashIgnored | src/mac_address_handler.rs:14-17 | a dash inserted anywhere does not change what `from_string` returns |
| MacAddressHandler.PatternParts | src/mac_address_handler.rs:100-103 | a pattern has six parts iff it has five colons |
| MacAddressHandler.WildcardMatchesAll | src/mac_address_handler.rs:99-120 | the pattern of six '*' parts matches every address |
| MacAddressHandler.MatchesOwnText | src/mac_address_handler.rs:99-120 | every address matches its own text used as a pattern |
| MacAddressHandler.MatchesPatternUpper | src/mac_address_handler.rs:174-181 | storing a pattern upper-cased never changes what it matches |
| MacAddressHandler.DashedListKeyNeverMatches | src/mac_address_handler.rs:157-171 | as written, a list entry given with '-' separators is accepted, but its stored key keeps the dashes and equals no address's key |
| MacAddressHandler.BlacklistWins | src/mac_address_handler.rs:186-188 | a blacklisted address is refused whatever else the filter holds |
| MacAddressHandler.AdmitMeaning | src/mac_address_handler.rs:183-220 | `matches` is the conjunction of: not blacklisted, whitelisted if there is a whitelist, some pattern matches if there are patterns, and the type allowed |
| MacAddressHandler.DefaultAdmitsAll | src/mac_address_handler.rs:140-150 | the default filter admits every address |
| MacAddressHandler.OneTypeFlagApplies | src/mac_address_handler.rs:209-217 | exactly one of the three type flags governs each address |
| MacAddressHandler.MacAddressFilter.constructor | src/mac_address_handler.rs:140-155 | no whitelist, empty blacklist and patterns, every address type allowed |
| MacAddressHandler.MacAddressFilter.AddWhitelist | src/mac_address_handler.rs:157-166 | an unparsable address is an error and changes nothing; otherwise the whitelist exists and gains the normalised key of the address (not the source's dash-keeping text, see "## Left out"), and nothing else changes |
| MacAddressHandler.MacAddressFilter.AddBlacklist | src/mac_address_handler.rs:168-172 | an unparsable address is an error and changes nothing; otherwise the blacklist gains the normalised key of the address (not the source's dash-keeping text, see "## Left out"), and nothing else changes |
| MacAddressHandler.MacAddressFilter.AddPattern | src/mac_address_handler.rs:174-181 | a pattern without six ':'-separated parts is refused with no change; otherwise it is appended upper-cased |
| MacAddressHandler.MacAddressFilter.Matches | src/mac_address_handler.rs:183-220 | the checks with their pattern loop return the filter specification |
| MacAddressHandler.MacAddressFilter.SetAllowRpa | src/mac_address_handler.rs:222-224 | sets that flag and changes nothing else |
| MacAddressHandler.MacAddressFilter.SetAllowStaticRandom | src/mac_address_handler.rs:226-228 | sets that flag and changes nothing else |
| MacAddressHandler.MacAddressFilter.SetAllowPublic | src/mac_address_handler.rs:230-232 | sets that flag and changes nothing else |
| MacAddressHandler.BlacklistedAddressRefused | src/mac_address_handler.rs:168-188 | once `add_blacklist` succeeds, its address (in any accepted spelling) is refused |
| MacAddressHandler.WhitelistedAddressAdmitted | src/mac_address_handler.rs:267-277 | once `add_whitelist` succeeds on a new filter, its address is admitted |
| BleSecurity.TypeOfFirstByteMeaning | src/ble_security.rs:73-88 | each address type is exactly one pattern of the first octet's top two bits, with bit 1 separating non-resolvable from public under 00 |
| BleSecurity.DetectMacTypeFallbacks | src/ble_security.rs:56-63 | a cleaned address of other than twelve characters is Unknown; an unparsable first octet counts as 0 and gives Public |
| BleSecurity.RpaIsRandomized | src/ble_security.rs:92-103 | an RPA is randomised, and an address is randomised iff its type is neither Public nor Unknown |
| BleSecurity.DetectAgreesWithMacAddress | src/ble_security.rs:56-94 | for a parsed address the heuristic type is the first octet's type, and agrees with `MacAddress::is_rpa` and `is_static_random` |
| BleSecurity.AnalyzeSecurity | src/ble_security.rs:105-133 | the connectability reported is the one given |
| BleSecurity.PairingRules | src/ble_security.rs:135-162 | `PairingAndSecurity`: non-connectable gives (None, Unsecured); connectable with a secure keyword gives (PasskeyEntry, SecureConnections); otherwise a standard service gives (JustWorks, Legacy); the level Secured is never produced |
| BleSecurity.RequiresBondingMeaning | src/ble_security.rs:105-133 | bonding is required iff the device is connectable and advertises a secure keyword; an RPA report implies randomisation |
| BleSecurity.SummaryPartsShape | src/ble_security.rs:195-224 | the summary has four fixed parts plus one per flag, begins with the address type, ends with the connectability, and shows "RPA Detected" second when set |
| BleUuids.ManufacturerNameExamples | src/ble_uuids.rs:413-417 | 0x004C is "Apple Inc." and 0x0059 is "Google LLC" |
| BleUuids.Known128BitServiceIgnoresCase | src/ble_uuids.rs:5-8 | the 128-bit lookup gives the same answer for the upper- and lower-cased text |
| BleUuids.AdoptedUuid | src/ble_uuids.rs:253-268 | the adopted 128-bit form of a 16-bit UUID has sixteen bytes |
| BleUuids.Extract16BitAsWrittenLosesUuid | src/ble_uuids.rs:267-293 | as written, extraction succeeds iff the last twelve bytes are the adopted base and reads bytes 0..1 little-endian, so every adopted UUID in the base's big-endian order yields 0 |
| BleUuids.Extract16BitRoundTrip | src/ble_uuids.rs:253-293 | extracting from the adopted form of `v` gives `v`, and any successful extraction rebuilds the UUID it came from |
| BleUuids.ServiceClassInclusions | src/ble_uuids.rs:305-410 | the version-class services are LE Audio services, and the LE Audio, fitness and IoT classes are pairwise disjoint |
| Utf8.DecodeOne | src/advertising_parser.rs:349 | a decoded scalar value consumes between one byte and the rest of the input, as many as its lead byte announces |
| Utf8.EncodeChar | src/advertising_parser.rs:349 | a scalar value encodes to one to four bytes |
| Utf8.DecodeOneEncodeChar | src/advertising_parser.rs:349 | decoding the encoding of a character gives it back with its length, whatever follows |
| Utf8.DecodeEncode | src/advertising_parser.rs:349 | every string survives encoding then strict decoding |
| Utf8.AsciiDecodes | src/advertising_parser.rs:349 | bytes below 0x80 decode one-for-one to the same code points |
| Utf8.BadLeadRejected | src/advertising_parser.rs:349 | a byte that can start no sequence makes the whole text invalid |
| BleUuids.Known128BitService | src/ble_uuids.rs:5-112 | no contract of its own: upper-cases the text and looks it up in the vendor table, entry by entry as the source lists them; `Known128BitServiceIgnoresCase` proves the answer does not depend on letter case |
| BleUuids.ManufacturerName | src/ble_uuids.rs:123-255 | no contract of its own: the company-identifier table, entry by entry; `ManufacturerNameExamples` checks the entries the source's tests use |
| BleUuids.Extract16BitAsWritten | src/ble_uuids.rs:287-293 | no contract of its own: the extraction as written; `Extract16BitAsWrittenLosesUuid` proves it succeeds iff the base matches, reads bytes 0..1 little-endian, and so yields 0 for every adopted UUID |
| BleUuids.Extract16Bit | src/ble_uuids.rs:287-293 | no contract of its own: the corrected extraction (see "## Findings"); `Extract16BitRoundTrip` proves it inverts the adopted-UUID construction in both directions |
| BleSecurity.DetectMacType | src/ble_security.rs:56-90 | no contract of its own: `TypeOfFirstByteMeaning` ties each type to the first octet's top bits, `DetectMacTypeFallbacks` gives the wrong-length and unparsable cases, and `DetectAgreesWithMacAddress` relates it to the MAC address bit predicates |
| BleSecurity.FormatSecuritySummary | src/ble_security.rs:195-224 | no contract of its own: joins the parts with " \| "; `SummaryPartsShape` states the number, first and last of the parts and the place of "RPA Detected" |
| HciSnifferExample.ReversedMacTextParses | src/hci_sniffer_example.rs:133-137 | the printed address parses back to the six received bytes in reverse order |
| HciSnifferExample.ClipEnd | src/hci_sniffer_example.rs:139-142 | the end of a data field lies between its start and both the declared end and the input's end, and equals one of them |
| HciSnifferExample.ReadReport | src/hci_sniffer_example.rs:126-164 | one legacy report is decoded as the report specification says, with the Core event-type numbering rather than lines 148-149's swapped one (see "## Left out"), and the next header is 10 plus the declared length further on |
| HciSnifferExample.ReportsStep | src/hci_sniffer_example.rs:121-165 | the loop's frames stay a prefix of the whole decoding as each report is appended |
| HciSnifferExample.ParseLeAdvertisingReport | src/hci_sniffer_example.rs:111-168 | fewer than two bytes is the short-report error; otherwise the frames are exactly the decoding of up to `data[0]` reports starting at offset 1, with the Core event-type numbering (see "## Left out") |
| HciSnifferExample.ReportsEnd | src/hci_sniffer_example.rs:121-124 | the loop stops with all frames once the count is used up or a header would run past the input |
| HciSnifferExample.ReportsBounds | src/hci_sniffer_example.rs:121-165 | at most `num_reports` frames, each with data lying inside the input |
| HciSnifferExample.FirstReport | src/hci_sniffer_example.rs:330-350 | the first complete report yields its data bytes, its RSSI byte as `i8`, its event type's frame type under the Core numbering (see "## Left out") and its address in reverse byte order |
| HciSnifferExample.TwoReports | src/hci_sniffer_example.rs:352-375 | two back-to-back complete reports give two frames |
| HciSnifferExample.ExtendedGuardTooWeak | src/hci_sniffer_example.rs:181-197 | as written, with one report and sixteen bytes the `offset + 15` guard passes while the header read reaches index 25, so the decoder as written panics on that input |
| HciSnifferExample.ReadExtendedReport | src/hci_sniffer_example.rs:186-248 | one extended report is decoded as the report specification says, and the next header is 25 plus the declared length further on |
| HciSnifferExample.ExtendedReportsStep | src/hci_sniffer_example.rs:181-249 | the loop's frames stay a prefix of the whole decoding as each report is appended |
| HciSnifferExample.ParseLeExtendedAdvertisingReport | src/hci_sniffer_example.rs:172-252 | fewer than two bytes is the short-report error; otherwise the frames are exactly the decoding of up to `data[0]` extended reports, each read only when its whole 25-byte header lies inside the input (the corrected guard; the as-written panic is `ParseLeExtendedAdvertisingReportAsWritten`) |
| HciSnifferExample.ExtendedReportsEnd | src/hci_sniffer_example.rs:181-184 | the corrected loop stops with all frames once the count is used up or a 25-byte header would run past the input (the source checks 15 bytes, see "## Left out") |
| HciSnifferExample.ExtendedReportsBounds | src/hci_sniffer_example.rs:181-249 | at most `num_reports` extended frames, each with data inside the input |
| HciSnifferExample.ExtendedFieldRules | src/hci_sniffer_example.rs:210-231 | the PHY is unknown iff the primary PHY is outside 1..3; under coded PHY it is S2 iff the secondary PHY is 2; the frame type depends only on the low four bits of the event type |
| HciPacketParser.ParseL2CapMeaning | src/hci_packet_parser.rs:26-44 | under four bytes is the too-short error; otherwise parsing succeeds iff the declared payload is present, and a success holds the declared length, the channel and exactly that many payload bytes |
| HciPacketParser.ParseL2CapConsumes | src/hci_packet_parser.rs:26-44 | a successful parse read exactly the encoding of its result |
| HciPacketParser.EncodeParsesBack | src/hci_packet_parser.rs:26-44 | a packet encoded with its length header parses back to its channel and payload whatever follows |
| HciPacketParser.ChannelNameKnown | src/hci_packet_parser.rs:46-55 | exactly five channels have names; 0x001F is ATT |
| HciPacketParser.PhyFromU8Inverse | src/hci_packet_parser.rs:130-137 | `from_u8` (`PhyFromU8`) is defined exactly on 1..3 and inverts the discriminant |
| HciPacketParser.PhyNamesDistinct | src/hci_packet_parser.rs:139-145 | the three PHY names are distinct |
| HciPacketParser.EventNameRoundTrip | src/hci_packet_parser.rs:182-187 | every name `EventName` gives reads back to its code |
| HciPacketParser.EventNameInjective | src/hci_packet_parser.rs:182-187 | different event codes have different names |
| HciPacketParser.HciPacketParser.constructor | src/hci_packet_parser.rs:168-178 | both totals zero and every count map empty |
| HciPacketParser.HciPacketParser.ParseHciEvent | src/hci_packet_parser.rs:180-200 | the event carries its code, name, byte count truncated to `u8` and parameters; the event total and its name's count rise by one and nothing else changes |
| HciPacketParser.HciPacketParser.ParseL2capPacket | src/hci_packet_parser.rs:202-207 | returns the packet decoding; a success raises the L2CAP total and its channel's count by one, a failure changes nothing |
| HciPacketParser.EventCountsOnlyThatName | src/hci_packet_parser.rs:188-192 | counting an event raises only its own name's count |
| HciPacketParser.L2CapExample | src/hci_packet_parser.rs:213-219 | the test packet has a 4-byte payload on the ATT channel |
| HciSnifferExample.ParseLeExtendedAdvertisingReportAsWritten | src/hci_sniffer_example.rs:172-252 | the decoder exactly as written: fewer than two bytes is the short-report error; otherwise it panics exactly when the as-written report loop reaches a header with 15 but not 25 bytes left, and otherwise returns that loop's frames |
| HciSnifferExample.ReadExtendedReportsAsWritten | src/hci_sniffer_example.rs:181-249 | the report loop under the `offset + 15` guard, panic included, equals the recursive as-written decoding of up to `data[0]` reports |
| HciSnifferExample.AsWrittenStep | src/hci_sniffer_example.rs:186-248 | appending a fully read report keeps the as-written run of the loop unchanged |
| HciSnifferExample.ExtendedAsWrittenAgrees | src/hci_sniffer_example.rs:181-249 | wherever the decoder as written does not panic, it returns exactly the frames of the guarded decoder |
| HciPacketParser.ParseL2Cap | src/hci_packet_parser.rs:26-44 | no contract of its own: `ParseL2CapMeaning` gives the error and success conditions and the fields, `ParseL2CapConsumes` and `EncodeParsesBack` make it the inverse of the basic-header encoding |
| HciPacketParser.ChannelName | src/hci_packet_parser.rs:46-55 | no contract of its own: `ChannelNameKnown` proves exactly five channel IDs are named and 0x001F is ATT |
| PcapExporter.U32Bytes | src/pcap_exporter.rs:33-52 | the four little-endian bytes of a `u32` read back to it |
| PcapExporter.U16Bytes | src/pcap_exporter.rs:33-52 | the two little-endian bytes of a `u16` read back to it |
| PcapExporter.GlobalHeaderBytes | src/pcap_exporter.rs:33-52 | the global header is 24 bytes |
| PcapExporter.GlobalHeaderRoundTrip | src/pcap_exporter.rs:33-52 | reading the global header's bytes field by field gives the header back |
| PcapExporter.NewGlobalHeaderBytes | src/pcap_exporter.rs:21-31 | the exporter's header starts with the magic bytes D4 C3 B2 A1 and ends with link type 201 |
| PcapExporter.PacketHeaderBytes | src/pcap_exporter.rs:68-86 | a record header is 16 bytes |
| PcapExporter.PacketHeaderRoundTrip | src/pcap_exporter.rs:68-86 | reading a record header's bytes gives it back |
| PcapExporter.EventLayout | src/pcap_exporter.rs:106-118 | an event packet has the event type and holds the code, the parameter count and the parameters; its size counts the type byte |
| PcapExporter.AclInLayout | src/pcap_exporter.rs:120-139 | an ACL packet holds the handle's low 12 bits with boundary flag 2, the data length and the data; its size counts the type byte |
| PcapExporter.PcapExporter.constructor | src/pcap_exporter.rs:149-166 | a file-backed exporter with nothing written and zero counts |
| PcapExporter.PcapExporter.ToMemory | src/pcap_exporter.rs:168-175 | an exporter on ":memory:" without a file, nothing written and zero counts |
| PcapExporter.PcapExporter.WriteHeader | src/pcap_exporter.rs:177-186 | with a file, appends the 24 header bytes and adds 24 to the byte total; without one, changes nothing |
| PcapExporter.PcapExporter.WritePacket | src/pcap_exporter.rs:188-205 | with a file, appends a record header stamped with the given time and the packet's size, then the type byte and the data, and counts the packet and its bytes; without one, changes nothing |
| PcapExporter.PcapExporter.GetStats | src/pcap_exporter.rs:214-220 | returns the path, the packet count and the byte total |
| PcapExporter.BuildRecord | src/pcap_exporter.rs:234-292 | one frame's record is built as the record specification says |
| PcapExporter.ExportFramesToBuffer | src/pcap_exporter.rs:224-300 | the buffer is the global header followed by one record per frame, in order |
| PcapExporter.RecordsSnoc | src/pcap_exporter.rs:234-293 | the loop's buffer stays the header plus the records of the frames done so far |
| PcapExporter.RecordsAppend | src/pcap_exporter.rs:234-293 | the records of two frame lists are the records of each, concatenated |
| PcapExporter.ReportPacketLayout | src/pcap_exporter.rs:235-284 | a frame's H4 packet is an LE Meta event holding one LE Advertising Report: the event type, a public address type, the address, the data length and data, and the RSSI last |
| PcapExporter.FrameRecordLayout | src/pcap_exporter.rs:281-292 | a record is a 16-byte header whose two lengths both count the H4 packet that follows and whose time is the frame's timestamp split into whole seconds and the microseconds within the second, which recombine to the timestamp whenever the seconds fit `u32` |
| PcapExporter.RecordSplit | src/pcap_exporter.rs:291-292 | a record splits back into its header and its packet |
| PcapExporter.ExportMacBytesShort | src/pcap_exporter.rs:261-268 | the exported address bytes are never more than the text's length plus six |
| PcapExporter.ExportMacOfPrinted | src/pcap_exporter.rs:261-268 | an address printed from six bytes exports those bytes reversed into HCI order |
| PcapExporter.ExportThenDecodeSwaps | src/pcap_exporter.rs:249-256 | as written, a scannable frame exported and read back by either report decoder (src/raw_sniffer.rs:335-341, src/hci_sniffer_example.rs:145-152) comes back non-connectable, and the reverse |
| PcapExporter.ExportThenDecodeRoundTrip | src/pcap_exporter.rs:249-256 | with the Core numbering in the decoders every legacy type survives export and decode (the raw decoder lacking only SCAN_RSP), the extended and unknown types come back as ADV_IND, and the exported code is at most 4 |
| LinkLayer.FromBytes | src/link_layer.rs:49-67 | under five bytes gives None; otherwise all three advertising channels and, as data channels, the first 37 bits that are set |
| LinkLayer.EnabledBelowMembers | src/link_layer.rs:57-64 | a data channel is listed iff it is below 37 and its bit is set |
| LinkLayer.EnabledBelowAscending | src/link_layer.rs:57-64 | the data channels are strictly ascending, so none is listed twice |
| LinkLayer.EnabledBelowAllOnes | src/link_layer.rs:40-64 | with every bit set the data channels are 0..36 in order |
| LinkLayer.FromBytesAllOnes | src/link_layer.rs:40-67 | an all-ones channel map decodes to the default map |
| LinkLayer.IsHealthyMeaning | src/link_layer.rs:70-91 | `IsHealthy` holds iff at least two advertising channels and some data channel are enabled, so a healthy map has at least three channels |
| LinkLayer.NewChannelMapFull | src/link_layer.rs:369-374 | the default map has 40 channels and is healthy |
| LinkLayer.FromBytesBounds | src/link_layer.rs:49-83 | a decoded map has at most 40 channels, all data channels below 37 |
| LinkLayer.MaxFromIsMax | src/link_layer.rs:131-133 | the strongest RSSI is at least the start and every sample, and is one of them |
| LinkLayer.MinFromIsMin | src/link_layer.rs:134-136 | the weakest RSSI is at most the start and every sample, and is one of them |
| LinkLayer.LastNSuffix | src/link_layer.rs:145-148 | the kept samples are a suffix of at most 1000 entries, exactly 1000 once that many were added |
| LinkLayer.PacketStatistics.constructor | src/link_layer.rs:108-123 | zero counts, no samples, strongest -100 and weakest -30 |
| LinkLayer.PacketStatistics.AddPacket | src/link_layer.rs:126-149 | counts the packet and its bytes, moves the extremes only past strictly stronger or weaker samples, counts the channel, and keeps at most 1000 samples ending with the new one |
| LinkLayer.LastNSnoc | src/link_layer.rs:145-148 | appending to a full window drops its oldest entry |
| LinkLayer.StatisticsExample | src/link_layer.rs:337-348 | after the three test packets: 3 packets, 330 bytes, strongest -55, weakest -65, channel 37 counted twice |
| LinkLayer.PhyToStringCases | src/link_layer.rs:323-332 | codes 1..4 have names starting "LE " (1 and 2 are "LE 1M" and "LE 2M"); any other code is "Unknown PHY (n)" with its decimal value |
| LinkLayer.PhyNamesDistinct | src/link_layer.rs:323-332 | different known codes have different names |
| PcapExporter.NewGlobalHeader | src/pcap_exporter.rs:21-31 | no contract of its own: the fixed header values; `NewGlobalHeaderBytes` proves its bytes begin with the magic D4 C3 B2 A1 and end with link type 201, and `GlobalHeaderRoundTrip` that they read back |
| LinkLayer.PhyToString | src/link_layer.rs:323-331 | no contract of its own: `PhyToStringCases` names codes 1..4 and gives "Unknown PHY (n)" for every other code, and `PhyNamesDistinct` that the names differ |
| PacketTracker.IsDuplicateDependsOnOrder | src/packet_tracker.rs:62-78 | as written, two iteration orders of the same RSSI map give opposite duplicate verdicts for the same packet |
| PacketTracker.DeviceStepMeaning | src/packet_tracker.rs:38-59 | every call counts the packet; below -75 dBm it is filtered; it is accepted iff it passes the threshold and is not a duplicate of the last accepted packet (the source compares a HashMap-order entry, see "## Left out"); an accepted packet's ID is appended with its RSSI and time; a refused one changes neither sequence, map nor time; the counts keep adding up |
| PacketTracker.IsDuplicateIsAsWrittenForRecencyOrder | src/packet_tracker.rs:62-78 | the corrected rule (compare with the last accepted packet) is the as-written verdict for every iteration order ending with that packet |
| PacketTracker.GetStatsAddUp | src/packet_tracker.rs:86-98 | received equals accepted plus filtered plus duplicates |
| PacketTracker.DevicePacketTracker.constructor | src/packet_tracker.rs:25-35 | an empty tracker for the address with zero counts |
| PacketTracker.DevicePacketTracker.AddPacket | src/packet_tracker.rs:38-59 | the new fields and the verdict are the device step of the old fields, with the duplicate test against the last accepted packet (see "## Left out") |
| PacketTracker.DeviceStepExamples | src/packet_tracker.rs:245-262 | on a new tracker a -60 dBm packet is accepted and sequenced, and a -85 dBm packet is filtered |
| PacketTracker.IdsOfSnoc | src/packet_tracker.rs:133-136 | appending an entry to the global sequence adds its ID to its own device's list only |
| PacketTracker.GlobalStepValid | src/packet_tracker.rs:119-151 | one global step keeps the count equal to the sequence length and each device's accepted IDs equal to its entries of the global sequence |
| PacketTracker.GlobalPacketTracker.constructor | src/packet_tracker.rs:110-116 | no trackers, an empty sequence and count 0 |
| PacketTracker.GlobalPacketTracker.AddPacket | src/packet_tracker.rs:119-151 | the device's tracker (created if missing) takes the device step (duplicate test against the last accepted packet, see "## Left out"); only an accepted packet joins the global sequence and the count, and the result is Accepted with its position or Rejected with the fixed reason |
| PacketTracker.GlobalPacketTracker.GetDeviceSequence | src/packet_tracker.rs:161-165 | present iff the device has a tracker, and then its IDs in global-sequence order |
| PacketTracker.ConsSortedByTimestamp | src/packet_tracker.rs:154-158 | an entry no later than a sorted tail keeps it sorted |
| PacketTracker.InsertByTimestampSorted | src/packet_tracker.rs:154-158 | inserting into a sorted sequence keeps it sorted and adds exactly that entry |
| PacketTracker.SortByTimestampCorrect | src/packet_tracker.rs:154-158 | the global sequence comes back sorted by timestamp and a permutation of the entries |
| PacketTracker.InsertByTimestampAtTime | src/packet_tracker.rs:156 | inserting an entry puts it ahead of the entries with its own timestamp and leaves their order alone |
| PacketTracker.SortByTimestampStable | src/packet_tracker.rs:154-158 | the sort is stable: the entries of each timestamp come back in the order they were recorded |
| PacketTracker.SortExample | src/packet_tracker.rs:264-281 | packets at 1000, 2000 and 1500 ms come back in the order 1000, 1500, 2000 |
| ConfigParams.ShouldAcceptRssiThreshold | src/config_params.rs:49-51 | `ShouldAcceptRssi` passes a signal iff it is at least -75 dBm, so the threshold is inclusive |
| ConfigParams.IsDuplicatePacketMeaning | src/config_params.rs:81-88 | `IsDuplicatePacket` holds of two times iff they are within 100 ms either way; the relation is symmetric and reflexive |
| ConfigParams.CalculateLatencyMeaning | src/config_params.rs:96-102 | the start plus the latency is the end when the end is later; the latency is 0 iff the end is not later; it never exceeds the end |
| ConfigParams.ShouldProcessPacketUnderflows | src/config_params.rs:91-93 | as written, a clock that steps back (1000 then 500) underflows the `u64` subtraction |
| ConfigParams.ShouldProcessPacketMeaning | src/config_params.rs:91-93 | the corrected check holds iff the current time is at least 50 ms after the last, and agrees with the original wherever that does not underflow |
| ConfigParams.RssiToSignalQualityOverflows | src/config_params.rs:57-69 | as written, the test values -60 and -85 overflow the `u8` arithmetic and -128 dBm is rated 114 |
| ConfigParams.RssiToSignalQualityMonotone | src/config_params.rs:53-69 | the corrected rating lies in 10..100, never falls as the signal strengthens, and is 100 exactly from -31 dBm up |
| ConfigParams.RssiToSignalQualityExample | src/config_params.rs:114-122 | the corrected rating puts -30 above -60 above -85 dBm |
| ConfigParams.RssiToSignalQualityAgrees | src/config_params.rs:57-69 | wherever the original neither overflows nor goes below -90 dBm it equals the corrected rating |
| ConfigParams.CalculateLatencyMs | src/config_params.rs:96-102 | no contract of its own: the saturating difference; `CalculateLatencyMeaning` proves start plus latency is the end when the end is later and 0 otherwise |
| ConfigParams.ShouldProcessPacket | src/config_params.rs:91-93 | no contract of its own: the corrected check (see "## Findings"); `ShouldProcessPacketMeaning` proves it holds iff 50 ms have passed and agrees with the original wherever that does not underflow |
| ConfigParams.RssiToSignalQuality | src/config_params.rs:57-69 | no contract of its own: the corrected rating (see "## Findings"); `RssiToSignalQualityMonotone` proves it lies in 10..100 and never falls as the signal strengthens, `RssiToSignalQualityAgrees` that it equals the original wherever that is defined above -90 dBm |
| BluetoothFeatures.RankInjective | src/bluetooth_features.rs:9-27 | distinct versions have distinct positions in the derived order |
| BluetoothFeatures.FeaturesForVersionMembers | src/bluetooth_features.rs:260-358 | `FeaturesForVersion` of a version holds a feature iff the feature was introduced in it or an earlier version |
| BluetoothFeatures.FeaturesMonotone | src/bluetooth_features.rs:260-358 | a later version keeps every feature of an earlier one |
| BluetoothFeatures.FeaturesOfNewest | src/bluetooth_features.rs:260-358 | `MultipleLE` belongs to no version, and 6.0 has every other feature |
| BluetoothFeatures.SameFeatureSets | src/bluetooth_features.rs:260-358 | 5.4 adds nothing over 5.3, and 1.0b and 1.1 nothing over 1.0 |
| BluetoothFeatures.FeatureCountGrows | src/bluetooth_features.rs:260-358 | the feature count never falls from a version to a later one, and rises when the later one adds a feature |
| BluetoothFeatures.VersionFeatureSetTests | src/bluetooth_features.rs:418-441 | 5.2 has LE Audio, LC3 and 2x speed; 4.0 has BLE but not LE Audio; the count rises from 4.0 to 5.0 to 5.2 |
| BluetoothFeatures.FirstCovering | src/bluetooth_features.rs:367-391 | the search returns the first position from `i` whose version has every discovered feature, or none when no later position does |
| BluetoothFeatures.DetectAsWrittenAlwaysNewest | src/bluetooth_features.rs:364-392 | as written, the newest-first search answers 6.0 for every input without `MultipleLE`, the empty one included, and `None` otherwise |
| BluetoothFeatures.OldestFirstAtRank | src/bluetooth_features.rs:9-27 | the oldest-first list holds each version at its rank |
| BluetoothFeatures.DetectVersionFromFeaturesMinimal | src/bluetooth_features.rs:364-392 | the corrected detection returns a version having every discovered feature that no such version precedes, and `None` iff `MultipleLE` was discovered, as the original does |
| BluetoothFeatures.RankAtPosition | src/bluetooth_features.rs:9-27 | each position of the oldest-first list holds the version of that rank |
| BluetoothFeatures.DetectNoneExactlyWithMultipleLE | src/bluetooth_features.rs:364-392 | the corrected detection is `None` iff `MultipleLE` was discovered |
| BluetoothFeatures.DetectVersionExample | src/bluetooth_features.rs:364-392 | BLE with LE Audio is first supported by 5.2, where the original answers 6.0 |
| BluetoothFeatures.DetectVersionFromServicesPriority | src/bluetooth_features.rs:395-413 | any LE Audio service gives 5.2 whatever else is listed; otherwise 0x181A, 0x180D or 0x180F gives 4.0; otherwise there is no guess |
| AdapterManager.Enable | src/adapter_manager.rs:120-132 | the capabilities with one feature switched on and every other field unchanged |
| AdapterManager.ScoreDecomposition | src/adapter_manager.rs:72-117 | the score is the version plus the weights of the supported features, the roles bonus and the advertising sets |
| AdapterManager.ScoreBounds | src/adapter_manager.rs:72-117 | the flags add at most 105 to the version and twice the advertising sets, so the score is at most 870 and never wraps |
| AdapterManager.FeatureIndex | src/adapter_manager.rs:136-146 | each feature has one position in the feature list |
| AdapterManager.FeatureWeightsEnable | src/adapter_manager.rs:72-117 | switching a feature on changes the remaining weights by that feature's term alone |
| AdapterManager.ScoreEnable | src/adapter_manager.rs:72-132 | switching a feature on adds its weight if it was off and nothing if on, so the score never falls |
| AdapterManager.ScoreExample | src/adapter_manager.rs:337-355 | the basic 4.2 capabilities score 62 and the advanced 5.2 ones 112 |
| AdapterManager.BestIndex | src/adapter_manager.rs:177-179 | `None` iff there are no adapters; otherwise a top-scoring adapter that no later adapter equals or beats |
| AdapterManager.FindIndex | src/adapter_manager.rs:181-184 | the first adapter satisfying the predicate, or none when none does |
| AdapterManager.FindIndexSamePredicate | src/adapter_manager.rs:181-184 | predicates that agree on every adapter find the same one |
| AdapterManager.SelectMeaning | src/adapter_manager.rs:175-187 | each strategy selects: the last of the top scorers, the first with exactly the ID, the first whose address matches ignoring case, or the head; `None` only when nothing fits |
| AdapterManager.SelectByAddressIgnoresCase | src/adapter_manager.rs:182-184 | selecting by address does not depend on the case of the requested address |
| AdapterManager.SelectedMeaning | src/adapter_manager.rs:189-195 | `Selected` gives the stored ID's adapter when one has it; otherwise the first adapter; `None` only for an empty list |
| AdapterManager.SelectBestAdapter | src/adapter_manager.rs:329-331 | `None` iff there are no adapters; otherwise an adapter of the list that no adapter outscores, and the last such on a tie, as `max_by_key` picks |
| AdapterManager.SelectionExample | src/adapter_manager.rs:357-395 | the advanced adapter is best, the basic one is first and is found by its ID, and with no stored ID the selection is the first |
| BluetoothFeatures.DetectVersionFromFeatures | src/bluetooth_features.rs:364-392 | no contract of its own: the corrected oldest-first search (see "## Findings" and "## Left out"); `DetectVersionFromFeaturesMinimal` proves it returns the earliest version having every discovered feature, and `None` iff `MultipleLE` was discovered |
| BluetoothFeatures.DetectVersionFromServices | src/bluetooth_features.rs:395-412 | no contract of its own: `DetectVersionFromServicesPriority` gives the source's priority of LE Audio over the 4.0 services |
| AdapterManager.Score | src/adapter_manager.rs:72-117 | no contract of its own: `ScoreDecomposition` splits it into the source's terms, `ScoreBounds` bounds it at 870, and `ScoreEnable` shows enabling a feature never lowers it |
| AdapterManager.Select | src/adapter_manager.rs:175-186 | no contract of its own: `SelectMeaning` states what each strategy selects |
| L2capAnalyzer.ServiceNameRanges | src/l2cap_analyzer.rs:24-60 | "Dynamic PSM" exactly for 0x1000 and up, "Unknown PSM" exactly for the unnamed fixed values, and reserved is the negation of dynamic |
| L2capAnalyzer.PsmConstantsCollide | src/l2cap_analyzer.rs:310-311 | as written, the AVDTP and AVCTP constants are the same PSM, and the name table of lines 35-36 calls it AVCTP |
| L2capAnalyzer.PsmConstantsNamed | src/l2cap_analyzer.rs:299-311 | with the assigned numbers (AVCTP 0x0017, AVDTP 0x0019) the two constants differ and each is named after its own protocol; SDP, ATT and EATT are named as the tests expect |
| L2capAnalyzer.AddChannelStepValid | src/l2cap_analyzer.rs:154-159 | adding a channel keeps each PSM's usage count equal to its channels and the byte totals equal to the channels' sums |
| L2capAnalyzer.NewProfileValid | src/l2cap_analyzer.rs:140-152 | a new profile satisfies the same invariant |
| L2capAnalyzer.ActiveChannels | src/l2cap_analyzer.rs:161-166 | each connected channel as many times as the profile holds it and no other channel, so every result is connected and there are never more than the channels |
| L2capAnalyzer.ActiveChannelsAppend | src/l2cap_analyzer.rs:161-166 | the active channels of a concatenation are those of each part in turn, so the result keeps the profile's channel order |
| L2capAnalyzer.L2CapDeviceProfile.constructor | src/l2cap_analyzer.rs:140-152 | an empty profile for the address |
| L2capAnalyzer.L2CapDeviceProfile.AddChannel | src/l2cap_analyzer.rs:154-159 | the channel is counted under its PSM, its bytes are added to the totals, and it is appended |
| L2capAnalyzer.DeviceProfileExample | src/l2cap_analyzer.rs:331-352 | after one ATT channel: one channel, 1000 bytes sent, ATT used once, one active channel |
| L2capAnalyzer.L2CapAnalyzer.constructor | src/l2cap_analyzer.rs:188-192 | no devices |
| L2capAnalyzer.L2CapAnalyzer.RegisterDevice | src/l2cap_analyzer.rs:195-199 | a fresh profile with the given name is filed under the address, replacing any earlier one, and no other entry changes |
| L2capAnalyzer.L2CapAnalyzer.AddChannel | src/l2cap_analyzer.rs:202-213 | an unregistered address is the "Device … not registered" error and changes nothing; otherwise that device's profile adds the channel |
| L2capAnalyzer.AnalyzerExample | src/l2cap_analyzer.rs:354-375 | adding a channel to a registered device succeeds, and the device then has one channel and keeps its name |
| L2capAnalyzer.ServiceNameAsWritten | src/l2cap_analyzer.rs:24-49 | no contract of its own: the name table as written, 0x0017 AVDTP and 0x0019 AVCTP; `PsmConstantsCollide` shows both constants then get the AVCTP name |
| L2capAnalyzer.ServiceName | src/l2cap_analyzer.rs:24-49 | no contract of its own: the name table with the assigned numbers (see "## Findings" and "## Left out"); `ServiceNameRanges` gives the dynamic and unknown ranges and `PsmConstantsNamed` the per-protocol names |
| DeviceTracker.WindowPushMeaning | src/device_tracker.rs:48-53 | a window with positive capacity never exceeds it, appends while not full, and drops exactly the oldest sample when full |
| DeviceTracker.WindowPushZeroCapacity | src/device_tracker.rs:48-53 | with capacity 0 the length test never matches after the first push, so the window grows by one each time |
| DeviceTracker.SampleWindow.constructor | src/device_tracker.rs:41-46 | an empty window with the given capacity |
| DeviceTracker.SampleWindow.Push | src/device_tracker.rs:48-53 | the samples become the window step of the old samples |
| DeviceTracker.NewTrackerValid | src/device_tracker.rs:265-290 | a new record (one detection time, no samples, extremes at `i8::MAX`/`i8::MIN`) satisfies the record invariant |
| DeviceTracker.AppendNewKeepsNoDuplicates | src/device_tracker.rs:317-320 | appending an unlisted method keeps the method list duplicate-free |
| DeviceTracker.RecordStepValid | src/device_tracker.rs:305-346 | a detection keeps the record invariant: count matches times, methods distinct and counted, extremes bound the samples |
| DeviceTracker.RecordStepMeaning | src/device_tracker.rs:305-346 | one detection adds one to the count and one time; its method is then listed and a listed method changes neither list nor count; the extremes move only past the new RSSI; a given name replaces the old one; a stored manufacturer ID is never replaced |
| DeviceTracker.ExtremesAreSamples | src/device_tracker.rs:324-327 | after a detection the extremes are samples bounding all the others |
| DeviceTracker.DeviceTracker.CloneOf | src/device_tracker.rs:645 | a copy of a stored record |
| DeviceTracker.DeviceTracker.constructor | src/device_tracker.rs:265-290 | the new record for the address at the given time |
| DeviceTracker.DeviceTracker.RecordDetection | src/device_tracker.rs:305-346 | the record becomes the detection step of the old record |
| DeviceTracker.TrackerExample | src/device_tracker.rs:895-906 | after one detection at -50 dBm by "btleplug": the address kept, count 1, current RSSI -50, method listed |
| DeviceTracker.OldestAmong | src/device_tracker.rs:633-635 | every non-empty set of stored addresses has one with the earliest first detection |
| DeviceTracker.AdmitMeaning | src/device_tracker.rs:629-646 | after admission the address has its old record or a new one, only the evicted device leaves, and every other record is unchanged |
| DeviceTracker.AdmitValid | src/device_tracker.rs:629-646 | admission keeps every record valid and keyed by its own address, within the limit |
| DeviceTracker.AdmitSize | src/device_tracker.rs:633-643 | admission never takes the store past a positive limit |
| DeviceTracker.StoreRecordValid | src/device_tracker.rs:662-672 | storing a detected record back under its address keeps the store valid |
| DeviceTracker.DeviceTrackerManager.constructor | src/device_tracker.rs:597-602 | no devices and the 10000-device limit |
| DeviceTracker.DeviceTrackerManager.WithLimit | src/device_tracker.rs:611-616 | no devices and the given limit |
| DeviceTracker.DeviceTrackerManager.GetOrCreate | src/device_tracker.rs:629-646 | a new address at the limit first evicts a device with the earliest first detection; an unknown address gets a new record; the caller gets a fresh copy of the stored record |
| DeviceTracker.DeviceTrackerManager.RecordDetectionAsWritten | src/device_tracker.rs:662-714 | as written, the store is only admitted to and never updated, and the reported count is the copy's stored count plus one |
| DeviceTracker.DeviceTrackerManager.RecordDetection | src/device_tracker.rs:662-714 | with the record stored back, the address's count rises by one from its previous value (0 when new) and the store keeps the admitted addresses |
| DeviceTracker.DeviceTrackerManager.GetDevice | src/device_tracker.rs:730-733 | present iff the address is stored, and then its record |
| DeviceTracker.ManagerTrackingAsWritten | src/device_tracker.rs:908-922 | as written, after two detections of one address the store holds one device whose count is still 0 |
| DeviceTracker.ManagerTracking | src/device_tracker.rs:908-922 | with the record stored back, one device counted twice, as the test expects |
| Telemetry.LatenciesPositive | src/telemetry.rs:33-39 | every collected latency is positive, at most one per consecutive pair |
| Telemetry.LatenciesOfIncreasing | src/telemetry.rs:33-39 | strictly increasing timestamps give exactly the consecutive differences, one per step |
| Telemetry.LatenciesOfNonIncreasing | src/telemetry.rs:33-39 | timestamps that never move forward give no latencies (zero and negative steps are skipped) |
| Telemetry.SeqMin | src/telemetry.rs:42 | the minimum is an element no larger than any element |
| Telemetry.SeqMax | src/telemetry.rs:43 | the maximum is an element no smaller than any element |
| Telemetry.ConsAscending | src/telemetry.rs:46-47 | an ascending tail stays ascending behind a head no larger than its elements |
| Telemetry.InsertAscendingCorrect | src/telemetry.rs:46-47 | inserting into an ascending sequence keeps it ascending and adds exactly that element |
| Telemetry.SortAscendingCorrect | src/telemetry.rs:46-47 | sorting gives an ascending permutation of the same length |
| Telemetry.SummaryBounds | src/telemetry.rs:41-53 | `Summary`: without latencies minimum, maximum and median are 0; with them the minimum is at most the median, which is at most the maximum, all three observed |
| Telemetry.NewLatencyAnalysis | src/telemetry.rs:29-62 | the loop collects exactly the latency specification, and the minimum, maximum and median are its summary |
| Telemetry.LatencyExample | src/telemetry.rs:331-340 | timestamps 50 ms apart give four latencies of 50, which are also minimum, maximum and median |
| Telemetry.EventFor | src/telemetry.rs:132-167 | an event for the result's packet and device at the given RSSI and time: received iff accepted, duplicate iff a rejection whose reason contains "duplicate", filtered otherwise, with the rejection reason as details |
| Telemetry.DuplicateEventExample | src/telemetry.rs:342-358 | a rejection for "duplicate packet" is logged as a duplicate |
| Telemetry.TelemetryCollector.constructor | src/telemetry.rs:119-121 | no events |
| Telemetry.TelemetryCollector.RecordPacketResult | src/telemetry.rs:132-167 | exactly one event, the one for the result, is appended |
| Telemetry.EventCategorizationExample | src/telemetry.rs:342-358 | one duplicate rejection gives one event, marked a duplicate |
| Telemetry.Latencies | src/telemetry.rs:33-39 | no contract of its own: the positive consecutive differences; `LatenciesPositive`, `LatenciesOfIncreasing` and `LatenciesOfNonIncreasing` state what is kept and what is skipped |
| HtmlReport.ReplaceAppend | src/html_report.rs:428-433 | replacing a character in a concatenation replaces it in each part |
| HtmlReport.ReplaceAbsent | src/html_report.rs:428-433 | replacing a character the text does not hold changes nothing |
| HtmlReport.EscapeOfAmpersand | src/html_report.rs:428-429 | '&' escapes to "&amp;" |
| HtmlReport.EscapeOfLess | src/html_report.rs:428-430 | '<' escapes to "&lt;", whose '&' is not escaped again |
| HtmlReport.EscapeOfGreater | src/html_report.rs:428-431 | '>' escapes to "&gt;" |
| HtmlReport.EscapeOfQuote | src/html_report.rs:428-432 | '"' escapes to "&quot;" |
| HtmlReport.EscapeOfApostrophe | src/html_report.rs:428-433 | '\'' escapes to "&#39;" |
| HtmlReport.EscapeOfPlain | src/html_report.rs:428-433 | any other character is kept |
| HtmlReport.HtmlEscapeOneChar | src/html_report.rs:428-433 | the replacement chain on one character is that character's escape |
| HtmlReport.HtmlEscapeAppend | src/html_report.rs:428-433 | escaping a concatenation escapes each part |
| HtmlReport.HtmlEscapeIsPerChar | src/html_report.rs:428-433 | because '&' is replaced first, the chain escapes every character exactly once |
| HtmlReport.AmpersandLastDoubleEscapes | src/html_report.rs:428-433 | with '&' replaced last an escaped '<' would become "&amp;lt;", which the source's order avoids |
| HtmlReport.EscapedHasNoSpecials | src/html_report.rs:428-433 | escaped text holds no raw '<', '>', '"' or '\'' |
| HtmlReport.UnescapeHtmlEscape | src/html_report.rs:428-433 | decoding the five entities gives back the original text, so escaping loses nothing |
| HtmlReport.SplitDuration | src/html_report.rs:10-14 | minutes and seconds are below 60, milliseconds below 1000, and the parts recombine to the duration |
| HtmlReport.FormatDurationUnit | src/html_report.rs:9-23 | the text ends in 'h' iff there is at least an hour, 'm' iff at least a minute but under an hour, 's' otherwise, and always shows the milliseconds as three digits after a '.' before the unit |
| HtmlReport.DecimalValueOfNatToString | src/html_report.rs:16-21 | a printed number reads back as itself |
| HtmlReport.ZeroPadValue | src/html_report.rs:16-21 | every zero-padded field reads back as its number |
| HtmlReport.ZeroPadThree | src/html_report.rs:16-21 | a number below 1000 pads to exactly three digits |
| HtmlReport.FormatDurationZero | src/html_report.rs:9-23 | 0 ms is "00.000s" |
| HtmlReport.FormatDurationMinutes | src/html_report.rs:9-23 | 61 234 ms is "01:01.234m" |
| HtmlReport.FormatDurationHours | src/html_report.rs:9-23 | 3 723 004 ms is "01:02:03.004h" |
| HtmlReport.HtmlEscape | src/html_report.rs:427-433 | no contract of its own: the five replacements in the source's order; `HtmlEscapeIsPerChar` proves each character is escaped exactly once and `UnescapeHtmlEscape` that escaping loses nothing |
| HtmlReport.FormatDurationHuman | src/html_report.rs:9-23 | no contract of its own: `FormatDurationUnit` gives the unit and millisecond layout, `SplitDuration` the parts, and the examples the three formats |

## Left out

- Input and output are not part of this model:
  - files, databases, sockets, HCI devices and the web server;
  - `persist_to_db`, `persist_all`, `export_frames_json`, `flush`;
  - the `start_*_sniffing` loops and the `discover_services*` calls;
  - the platform `list_adapters*` functions, `set_powered` and the `extract_l2cap_channels` placeholders.
  The pcap exporter's file is modelled as the byte sequence written to it.
- Clocks are inputs. Every `Utc::now` and `SystemTime` value is a parameter, and so are the capture times of frames and packets.
- Locks and concurrency are not modelled. `Arc<Mutex<…>>` becomes a plain object or a map held by the manager.
- Floating-point analytics are not modelled:
  - the average RSSI and latency;
  - the slope, variance and EMA telemetry of `device_tracker.rs` (`compute_slope`, `compute_variance`, `update_telemetry`);
  - `get_signal_quality`, `get_rssi_variance`, `assess_link_health` and `calculate_connection_interval` of `link_layer.rs`;
  - `avg_packet_size` of the pcap exporter;
  - acceptance and duplicate rates.
- Functions that only aggregate or format for output are not modelled:
  - `get_global_stats` of the packet tracker, which sums over a HashMap into a float rate;
  - `analyze_device_latency`, `generate_global_telemetry`, `generate_device_telemetry` and the JSON helpers of `telemetry.rs`;
  - `get_most_used_channel` of `link_layer.rs`, whose tie order is HashMap order.
- Display and logging are not modelled:
  - `Display`/`fmt` implementations, `print_summary`, `print_verbose` and `export_detailed_report`;
  - the device tracker's own `format_duration`, `duration_detected` and `get_all_devices` sort;
  - `get_channel_summary` of the L2CAP profile;
  - the log lines written by every tracker.
  The report's `format_duration_human` is modelled.
- `BluetoothFeatures`: the enum helpers `as_str`, `full_name`, `name`, `description`, `has_feature` and `list_features` are not modelled. They are display strings or a plain membership test on the feature sets.
- HashMap iteration order is a parameter of the AltBeacon scan over manufacturer data and of the eviction tie in the device manager. For `is_duplicate` it is a parameter only of `IsDuplicateAsWritten`; the packet trackers fix it to recency (see the `PacketTracker` lines below).
- Counters the source keeps in `u64` or `usize` (frame, packet, byte and detection counts) are unbounded in the model. Their wrap-around after 2^64 steps is not modelled. The same holds for the per-channel packet counts of `LinkLayer.PacketStatistics`, which the source keeps as `u32` (`channel_distribution`) and which would wrap after 2^32 packets on one channel.
- Strings are ASCII `seq<char>`. `to_uppercase`, `to_lowercase` and byte lengths agree with Rust only on ASCII text. Names decoded from UTF-8 are sequences of code points.
- The company-identifier table is a function parameter (`lookup_company_id` lives in a data file that is not part of this model).
- BleUuids.Known128BitServiceIgnoresCase: the 128-bit service table is restated entry by entry as a `match` on the upper-cased text, as `get_known_128bit_service` has it. About the table, only that the lookup ignores case is proved; no lemma covers individual entries.
- FrontendDecoder: tokens such as "-1", which `parseInt` reads as negative numbers, are left out. They can move the JavaScript cursor backwards, and the loop then need not terminate. Every token is modelled as a non-negative number or NaN. `parseInt` returns a JavaScript double, so a token of more than 13 hex digits loses precision there; the model reads every token as an exact, unbounded integer.
- HciSnifferExample.ExtendedReportsStep: the extended report's event type is mapped with `event_type & 0x0F` onto the legacy kinds exactly as written. Its fidelity to the Core bit field is not claimed.
- AdapterManager.ScoreDecomposition: `bt_version` is a byte, as the struct declares. The module's tests assign the `BluetoothVersion` enum to it and would not compile, so the examples use the bytes 42 and 52.
- DeviceTracker.DeviceTracker.RecordDetection: the fields it sets directly are modelled. Those are the detection count and times, the method list, the RSSI extremes, the name, and the manufacturer ID and name. The `update_telemetry` call it makes is floating point and is not part of this model; the sample window is modelled on its own (`SampleWindow.Push`).
- LinkLayer.PacketStatistics.AddPacket: the per-channel counts and the 1000-sample RSSI window are modelled. The averages derived from them are not.
- The model's main decoders and filters implement the corrected behaviour of each row of "## Findings". The code as written is modelled beside them, under the names in that table. The members below therefore promise less than, or differ from, the source as written:
- FrontendDecoder.ReadStructure: the loop turn stops when `i + length >= bytes.length`. frontend/app.js:248 stops only on `>`. The as-written walk is `ScanAsWrittenFrom`.
- FrontendDecoder.ScanStructures: the index loop implements the corrected walk. A structure missing its last byte ends the walk, where app.js keeps it with clipped data. `ScanAsWrittenExtendsScan` bounds the difference at one trailing structure.
- FrontendDecoder.ParseAdvertisingData: the decoder runs the corrected walk, so "02 01" yields no structure, where app.js yields a Flags structure with empty data (`TruncatedStructureAccepted`).
- RawSniffer.ParseLeAdvertisingReport: the frame type follows the Core numbering (0x02 scannable, 0x03 non-connectable). src/raw_sniffer.rs:338-339 reads them the other way round; that mapping is `ReportFrameTypeAsWritten`.
- HciSnifferExample.ReadReport: the legacy report's frame type follows the Core numbering. src/hci_sniffer_example.rs:148-149 swap 0x02 and 0x03; that mapping is `LegacyFrameTypeAsWritten`.
- HciSnifferExample.ParseLeAdvertisingReport: its frames carry the Core-numbered frame type, not the swapped one of src/hci_sniffer_example.rs:148-149.
- HciSnifferExample.FirstReport: states the Core-numbered frame type of the event type, not the swapped one of src/hci_sniffer_example.rs:148-149.
- HciSnifferExample.ParseLeExtendedAdvertisingReport: each report is read only when all 25 header bytes are there. The source checks 15 (src/hci_sniffer_example.rs:182) and panics when only those are present. `ParseLeExtendedAdvertisingReportAsWritten` models the code as written, panic included.
- HciSnifferExample.ExtendedReportsEnd: states the corrected `offset + 25` stop rule, not the source's `offset + 15` guard.
- MacAddressHandler.MacAddressFilter.AddWhitelist: stores the normalised key of the parsed address. src/mac_address_handler.rs:163 stores `mac.to_uppercase().replace(":", "")` (`ListKeyAsWritten`), which keeps any dashes.
- MacAddressHandler.MacAddressFilter.AddBlacklist: stores the normalised key of the parsed address, not the dash-keeping text of src/mac_address_handler.rs:170. So after adding "AA-BB-CC-DD-EE-FF" the model refuses that address, while the source still admits it (`DashedListKeyNeverMatches`).
- PacketTracker.DeviceStepMeaning: the duplicate test compares with the last accepted packet. src/packet_tracker.rs:62-78 compares with the last entry of a HashMap iteration. The two agree whenever that iteration ends with the last accepted packet (`IsDuplicateIsAsWrittenForRecencyOrder`). Other orders are modelled only by `IsDuplicateAsWritten`.
- PacketTracker.DevicePacketTracker.AddPacket: takes the device step with the recency duplicate test above, not `is_duplicate` over an arbitrary HashMap order.
- PacketTracker.GlobalPacketTracker.AddPacket: its device step uses the recency duplicate test above.
- RawSniffer.RawPacketSniffer.AddFrame: requires a positive buffer capacity. With capacity 0, src/raw_sniffer.rs:225-227 calls `remove(0)` on an empty buffer and panics; that panic is not modelled.
- L2capAnalyzer.ServiceName: names 0x0017 AVCTP and 0x0019 AVDTP, as the Bluetooth assigned numbers and the module's own constants have them. src/l2cap_analyzer.rs:35-36 name them the other way round; that table is `ServiceNameAsWritten`.
- DeviceTracker.DeviceTrackerManager.RecordDetection: stores the updated record back under its address. In the source, `get_or_create` (src/device_tracker.rs:645) hands out a clone, so the stored tracker is never updated; that behaviour is `RecordDetectionAsWritten`.
- BleUuids.Extract16Bit: reads the 16-bit value from bytes 2..3, big-endian, where the adopted-UUID layout puts it. src/ble_uuids.rs:287-293 read bytes 0..1 little-endian and return 0 for every adopted UUID; that is `Extract16BitAsWritten`. It also returns `None` when bytes 0..1 are not zero, so a UUID of the 32-bit-alias form `xxxxyyyy-0000-1000-8000-00805F9B34FB` with `xxxx` non-zero is refused, where the source returns `Some` for every UUID that `is_adopted_16bit_uuid` accepts; refusing it is what lets `Extract16BitRoundTrip` rebuild the UUID from the value.
- BluetoothFeatures.DetectVersionFromFeatures: searches from the oldest version and returns the earliest one that has every discovered feature. src/bluetooth_features.rs:364-392 search from the newest version, so they return 6.0 for every input without `MultipleLE` (`DetectVersionFromFeaturesAsWritten`, `DetectAsWrittenAlwaysNewest`).
- ConfigParams.RssiToSignalQuality: takes each band's offset as a magnitude and clamps the weakest band at 10. As written, src/config_params.rs:57-69 cast a negative offset to `u8`, so the subtraction overflows for every value in -90..-32 dBm except -51 and -71, whose offsets halve to 0, and a signal below -90 dBm can rate up to 127. That version is `RssiToSignalQualityAsWritten`, which has no value where the source panics.
- ConfigParams.ShouldProcessPacket: uses a saturating difference, so a current time before the last one gives `false`. src/config_params.rs:91-93 subtract in `u64`, which underflows there; that version is `ShouldProcessPacketAsWritten`, which has no value where the source panics.

## Findings

| source | as written | input that shows it | evidently intended | confidence | as-written member | corrected member |
|---|---|---|---|---|---|---|
| frontend/app.js:248 | the scan stops only when `i + length > bytes.length`, so a structure missing its last byte is accepted and its data clipped | "02 01" yields a Flags structure with empty data, where the Rust parsers find nothing; "01" throws a TypeError | stop when `i + length >= bytes.length`, so a structure needs all of its bytes | not executed | FrontendDecoder.TruncatedStructureAccepted | FrontendDecoder.ScanMatchesWalk |
| src/hci_sniffer_example.rs:182-199 | the extended report loop checks `offset + 15 > data.len()` but reads up to `offset + 24` | one report in 16 bytes: the header read reaches index 25 and panics | check the whole 25-byte header before reading it | not executed | HciSnifferExample.ExtendedGuardTooWeak | HciSnifferExample.ParseLeExtendedAdvertisingReport |
| src/config_params.rs:57-69 | each band subtracts a negative `as u8` value from a `u8` constant, which overflows | -60 dBm and -85 dBm overflow (a debug build panics); -128 dBm gives 114 | a rating from 10 to 100 that grows with the signal | not executed | ConfigParams.RssiToSignalQualityOverflows | ConfigParams.RssiToSignalQualityMonotone |
| src/config_params.rs:91-93 | `current_time_ms - last_packet_time_ms` on `u64` | last 1000 ms, current 500 ms: the subtraction underflows | process a packet once 50 ms have passed, and not when the clock steps back | not executed | ConfigParams.ShouldProcessPacketUnderflows | ConfigParams.ShouldProcessPacketMeaning |
| src/hci_sniffer_example.rs:145-152 | the report decoders (also src/raw_sniffer.rs:335-341) read event type 0x02 as ADV_NONCONN_IND and 0x03 as ADV_SCAN_IND, while the pcap exporter (src/pcap_exporter.rs:249-256) writes ADV_SCAN_IND as 0x02 and ADV_NONCONN_IND as 0x03 | a scannable frame exported to pcap and read back comes back non-connectable | the Core numbering (Vol 4 Part E section 7.7.65.2) in the decoders: 0x02 ADV_SCAN_IND, 0x03 ADV_NONCONN_IND | not executed | PcapExporter.ExportThenDecodeSwaps | PcapExporter.ExportThenDecodeRoundTrip |
| src/packet_tracker.rs:62-78 | `is_duplicate` compares the RSSI with the last entry of a HashMap iteration, which is an arbitrary packet | after packets 1 (-60 dBm) and 2 (-70 dBm), a -65 dBm packet 50 ms later is a duplicate under one iteration order and accepted under the other | compare with the last accepted packet | not executed | PacketTracker.IsDuplicateDependsOnOrder | PacketTracker.IsDuplicateIsAsWrittenForRecencyOrder |
| src/device_tracker.rs:645 | `get_or_create` returns a new `Arc<Mutex<…>>` around a clone, so `record_detection` (lines 662-714) updates the copy and not the stored tracker | two detections of one address: the stored detection count stays 0 where the module's test expects 2 | update the stored tracker | not executed | DeviceTracker.ManagerTrackingAsWritten | DeviceTracker.ManagerTracking |
| src/bluetooth_features.rs:364-392 | the version search runs newest first and returns the first version whose features cover the input; the feature sets only grow, so that is always 6.0 | BLE plus LE Audio gives 6.0 rather than 5.2, and the empty input gives 6.0 | the oldest version whose features cover the input | not executed | BluetoothFeatures.DetectAsWrittenAlwaysNewest | BluetoothFeatures.DetectVersionFromFeaturesMinimal |
| src/mac_address_handler.rs:157-171 | list entries are stored as `mac.to_uppercase().replace(":", "")`, so an address given with '-' keeps its dashes | `add_blacklist("AA-BB-CC-DD-EE-FF")` succeeds, but that address is still admitted | store the normalised 12-digit key whatever the separator | not executed | MacAddressHandler.DashedListKeyNeverMatches | MacAddressHandler.BlacklistedAddressRefused |
| src/ble_uuids.rs:287-293 | the 16-bit value is taken little-endian from bytes 0..1, which on the big-endian adopted base are the leading zeros | 0000180D-0000-1000-8000-00805F9B34FB gives 0x0000 | bytes 2..3 read big-endian, the inverse of building the adopted UUID | not executed | BleUuids.Extract16BitAsWrittenLosesUuid | BleUuids.Extract16BitRoundTrip |
| src/l2cap_analyzer.rs:310-311 | `psm::AVDTP` and `psm::AVCTP` are both 0x0019, and `service_name` (lines 35-36) names 0x0017 AVDTP and 0x0019 AVCTP | `service_name(psm::AVDTP)` gives the AVCTP name | AVCTP = 0x0017 and AVDTP = 0x0019, as the assigned numbers have them, with matching names | not executed | L2capAnalyzer.PsmConstantsCollide | L2capAnalyzer.PsmConstantsNamed |
