// The GATT client's data model: reads and writes of a characteristic by
// UUID and the discovery summary (src/gatt_client.rs).

module GattClient {
  import opened Common
  import opened GattProperties

  datatype GattDescriptor = GattDescriptor(uuid16: Option<u16>, uuid128: Option<string>, name: Option<string>, value: Option<bytes>)

  datatype GattCharacteristic = GattCharacteristic(
    uuid16: Option<u16>,
    uuid128: Option<string>,
    name: Option<string>,
    properties: CharacteristicProperties,
    value: Option<bytes>,
    descriptors: seq<GattDescriptor>)

  datatype GattService = GattService(
    uuid16: Option<u16>,
    uuid128: Option<string>,
    name: Option<string>,
    isPrimary: bool,
    characteristics: seq<GattCharacteristic>)

  datatype GattSummary = GattSummary(
    macAddress: string,
    serviceCount: nat,
    characteristicCount: nat,
    descriptorCount: nat,
    readableCharacteristics: nat,
    writableCharacteristics: nat,
    notifyCharacteristics: nat,
    indicateCharacteristics: nat)

  // -----------------------------------------------------------------------
  // Finding a characteristic

  predicate ServiceMatches(s: GattService, serviceUuid: string)
  {
    s.uuid128 == Some(serviceUuid)
  }

  predicate CharMatches(c: GattCharacteristic, charUuid: string)
  {
    c.uuid128 == Some(charUuid)
  }

  /// The matching characteristics of a list, in order.
  function MatchingChars(cs: seq<GattCharacteristic>, charUuid: string): seq<GattCharacteristic>
  {
    if cs == [] then []
    else (if CharMatches(cs[0], charUuid) then [cs[0]] else []) + MatchingChars(cs[1..], charUuid)
  }

  /// The characteristics the nested search visits and finds matching, in
  /// visiting order.
  function Candidates(ss: seq<GattService>, serviceUuid: string, charUuid: string): seq<GattCharacteristic>
  {
    if ss == [] then []
    else
      (if ServiceMatches(ss[0], serviceUuid) then MatchingChars(ss[0].characteristics, charUuid) else []) +
      Candidates(ss[1..], serviceUuid, charUuid)
  }

  const NOT_FOUND := "Service or characteristic not found"
  const NOT_READABLE := "Characteristic not readable"
  const NOT_WRITABLE := "Characteristic not writable"

  /// The outcome of a read over the candidates: the first one that is not
  /// readable fails, the first readable one with a value answers, and
  /// readable ones without a value are passed over.
  function ReadOutcome(cands: seq<GattCharacteristic>): Result<bytes>
  {
    if cands == [] then Err(NOT_FOUND)
    else if !cands[0].properties.read then Err(NOT_READABLE)
    else if cands[0].value.Some? then Ok(cands[0].value.value)
    else ReadOutcome(cands[1..])
  }

  lemma ReadOutcomeAppend(a: seq<GattCharacteristic>, b: seq<GattCharacteristic>)
    requires forall c :: c in a ==> c.properties.read && c.value.None?
    ensures ReadOutcome(a + b) == ReadOutcome(b)
  {
    if a != [] {
      assert (a + b)[0] == a[0] && a[0] in a;
      assert (a + b)[1..] == a[1..] + b;
      forall c | c in a[1..] ensures c in a {
      }
      ReadOutcomeAppend(a[1..], b);
      assert ReadOutcome(a + b) == ReadOutcome((a + b)[1..]);
    } else {
      assert a + b == b;
    }
  }

  lemma CandidatesCons(ss: seq<GattService>, serviceUuid: string, charUuid: string)
    requires ss != []
    ensures Candidates(ss, serviceUuid, charUuid) ==
      (if ServiceMatches(ss[0], serviceUuid) then MatchingChars(ss[0].characteristics, charUuid) else []) +
      Candidates(ss[1..], serviceUuid, charUuid)
  {
  }

  lemma MatchingCharsStep(cs: seq<GattCharacteristic>, j: nat, charUuid: string)
    requires j < |cs|
    ensures MatchingChars(cs[j..], charUuid) ==
      (if CharMatches(cs[j], charUuid) then [cs[j]] else []) + MatchingChars(cs[j + 1..], charUuid)
  {
    assert cs[j..][1..] == cs[j + 1..];
  }

  /// A matching characteristic decides the read unless it is readable
  /// without a value.
  lemma ReadOutcomeCons(c: GattCharacteristic, more: seq<GattCharacteristic>, rest: seq<GattCharacteristic>)
    ensures ReadOutcome([c] + more + rest) ==
      if !c.properties.read then Err(NOT_READABLE)
      else if c.value.Some? then Ok(c.value.value)
      else ReadOutcome(more + rest)
  {
    assert ([c] + more + rest)[1..] == more + rest;
  }

  /// What a read returns: Ok only with the value of a matching readable
  /// characteristic; "not readable" only when a matching one lacks the
  /// read flag; "not found" when no candidate decides.
  lemma {:induction false} ReadOutcomeMeaning(cands: seq<GattCharacteristic>)
    ensures ReadOutcome(cands).Ok? ==>
      exists c :: c in cands && c.properties.read && c.value == Some(ReadOutcome(cands).value)
    ensures ReadOutcome(cands) == Err(NOT_READABLE) ==> exists c :: c in cands && !c.properties.read
    ensures (forall c :: c in cands ==> c.properties.read && c.value.None?) ==> ReadOutcome(cands) == Err(NOT_FOUND)
    ensures cands == [] ==> ReadOutcome(cands) == Err(NOT_FOUND)
  {
    if cands != [] && cands[0].properties.read && cands[0].value.None? {
      ReadOutcomeMeaning(cands[1..]);
    }
  }

  // -----------------------------------------------------------------------
  // The client

  class Client {
    var macAddress: string
    var services: seq<GattService>

    /// `GattClient::new`
    constructor(mac: string)
      ensures macAddress == mac && services == []
    {
      macAddress := mac;
      services := [];
    }

    /// `read_characteristic`: scan the services with the given 128-bit
    /// UUID and, in each, the characteristics with the given UUID.
    method ReadCharacteristic(serviceUuid: string, charUuid: string) returns (r: Result<bytes>)
      ensures r == ReadOutcome(Candidates(services, serviceUuid, charUuid))
    {
      var i := 0;
      while i < |services|
        invariant 0 <= i <= |services|
        invariant ReadOutcome(Candidates(services, serviceUuid, charUuid)) ==
                  ReadOutcome(Candidates(services[i..], serviceUuid, charUuid))
      {
        var service := services[i];
        CandidatesCons(services[i..], serviceUuid, charUuid);
        assert services[i..][1..] == services[i + 1..];
        var rest := Candidates(services[i + 1..], serviceUuid, charUuid);
        if ServiceMatches(service, serviceUuid) {
          var cs := service.characteristics;
          assert cs[0..] == cs;
          var j := 0;
          while j < |cs|
            invariant 0 <= j <= |cs|
            invariant ReadOutcome(Candidates(services, serviceUuid, charUuid)) ==
                      ReadOutcome(MatchingChars(cs[j..], charUuid) + rest)
          {
            var c := cs[j];
            MatchingCharsStep(cs, j, charUuid);
            if !CharMatches(c, charUuid) {
              assert MatchingChars(cs[j..], charUuid) == MatchingChars(cs[j + 1..], charUuid);
            } else {
              ReadOutcomeCons(c, MatchingChars(cs[j + 1..], charUuid), rest);
              if !c.properties.read {
                return Err(NOT_READABLE);
              }
              if c.value.Some? {
                return Ok(c.value.value);
              }
            }
            j := j + 1;
          }
          assert MatchingChars(cs[j..], charUuid) + rest == rest;
        } else {
          assert Candidates(services[i..], serviceUuid, charUuid) == [] + rest == rest;
        }
        i := i + 1;
      }
      return Err(NOT_FOUND);
    }

    /// `write_characteristic`: the first matching characteristic takes the
    /// value if it has either write flag; nothing else changes.
    method WriteCharacteristic(serviceUuid: string, charUuid: string, value: bytes) returns (r: Result<()>)
      modifies this
      ensures macAddress == old(macAddress)
      ensures FirstMatch(old(services), serviceUuid, charUuid).None? ==>
        r == Err(NOT_FOUND) && services == old(services)
      ensures FirstMatch(old(services), serviceUuid, charUuid).Some? ==>
        var (i, j) := FirstMatch(old(services), serviceUuid, charUuid).value;
        if old(services)[i].characteristics[j].properties.Writable() then
          r == Ok(()) && services == SetValue(old(services), i, j, value)
        else
          r == Err(NOT_WRITABLE) && services == old(services)
    {
      var i := 0;
      while i < |services|
        invariant 0 <= i <= |services|
        invariant services == old(services) && macAddress == old(macAddress)
        invariant FirstMatch(services, serviceUuid, charUuid) == FirstMatchFrom(services, i, serviceUuid, charUuid)
      {
        var service := services[i];
        if ServiceMatches(service, serviceUuid) {
          var cs := service.characteristics;
          var j := 0;
          while j < |cs|
            invariant 0 <= j <= |cs|
            invariant FirstChar(cs, 0, charUuid) == FirstChar(cs, j, charUuid)
          {
            if CharMatches(cs[j], charUuid) {
              assert FirstMatchFrom(services, i, serviceUuid, charUuid) == Some((i, j));
              if !cs[j].properties.Writable() {
                return Err(NOT_WRITABLE);
              }
              services := SetValue(services, i, j, value);
              return Ok(());
            }
            j := j + 1;
          }
          assert FirstChar(cs, 0, charUuid).None?;
        }
        i := i + 1;
      }
      return Err(NOT_FOUND);
    }

    /// `get_summary`: one pass over every characteristic of every service.
    method GetSummary() returns (summary: GattSummary)
      ensures summary == SummaryOf(macAddress, services)
    {
      summary := GattSummary(macAddress, |services|, 0, 0, 0, 0, 0, 0);
      var i := 0;
      while i < |services|
        invariant 0 <= i <= |services|
        invariant summary == Tally(GattSummary(macAddress, |services|, 0, 0, 0, 0, 0, 0), AllChars(services[..i]))
      {
        AllCharsSnoc(services[..i], services[i]);
        assert services[..i + 1] == services[..i] + [services[i]];
        TallyAppend(GattSummary(macAddress, |services|, 0, 0, 0, 0, 0, 0), AllChars(services[..i]), services[i].characteristics);
        summary := CountCharacteristics(summary, services[i].characteristics);
        i := i + 1;
      }
      assert services[..i] == services;
    }
  }

  /// The inner loop of `get_summary`: the counters bumped for each
  /// characteristic of one service.
  method CountCharacteristics(start: GattSummary, cs: seq<GattCharacteristic>) returns (summary: GattSummary)
    ensures summary == Tally(start, cs)
  {
    summary := start;
    var j := 0;
    while j < |cs|
      invariant 0 <= j <= |cs|
      invariant summary == Tally(start, cs[..j])
    {
      var c := cs[j];
      assert cs[..j + 1] == cs[..j] + [c];
      TallySnoc(start, cs[..j], c);
      ghost var prev := summary;
      summary := summary.(characteristicCount := summary.characteristicCount + 1);
      summary := summary.(descriptorCount := summary.descriptorCount + |c.descriptors|);
      if c.properties.read {
        summary := summary.(readableCharacteristics := summary.readableCharacteristics + 1);
      }
      if c.properties.write || c.properties.writeWithoutResponse {
        summary := summary.(writableCharacteristics := summary.writableCharacteristics + 1);
      }
      if c.properties.notify {
        summary := summary.(notifyCharacteristics := summary.notifyCharacteristics + 1);
      }
      if c.properties.indicate {
        summary := summary.(indicateCharacteristics := summary.indicateCharacteristics + 1);
      }
      assert summary == Visit(prev, c);
      j := j + 1;
    }
    assert cs[..j] == cs;
  }

  /// The first matching characteristic at index `j` or later.
  function FirstChar(cs: seq<GattCharacteristic>, j: nat, charUuid: string): (r: Option<nat>)
    ensures r.Some? ==> j <= r.value < |cs| && CharMatches(cs[r.value], charUuid)
    decreases |cs| - j
  {
    if j >= |cs| then None
    else if CharMatches(cs[j], charUuid) then Some(j)
    else FirstChar(cs, j + 1, charUuid)
  }

  /// The first (service, characteristic) pair that matches, from service
  /// `i` on, in the order the nested loops visit them.
  function FirstMatchFrom(ss: seq<GattService>, i: nat, serviceUuid: string, charUuid: string): (r: Option<(nat, nat)>)
    ensures r.Some? ==> i <= r.value.0 < |ss| && r.value.1 < |ss[r.value.0].characteristics|
    decreases |ss| - i
  {
    if i >= |ss| then None
    else if ServiceMatches(ss[i], serviceUuid) && FirstChar(ss[i].characteristics, 0, charUuid).Some? then
      Some((i, FirstChar(ss[i].characteristics, 0, charUuid).value))
    else FirstMatchFrom(ss, i + 1, serviceUuid, charUuid)
  }

  function FirstMatch(ss: seq<GattService>, serviceUuid: string, charUuid: string): Option<(nat, nat)>
  {
    FirstMatchFrom(ss, 0, serviceUuid, charUuid)
  }

  /// The services with the value of characteristic `j` of service `i` set.
  function SetValue(ss: seq<GattService>, i: nat, j: nat, value: bytes): seq<GattService>
    requires i < |ss| && j < |ss[i].characteristics|
  {
    var cs := ss[i].characteristics;
    ss[i := ss[i].(characteristics := cs[j := cs[j].(value := Some(value))])]
  }

  lemma {:induction false} FirstCharFacts(cs: seq<GattCharacteristic>, j: nat, charUuid: string)
    ensures FirstChar(cs, j, charUuid).Some? ==>
      var k := FirstChar(cs, j, charUuid).value;
      j <= k < |cs| && CharMatches(cs[k], charUuid) && forall m :: j <= m < k ==> !CharMatches(cs[m], charUuid)
    ensures FirstChar(cs, j, charUuid).None? ==> forall m :: j <= m < |cs| ==> !CharMatches(cs[m], charUuid)
    decreases |cs| - j
  {
    if j < |cs| && !CharMatches(cs[j], charUuid) {
      FirstCharFacts(cs, j + 1, charUuid);
    }
  }

  /// The pair found is a match, and every pair visited before it is not.
  lemma {:induction false} FirstMatchFacts(ss: seq<GattService>, i: nat, serviceUuid: string, charUuid: string)
    ensures FirstMatchFrom(ss, i, serviceUuid, charUuid).Some? ==>
      var (a, b) := FirstMatchFrom(ss, i, serviceUuid, charUuid).value;
      i <= a < |ss| && b < |ss[a].characteristics| &&
      ServiceMatches(ss[a], serviceUuid) && CharMatches(ss[a].characteristics[b], charUuid) &&
      (forall m :: i <= m < a && ServiceMatches(ss[m], serviceUuid) ==>
         forall n :: 0 <= n < |ss[m].characteristics| ==> !CharMatches(ss[m].characteristics[n], charUuid)) &&
      (forall n :: 0 <= n < b ==> !CharMatches(ss[a].characteristics[n], charUuid))
    ensures FirstMatchFrom(ss, i, serviceUuid, charUuid).None? ==>
      forall m :: i <= m < |ss| && ServiceMatches(ss[m], serviceUuid) ==>
        forall n :: 0 <= n < |ss[m].characteristics| ==> !CharMatches(ss[m].characteristics[n], charUuid)
    decreases |ss| - i
  {
    if i < |ss| {
      FirstCharFacts(ss[i].characteristics, 0, charUuid);
      FirstMatchFacts(ss, i + 1, serviceUuid, charUuid);
    }
  }

  /// A successful write changes the value of the one characteristic it
  /// found and nothing else.
  lemma SetValueChangesOnlyTarget(ss: seq<GattService>, i: nat, j: nat, value: bytes)
    requires i < |ss| && j < |ss[i].characteristics|
    ensures var t := SetValue(ss, i, j, value);
      |t| == |ss| &&
      (forall m :: 0 <= m < |ss| && m != i ==> t[m] == ss[m]) &&
      |t[i].characteristics| == |ss[i].characteristics| &&
      (forall n :: 0 <= n < |ss[i].characteristics| && n != j ==> t[i].characteristics[n] == ss[i].characteristics[n]) &&
      t[i].characteristics[j] == ss[i].characteristics[j].(value := Some(value)) &&
      t[i].characteristics[j].value == Some(value)
  {
  }

  /// Once a value is written, reading the same pair of UUIDs gives it back
  /// when the characteristic is readable.
  lemma WriteThenRead(ss: seq<GattService>, serviceUuid: string, charUuid: string, value: bytes)
    requires FirstMatch(ss, serviceUuid, charUuid).Some?
    ensures var (i, j) := FirstMatch(ss, serviceUuid, charUuid).value;
      i < |ss| && j < |ss[i].characteristics| &&
      (ss[i].characteristics[j].properties.read ==>
         ReadOutcome(Candidates(SetValue(ss, i, j, value), serviceUuid, charUuid)) == Ok(value))
  {
    var (i, j) := FirstMatch(ss, serviceUuid, charUuid).value;
    FirstMatchFacts(ss, 0, serviceUuid, charUuid);
    var t := SetValue(ss, i, j, value);
    var c := t[i].characteristics[j];
    if c.properties.read {
      CandidatesFront(t, i, j, serviceUuid, charUuid);
    }
  }

  /// When the first match is at (i, j), the candidates start with it.
  lemma {:induction false} CandidatesFront(ss: seq<GattService>, i: nat, j: nat, serviceUuid: string, charUuid: string)
    requires i < |ss| && j < |ss[i].characteristics|
    requires ServiceMatches(ss[i], serviceUuid) && CharMatches(ss[i].characteristics[j], charUuid)
    requires forall m :: 0 <= m < i && ServiceMatches(ss[m], serviceUuid) ==>
      forall n :: 0 <= n < |ss[m].characteristics| ==> !CharMatches(ss[m].characteristics[n], charUuid)
    requires forall n :: 0 <= n < j ==> !CharMatches(ss[i].characteristics[n], charUuid)
    ensures Candidates(ss, serviceUuid, charUuid) != [] && Candidates(ss, serviceUuid, charUuid)[0] == ss[i].characteristics[j]
    decreases i
  {
    var cs0 := ss[0].characteristics;
    if i == 0 {
      MatchingCharsFront(cs0, j, charUuid);
    } else {
      if ServiceMatches(ss[0], serviceUuid) {
        NoMatchingChars(cs0, charUuid);
      }
      CandidatesFront(ss[1..], i - 1, j, serviceUuid, charUuid);
    }
  }

  lemma {:induction false} NoMatchingChars(cs: seq<GattCharacteristic>, charUuid: string)
    requires forall n :: 0 <= n < |cs| ==> !CharMatches(cs[n], charUuid)
    ensures MatchingChars(cs, charUuid) == []
  {
    if cs != [] {
      NoMatchingChars(cs[1..], charUuid);
    }
  }

  lemma {:induction false} MatchingCharsFront(cs: seq<GattCharacteristic>, j: nat, charUuid: string)
    requires j < |cs| && CharMatches(cs[j], charUuid)
    requires forall n :: 0 <= n < j ==> !CharMatches(cs[n], charUuid)
    ensures MatchingChars(cs, charUuid) != [] && MatchingChars(cs, charUuid)[0] == cs[j]
  {
    if j > 0 {
      MatchingCharsFront(cs[1..], j - 1, charUuid);
    }
  }

  // -----------------------------------------------------------------------
  // The summary

  /// Every characteristic of every service, in order.
  function AllChars(ss: seq<GattService>): seq<GattCharacteristic>
  {
    if ss == [] then [] else AllChars(ss[..|ss| - 1]) + ss[|ss| - 1].characteristics
  }

  lemma AllCharsSnoc(ss: seq<GattService>, s: GattService)
    ensures AllChars(ss + [s]) == AllChars(ss) + s.characteristics
  {
    assert (ss + [s])[..|ss|] == ss;
  }

  /// The counters after visiting one characteristic.
  function Visit(t: GattSummary, c: GattCharacteristic): GattSummary
  {
    t.(characteristicCount := t.characteristicCount + 1,
       descriptorCount := t.descriptorCount + |c.descriptors|,
       readableCharacteristics := t.readableCharacteristics + (if c.properties.read then 1 else 0),
       writableCharacteristics := t.writableCharacteristics + (if c.properties.Writable() then 1 else 0),
       notifyCharacteristics := t.notifyCharacteristics + (if c.properties.notify then 1 else 0),
       indicateCharacteristics := t.indicateCharacteristics + (if c.properties.indicate then 1 else 0))
  }

  /// The counters after visiting `cs`, starting from `s`.
  function Tally(s: GattSummary, cs: seq<GattCharacteristic>): GattSummary
  {
    if cs == [] then s else Visit(Tally(s, cs[..|cs| - 1]), cs[|cs| - 1])
  }

  lemma TallySnoc(s: GattSummary, cs: seq<GattCharacteristic>, c: GattCharacteristic)
    ensures Tally(s, cs + [c]) == Visit(Tally(s, cs), c)
  {
    assert (cs + [c])[..|cs|] == cs;
  }

  lemma {:induction false} TallyAppend(s: GattSummary, a: seq<GattCharacteristic>, b: seq<GattCharacteristic>)
    ensures Tally(s, a + b) == Tally(Tally(s, a), b)
    decreases |b|
  {
    if b == [] {
      assert a + b == a;
    } else {
      var b' := b[..|b| - 1];
      assert (a + b)[..|a + b| - 1] == a + b';
      TallyAppend(s, a, b');
    }
  }

  function SummaryOf(mac: string, ss: seq<GattService>): GattSummary
  {
    Tally(GattSummary(mac, |ss|, 0, 0, 0, 0, 0, 0), AllChars(ss))
  }

  /// How many characteristics satisfy `p`.
  function CountWhere(cs: seq<GattCharacteristic>, p: GattCharacteristic -> bool): nat
  {
    if cs == [] then 0 else CountWhere(cs[..|cs| - 1], p) + (if p(cs[|cs| - 1]) then 1 else 0)
  }

  /// The summary counts every characteristic of every service once, and
  /// each class counter is the number of characteristics with that flag
  /// (writable: write or write-without-response).
  lemma {:induction false} TallyCounts(s: GattSummary, cs: seq<GattCharacteristic>)
    ensures var t := Tally(s, cs);
      t.macAddress == s.macAddress && t.serviceCount == s.serviceCount &&
      t.characteristicCount == s.characteristicCount + |cs| &&
      t.readableCharacteristics == s.readableCharacteristics + CountWhere(cs, (c: GattCharacteristic) => c.properties.read) &&
      t.writableCharacteristics == s.writableCharacteristics + CountWhere(cs, (c: GattCharacteristic) => c.properties.write || c.properties.writeWithoutResponse) &&
      t.notifyCharacteristics == s.notifyCharacteristics + CountWhere(cs, (c: GattCharacteristic) => c.properties.notify) &&
      t.indicateCharacteristics == s.indicateCharacteristics + CountWhere(cs, (c: GattCharacteristic) => c.properties.indicate)
  {
    if cs != [] {
      TallyCounts(s, cs[..|cs| - 1]);
    }
  }

  lemma {:induction false} CountWhereBound(cs: seq<GattCharacteristic>, p: GattCharacteristic -> bool)
    ensures CountWhere(cs, p) <= |cs|
  {
    if cs != [] {
      CountWhereBound(cs[..|cs| - 1], p);
    }
  }

  /// The characteristic count is the total over all services, and no
  /// class counter exceeds it.
  lemma SummaryMeaning(mac: string, ss: seq<GattService>)
    ensures var t := SummaryOf(mac, ss);
      t.macAddress == mac && t.serviceCount == |ss| &&
      t.characteristicCount == |AllChars(ss)| &&
      t.readableCharacteristics == CountWhere(AllChars(ss), (c: GattCharacteristic) => c.properties.read) &&
      t.writableCharacteristics == CountWhere(AllChars(ss), (c: GattCharacteristic) => c.properties.write || c.properties.writeWithoutResponse) &&
      t.readableCharacteristics <= t.characteristicCount &&
      t.writableCharacteristics <= t.characteristicCount
  {
    TallyCounts(GattSummary(mac, |ss|, 0, 0, 0, 0, 0, 0), AllChars(ss));
    CountWhereBound(AllChars(ss), (c: GattCharacteristic) => c.properties.read);
    CountWhereBound(AllChars(ss), (c: GattCharacteristic) => c.properties.write || c.properties.writeWithoutResponse);
  }

  /// An empty client reports zero of everything.
  lemma EmptySummary(mac: string)
    ensures SummaryOf(mac, []) == GattSummary(mac, 0, 0, 0, 0, 0, 0, 0)
  {
  }

}
