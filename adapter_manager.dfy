// Adapter capability scoring and adapter selection (src/adapter_manager.rs).

module AdapterManager {
  import opened Common

  /// What an adapter can do; `btVersion` encodes 4.0 as 40, 5.2 as 52.
  datatype AdapterCapabilities = AdapterCapabilities(
    btVersion: byte,
    supportsBle: bool,
    supportsBredr: bool,
    supportsLeAudio: bool,
    supportsExtendedAdvertising: bool,
    supportsPeriodicAdvertising: bool,
    supportsIsoChannels: bool,
    supports2mPhy: bool,
    supportsCodedPhy: bool,
    maxAdvertisingSets: byte,
    maxConnectionInterval: u16,
    supportsSimultaneousCentralPeripheral: bool)

  /// `AdapterCapabilities::default()`: everything off or zero.
  const DEFAULT_CAPABILITIES: AdapterCapabilities :=
    AdapterCapabilities(0, false, false, false, false, false, false, false, false, 0, 0, false)

  /// The features an adapter can be asked about.
  datatype AdapterFeature =
    Ble | Classic | LeAudio | ExtendedAdvertising | PeriodicAdvertising | IsoChannels | Phy2M | PhyCoded

  const ALL_ADAPTER_FEATURES: seq<AdapterFeature> :=
    [Ble, Classic, LeAudio, ExtendedAdvertising, PeriodicAdvertising, IsoChannels, Phy2M, PhyCoded]

  function BoolWeight(b: bool, w: nat): nat
  {
    if b then w else 0
  }

  /// `AdapterCapabilities::score`: the version number, a fixed weight per
  /// supported feature, 5 for simultaneous roles and 2 per advertising set
  /// (at most 870, so the `u32` additions never overflow).
  function Score(c: AdapterCapabilities): nat
  {
    c.btVersion
    + BoolWeight(c.supportsBle, 20)
    + BoolWeight(c.supportsBredr, 10)
    + BoolWeight(c.supportsExtendedAdvertising, 15)
    + BoolWeight(c.supportsPeriodicAdvertising, 10)
    + BoolWeight(c.supportsLeAudio, 10)
    + BoolWeight(c.supportsIsoChannels, 10)
    + BoolWeight(c.supports2mPhy, 10)
    + BoolWeight(c.supportsCodedPhy, 15)
    + BoolWeight(c.supportsSimultaneousCentralPeripheral, 5)
    + c.maxAdvertisingSets * 2
  }

  /// `AdapterCapabilities::supports`
  predicate Supports(c: AdapterCapabilities, feature: AdapterFeature)
  {
    match feature
    case Ble => c.supportsBle
    case Classic => c.supportsBredr
    case LeAudio => c.supportsLeAudio
    case ExtendedAdvertising => c.supportsExtendedAdvertising
    case PeriodicAdvertising => c.supportsPeriodicAdvertising
    case IsoChannels => c.supportsIsoChannels
    case Phy2M => c.supports2mPhy
    case PhyCoded => c.supportsCodedPhy
  }

  /// The score weight of each queryable feature.
  function Weight(feature: AdapterFeature): nat
  {
    match feature
    case Ble => 20
    case Classic => 10
    case LeAudio => 10
    case ExtendedAdvertising => 15
    case PeriodicAdvertising => 10
    case IsoChannels => 10
    case Phy2M => 10
    case PhyCoded => 15
  }

  /// The weights of the supported features from position `i` of
  /// `ALL_ADAPTER_FEATURES` on.
  function FeatureWeights(c: AdapterCapabilities, i: nat): nat
    decreases |ALL_ADAPTER_FEATURES| - i
  {
    if i >= |ALL_ADAPTER_FEATURES| then 0
    else BoolWeight(Supports(c, ALL_ADAPTER_FEATURES[i]), Weight(ALL_ADAPTER_FEATURES[i])) + FeatureWeights(c, i + 1)
  }

  /// The capabilities with one feature switched on.
  function Enable(c: AdapterCapabilities, feature: AdapterFeature): (r: AdapterCapabilities)
    ensures Supports(r, feature)
    ensures forall g :: g != feature ==> Supports(r, g) == Supports(c, g)
    ensures r.btVersion == c.btVersion && r.maxAdvertisingSets == c.maxAdvertisingSets
    ensures r.supportsSimultaneousCentralPeripheral == c.supportsSimultaneousCentralPeripheral
    ensures r.maxConnectionInterval == c.maxConnectionInterval
  {
    match feature
    case Ble => c.(supportsBle := true)
    case Classic => c.(supportsBredr := true)
    case LeAudio => c.(supportsLeAudio := true)
    case ExtendedAdvertising => c.(supportsExtendedAdvertising := true)
    case PeriodicAdvertising => c.(supportsPeriodicAdvertising := true)
    case IsoChannels => c.(supportsIsoChannels := true)
    case Phy2M => c.(supports2mPhy := true)
    case PhyCoded => c.(supportsCodedPhy := true)
  }

  /// The score is the version, plus each supported feature's weight, plus
  /// 5 for simultaneous roles and twice the advertising sets.
  lemma ScoreDecomposition(c: AdapterCapabilities)
    ensures Score(c) == c.btVersion + FeatureWeights(c, 0)
      + BoolWeight(c.supportsSimultaneousCentralPeripheral, 5) + 2 * c.maxAdvertisingSets
  {
    assert FeatureWeights(c, 6) == BoolWeight(c.supports2mPhy, 10) + BoolWeight(c.supportsCodedPhy, 15);
    assert FeatureWeights(c, 3) == BoolWeight(c.supportsExtendedAdvertising, 15)
      + BoolWeight(c.supportsPeriodicAdvertising, 10) + BoolWeight(c.supportsIsoChannels, 10) + FeatureWeights(c, 6);
  }

  /// The flags add at most 105 to the version and advertising-set terms,
  /// and the whole score stays within 870.
  lemma ScoreBounds(c: AdapterCapabilities)
    ensures c.btVersion + 2 * c.maxAdvertisingSets <= Score(c) <= c.btVersion + 2 * c.maxAdvertisingSets + 105
    ensures Score(c) <= 870
  {
  }

  /// Where each feature sits in `ALL_ADAPTER_FEATURES`.
  function FeatureIndex(feature: AdapterFeature): (i: nat)
    ensures i < |ALL_ADAPTER_FEATURES| && ALL_ADAPTER_FEATURES[i] == feature
    ensures forall j :: 0 <= j < |ALL_ADAPTER_FEATURES| && ALL_ADAPTER_FEATURES[j] == feature ==> j == i
  {
    match feature
    case Ble => 0
    case Classic => 1
    case LeAudio => 2
    case ExtendedAdvertising => 3
    case PeriodicAdvertising => 4
    case IsoChannels => 5
    case Phy2M => 6
    case PhyCoded => 7
  }

  /// Switching a feature on changes the weights from position `i` on by
  /// that feature's term alone, when it lies there.
  lemma {:induction false} FeatureWeightsEnable(c: AdapterCapabilities, feature: AdapterFeature, i: nat)
    ensures FeatureWeights(Enable(c, feature), i) == FeatureWeights(c, i)
      + (if i <= FeatureIndex(feature) then BoolWeight(!Supports(c, feature), Weight(feature)) else 0)
    decreases |ALL_ADAPTER_FEATURES| - i
  {
    if i < |ALL_ADAPTER_FEATURES| {
      FeatureWeightsEnable(c, feature, i + 1);
    }
  }

  /// Switching a feature on adds its weight when it was off and changes
  /// nothing when it was on, so it never lowers the score.
  lemma ScoreEnable(c: AdapterCapabilities, feature: AdapterFeature)
    ensures Score(Enable(c, feature)) == Score(c) + BoolWeight(!Supports(c, feature), Weight(feature))
    ensures Score(Enable(c, feature)) >= Score(c)
  {
    ScoreDecomposition(c);
    ScoreDecomposition(Enable(c, feature));
    FeatureWeightsEnable(c, feature, 0);
  }

  /// The two capability sets of the scoring test: 5.2 with BLE, extended
  /// advertising and both PHYs outscores 4.2 with BLE alone.
  lemma ScoreExample(basic: AdapterCapabilities, advanced: AdapterCapabilities)
    requires basic == DEFAULT_CAPABILITIES.(btVersion := 42, supportsBle := true)
    requires advanced == DEFAULT_CAPABILITIES.(btVersion := 52, supportsBle := true,
      supportsExtendedAdvertising := true, supports2mPhy := true, supportsCodedPhy := true)
    ensures Score(basic) == 62 && Score(advanced) == 112
  {
  }

  // -----------------------------------------------------------------------
  // Selection

  datatype Adapter = Adapter(id: string, name: string, address: string, capabilities: AdapterCapabilities, isDefault: bool)

  datatype AdapterSelection = BestCapabilities | ById(id: string) | ByAddress(address: string) | FirstAvailable

  datatype AdapterList = AdapterList(adapters: seq<Adapter>, selectedId: Option<string>)

  /// `max_by_key` on the score: a highest-scoring adapter, the last of
  /// several equal ones.
  function BestIndex(adapters: seq<Adapter>): (r: Option<nat>)
    ensures r.None? <==> adapters == []
    ensures r.Some? ==> r.value < |adapters|
    ensures r.Some? ==> forall j :: 0 <= j < |adapters| ==>
      Score(adapters[j].capabilities) <= Score(adapters[r.value].capabilities)
    ensures r.Some? ==> forall j :: r.value < j < |adapters| ==>
      Score(adapters[j].capabilities) < Score(adapters[r.value].capabilities)
  {
    if adapters == [] then None
    else
      var last := |adapters| - 1;
      match BestIndex(adapters[..last])
      case None => Some(last)
      case Some(i) =>
        if Score(adapters[last].capabilities) >= Score(adapters[i].capabilities) then Some(last) else Some(i)
  }

  /// `iter().find`: the first adapter satisfying `p`.
  function FindIndex(adapters: seq<Adapter>, p: Adapter -> bool): (r: Option<nat>)
    ensures r.Some? ==> (r.value < |adapters| && p(adapters[r.value])
      && forall j :: 0 <= j < r.value ==> !p(adapters[j]))
    ensures r.None? ==> forall j :: 0 <= j < |adapters| ==> !p(adapters[j])
  {
    if adapters == [] then None
    else if p(adapters[0]) then Some(0)
    else match FindIndex(adapters[1..], p)
      case None => None
      case Some(i) => Some(i + 1)
  }

  /// Two predicates that agree on every adapter find the same one.
  lemma {:induction false} FindIndexSamePredicate(adapters: seq<Adapter>, p: Adapter -> bool, q: Adapter -> bool)
    requires forall a :: p(a) == q(a)
    ensures FindIndex(adapters, p) == FindIndex(adapters, q)
  {
    if adapters != [] {
      FindIndexSamePredicate(adapters[1..], p, q);
    }
  }

  function At(adapters: seq<Adapter>, i: Option<nat>): Option<Adapter>
  {
    if i.Some? && i.value < |adapters| then Some(adapters[i.value]) else None
  }

  /// Adapter identity for `ById`.
  predicate HasId(a: Adapter, id: string)
  {
    a.id == id
  }

  /// Address equality after upper-casing both sides, for `ByAddress`.
  predicate HasAddress(a: Adapter, address: string)
  {
    ToUpper(a.address) == ToUpper(address)
  }

  /// `AdapterList::select`
  function Select(list: AdapterList, strategy: AdapterSelection): Option<Adapter>
  {
    match strategy
    case BestCapabilities => At(list.adapters, BestIndex(list.adapters))
    case ById(id) => At(list.adapters, FindIndex(list.adapters, a => HasId(a, id)))
    case ByAddress(address) => At(list.adapters, FindIndex(list.adapters, a => HasAddress(a, address)))
    case FirstAvailable => if list.adapters == [] then None else Some(list.adapters[0])
  }

  /// What each strategy selects: a top-scoring adapter (the last among
  /// equals), the first with exactly the ID, the first whose address
  /// matches ignoring case, or the head; `None` only when nothing fits.
  lemma SelectMeaning(list: AdapterList, strategy: AdapterSelection)
    ensures var r := Select(list, strategy); var ads := list.adapters;
      match strategy
      case BestCapabilities =>
        (r.None? <==> ads == []) &&
        (r.Some? ==> (r.value in ads &&
          (forall a :: a in ads ==> Score(a.capabilities) <= Score(r.value.capabilities)) &&
          exists i :: 0 <= i < |ads| && ads[i] == r.value &&
            forall j :: i < j < |ads| ==> Score(ads[j].capabilities) < Score(r.value.capabilities)))
      case ById(id) =>
        (r.None? <==> forall a :: a in ads ==> a.id != id) &&
        (r.Some? ==> (r.value in ads && r.value.id == id &&
          exists i :: 0 <= i < |ads| && ads[i] == r.value && forall j :: 0 <= j < i ==> ads[j].id != id))
      case ByAddress(address) =>
        (r.None? <==> forall a :: a in ads ==> ToUpper(a.address) != ToUpper(address)) &&
        (r.Some? ==> (r.value in ads && ToUpper(r.value.address) == ToUpper(address) &&
          exists i :: 0 <= i < |ads| && ads[i] == r.value &&
            forall j :: 0 <= j < i ==> ToUpper(ads[j].address) != ToUpper(address)))
      case FirstAvailable =>
        r == if ads == [] then None else Some(ads[0])
  {
    var ads := list.adapters;
    match strategy
    case BestCapabilities =>
      var b := BestIndex(ads);
      if b.Some? {
        forall a | a in ads
          ensures Score(a.capabilities) <= Score(ads[b.value].capabilities)
        {
          var j :| 0 <= j < |ads| && ads[j] == a;
        }
        assert ads[b.value] == Select(list, strategy).value;
      }
    case ById(id) =>
      var f := FindIndex(ads, a => HasId(a, id));
      if f.Some? {
        assert ads[f.value] == Select(list, strategy).value;
      } else {
        forall a | a in ads
          ensures a.id != id
        {
          var j :| 0 <= j < |ads| && ads[j] == a;
          assert !HasId(ads[j], id);
        }
      }
    case ByAddress(address) =>
      var f := FindIndex(ads, a => HasAddress(a, address));
      if f.Some? {
        assert ads[f.value] == Select(list, strategy).value;
      } else {
        forall a | a in ads
          ensures ToUpper(a.address) != ToUpper(address)
        {
          var j :| 0 <= j < |ads| && ads[j] == a;
          assert !HasAddress(ads[j], address);
        }
      }
    case FirstAvailable =>
  }

  lemma UpperOfLower(s: string)
    ensures ToUpper(ToLower(s)) == ToUpper(s)
  {
    assert forall i :: 0 <= i < |s| ==> ToUpper(ToLower(s))[i] == ToUpper(s)[i];
  }

  /// Selecting by address does not depend on the case of the requested
  /// address.
  lemma SelectByAddressIgnoresCase(list: AdapterList, address: string)
    ensures Select(list, ByAddress(ToLower(address))) == Select(list, ByAddress(address))
    ensures Select(list, ByAddress(ToUpper(address))) == Select(list, ByAddress(address))
  {
    UpperOfLower(address);
    UpperIdempotent(address);
    FindIndexSamePredicate(list.adapters, a => HasAddress(a, ToLower(address)), a => HasAddress(a, address));
    FindIndexSamePredicate(list.adapters, a => HasAddress(a, ToUpper(address)), a => HasAddress(a, address));
  }

  lemma UpperIdempotent(s: string)
    ensures ToUpper(ToUpper(s)) == ToUpper(s)
  {
    assert forall i :: 0 <= i < |s| ==> ToUpper(ToUpper(s))[i] == ToUpper(s)[i];
  }

  /// `AdapterList::selected`: the adapter with the stored ID, or else the
  /// first adapter.
  function Selected(list: AdapterList): Option<Adapter>
  {
    var byId := if list.selectedId.Some? then Select(list, ById(list.selectedId.value)) else None;
    if byId.Some? then byId else Select(list, FirstAvailable)
  }

  /// The stored ID wins when some adapter has it; a missing or unknown ID
  /// falls back to the first adapter, and only an empty list gives `None`.
  lemma SelectedMeaning(list: AdapterList)
    ensures Selected(list).None? <==> list.adapters == []
    ensures list.selectedId.Some? && (exists a :: a in list.adapters && a.id == list.selectedId.value) ==>
      Selected(list).Some? && Selected(list).value.id == list.selectedId.value
    ensures (list.selectedId.None? || forall a :: a in list.adapters ==> a.id != list.selectedId.value) ==>
      Selected(list) == Select(list, FirstAvailable)
  {
    if list.selectedId.Some? {
      SelectMeaning(list, ById(list.selectedId.value));
    }
    SelectMeaning(list, FirstAvailable);
  }

  /// `select_best_adapter`: the same choice as `BestCapabilities`. As
  /// `max_by_key` does, it returns a top scorer, the last one on a tie.
  function SelectBestAdapter(adapters: seq<Adapter>): (r: Option<Adapter>)
    ensures r.None? <==> adapters == []
    ensures r.Some? ==> r.value in adapters
    ensures r.Some? ==> forall a :: a in adapters ==> Score(a.capabilities) <= Score(r.value.capabilities)
    ensures r.Some? ==> exists i :: (0 <= i < |adapters| && adapters[i] == r.value
      && forall j :: i < j < |adapters| ==> Score(adapters[j].capabilities) < Score(r.value.capabilities))
  {
    At(adapters, BestIndex(adapters))
  }

  /// The selection test: the advanced adapter is best, the basic one is
  /// first and is found by its ID.
  lemma SelectionExample(list: AdapterList)
    requires list == AdapterList([
      Adapter("adapter1", "Basic", "AA:BB:CC:DD:EE:01",
        DEFAULT_CAPABILITIES.(btVersion := 42, supportsBle := true), true),
      Adapter("adapter2", "Advanced", "AA:BB:CC:DD:EE:02",
        DEFAULT_CAPABILITIES.(btVersion := 52, supportsBle := true,
          supportsExtendedAdvertising := true, supportsCodedPhy := true), false)], None)
    ensures Select(list, BestCapabilities).Some? && Select(list, BestCapabilities).value.id == "adapter2"
    ensures Select(list, FirstAvailable).Some? && Select(list, FirstAvailable).value.id == "adapter1"
    ensures Select(list, ById("adapter1")).Some? && Select(list, ById("adapter1")).value.id == "adapter1"
    ensures Selected(list) == Select(list, FirstAvailable)
  {
    var adapters := list.adapters;
    assert adapters[..1][..0] == [];
    assert FindIndex(adapters, a => HasId(a, "adapter1")) == Some(0);
  }
}
