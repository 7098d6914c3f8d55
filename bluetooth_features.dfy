// Bluetooth core versions, the features each introduces, and version
// detection from features or service UUIDs (src/bluetooth_features.rs).

module BluetoothFeatures {
  import opened Common

  /// Core specification versions, in release order.
  datatype BluetoothVersion =
    | V1_0 | V1_0b | V1_1 | V1_2 | V2_0 | V2_1 | V3_0 | V4_0
    | V4_1 | V4_2 | V5_0 | V5_1 | V5_2 | V5_3 | V5_4 | V6_0
  {
    /// Position in the declaration order, which the derived `Ord` follows.
    function Rank(): nat
    {
      match this
      case V1_0 => 0 case V1_0b => 1 case V1_1 => 2 case V1_2 => 3
      case V2_0 => 4 case V2_1 => 5 case V3_0 => 6 case V4_0 => 7
      case V4_1 => 8 case V4_2 => 9 case V5_0 => 10 case V5_1 => 11
      case V5_2 => 12 case V5_3 => 13 case V5_4 => 14 case V6_0 => 15
    }
  }

  /// Distinct versions have distinct ranks.
  lemma RankInjective(a: BluetoothVersion, b: BluetoothVersion)
    ensures a.Rank() == b.Rank() ==> a == b
  {
  }

  /// `version >= other` under the derived ordering.
  predicate AtLeast(version: BluetoothVersion, other: BluetoothVersion)
  {
    version.Rank() >= other.Rank()
  }

  /// Feature categories.
  datatype BluetoothFeature =
    | Baseband | AFH | EDR | SSP
    | BrEdrBasicRate | BrEdrEdr2Mbps | BrEdrEdr3Mbps
    | HighSpeed
    | BLE | LEAdvertising | LEConnections | LEScan
    | LEPhy2M | LEPhyCoded | LEExtendedAdvertising | LEPeriodicAdvertising
    | LEAudio | LC3Codec | LEAudioUnicast | LEAudioBroadcast | LEAudioMultiStream
    | EATT | LEConnLengthExtension | LEChannelSelection | LEDataPacketLengthExtension
    | LE2xSpeed | LE4xRange | LE8xBroadcast
    | LEDirectionFinding | LEAngleOfArrival | LEAngleOfDeparture
    | LEPowerControl | LEPathLoss | LEConnSubrating
    | LargeScaleNetworking | LEBroadcastImprovements
    | BLEMesh
    | MultipleLE | DualMode

  /// `get_features_for_version`: the features whose threshold block (one
  /// `if version >= ...` per introducing version, the cases of
  /// `IntroducedIn`) the version reaches.
  function FeaturesForVersion(version: BluetoothVersion): set<BluetoothFeature>
  {
    set f: BluetoothFeature | IntroducedIn(f).Some? && AtLeast(version, IntroducedIn(f).value)
  }

  /// The version that introduces each feature; `MultipleLE` is introduced
  /// by none.
  function IntroducedIn(f: BluetoothFeature): Option<BluetoothVersion>
  {
    match f
    case Baseband | BrEdrBasicRate => Some(V1_0)
    case AFH => Some(V1_2)
    case EDR | BrEdrEdr2Mbps | BrEdrEdr3Mbps => Some(V2_0)
    case SSP => Some(V2_1)
    case HighSpeed => Some(V3_0)
    case BLE | LEAdvertising | LEConnections | LEScan | DualMode => Some(V4_0)
    case LEConnLengthExtension => Some(V4_1)
    case LEPhy2M | LEDataPacketLengthExtension => Some(V4_2)
    case LE2xSpeed | LE4xRange | LE8xBroadcast | LEPhyCoded | LEExtendedAdvertising
      | LEPeriodicAdvertising | LEChannelSelection | BLEMesh => Some(V5_0)
    case LEDirectionFinding | LEAngleOfArrival | LEAngleOfDeparture => Some(V5_1)
    case LEAudio | LC3Codec | LEAudioUnicast | LEAudioBroadcast | LEAudioMultiStream | EATT => Some(V5_2)
    case LEPowerControl | LEPathLoss | LEConnSubrating => Some(V5_3)
    case LargeScaleNetworking | LEBroadcastImprovements => Some(V6_0)
    case MultipleLE => None
  }

  /// A version has a feature exactly when the feature was introduced in it
  /// or an earlier version.
  lemma FeaturesForVersionMembers(version: BluetoothVersion, f: BluetoothFeature)
    ensures f in FeaturesForVersion(version) <==>
      IntroducedIn(f).Some? && AtLeast(version, IntroducedIn(f).value)
  {
  }

  /// Later versions keep every feature of earlier ones.
  lemma FeaturesMonotone(v1: BluetoothVersion, v2: BluetoothVersion)
    ensures AtLeast(v2, v1) ==> FeaturesForVersion(v1) <= FeaturesForVersion(v2)
  {
    if AtLeast(v2, v1) {
      forall f | f in FeaturesForVersion(v1)
        ensures f in FeaturesForVersion(v2)
      {
        FeaturesForVersionMembers(v1, f);
        FeaturesForVersionMembers(v2, f);
      }
    }
  }

  /// `MultipleLE` belongs to no version, and 6.0 has every other feature.
  lemma FeaturesOfNewest(f: BluetoothFeature, version: BluetoothVersion)
    ensures f == MultipleLE ==> f !in FeaturesForVersion(version)
    ensures f in FeaturesForVersion(V6_0) <==> f != MultipleLE
  {
    FeaturesForVersionMembers(version, f);
    FeaturesForVersionMembers(V6_0, f);
  }

  /// 5.4 adds nothing over 5.3, and 1.0b and 1.1 nothing over 1.0.
  lemma SameFeatureSets()
    ensures FeaturesForVersion(V5_4) == FeaturesForVersion(V5_3)
    ensures FeaturesForVersion(V1_0b) == FeaturesForVersion(V1_0)
    ensures FeaturesForVersion(V1_1) == FeaturesForVersion(V1_0)
  {
  }

  /// A subset of a finite set with an element missing is strictly smaller.
  lemma ProperSubsetSmaller(small: set<BluetoothFeature>, large: set<BluetoothFeature>, missing: BluetoothFeature)
    requires small <= large && missing in large && missing !in small
    ensures |small| < |large|
  {
    assert large == small + (large - small);
    assert missing in large - small;
  }

  /// The number of features never falls from one version to a later one,
  /// and rises whenever the later version introduces a feature.
  lemma {:induction false} FeatureCountGrows(v1: BluetoothVersion, v2: BluetoothVersion, added: BluetoothFeature)
    requires AtLeast(v2, v1)
    ensures |FeaturesForVersion(v1)| <= |FeaturesForVersion(v2)|
    ensures added in FeaturesForVersion(v2) && added !in FeaturesForVersion(v1) ==>
      |FeaturesForVersion(v1)| < |FeaturesForVersion(v2)|
  {
    FeaturesMonotone(v1, v2);
    var s1, s2 := FeaturesForVersion(v1), FeaturesForVersion(v2);
    assert s2 == s1 + (s2 - s1);
    if added in s2 && added !in s1 {
      ProperSubsetSmaller(s1, s2, added);
    }
  }

  // -----------------------------------------------------------------------
  // VersionFeatureSet

  /// A version together with its feature set.
  datatype VersionFeatureSet = VersionFeatureSet(version: BluetoothVersion, features: set<BluetoothFeature>)

  /// `VersionFeatureSet::new`
  function NewVersionFeatureSet(version: BluetoothVersion): VersionFeatureSet
  {
    VersionFeatureSet(version, FeaturesForVersion(version))
  }

  /// `VersionFeatureSet::has_feature`
  predicate HasFeature(s: VersionFeatureSet, f: BluetoothFeature)
  {
    f in s.features
  }

  /// 5.2 has LE Audio, the LC3 codec and 2x speed; 4.0 has BLE but not LE
  /// Audio; the feature count rises from 4.0 to 5.0 to 5.2.
  lemma VersionFeatureSetTests(v40: VersionFeatureSet, v50: VersionFeatureSet, v52: VersionFeatureSet)
    requires v40 == NewVersionFeatureSet(V4_0)
    requires v50 == NewVersionFeatureSet(V5_0)
    requires v52 == NewVersionFeatureSet(V5_2)
    ensures HasFeature(v52, LEAudio) && HasFeature(v52, LC3Codec) && HasFeature(v52, LE2xSpeed)
    ensures HasFeature(v40, BLE) && !HasFeature(v40, LEAudio)
    ensures |v40.features| < |v50.features| < |v52.features|
  {
    FeaturesForVersionMembers(V5_2, LEAudio);
    FeaturesForVersionMembers(V5_2, LC3Codec);
    FeaturesForVersionMembers(V5_2, LE2xSpeed);
    FeaturesForVersionMembers(V4_0, BLE);
    FeaturesForVersionMembers(V4_0, LEAudio);
    FeaturesForVersionMembers(V5_0, LE2xSpeed);
    FeaturesForVersionMembers(V4_0, LE2xSpeed);
    FeaturesForVersionMembers(V5_0, LEAudio);
    FeatureCountGrows(V4_0, V5_0, LE2xSpeed);
    FeatureCountGrows(V5_0, V5_2, LEAudio);
  }

  // -----------------------------------------------------------------------
  // detect_version_from_features

  /// Every discovered feature belongs to the version.
  predicate Covers(version: BluetoothVersion, discovered: set<BluetoothFeature>)
  {
    discovered <= FeaturesForVersion(version)
  }

  /// The first position from `i` on whose version covers the features: the
  /// early return inside the search loop.
  function FirstCovering(order: seq<BluetoothVersion>, discovered: set<BluetoothFeature>, i: nat): (r: Option<nat>)
    requires i <= |order|
    decreases |order| - i
    ensures r.Some? ==> i <= r.value < |order| && Covers(order[r.value], discovered)
    ensures r.Some? ==> forall j :: i <= j < r.value ==> !Covers(order[j], discovered)
    ensures r.None? ==> forall j :: i <= j < |order| ==> !Covers(order[j], discovered)
  {
    if i == |order| then None
    else if Covers(order[i], discovered) then Some(i)
    else FirstCovering(order, discovered, i + 1)
  }

  /// The version at the position `FirstCovering` finds.
  function SearchVersions(order: seq<BluetoothVersion>, discovered: seq<BluetoothFeature>): Option<BluetoothVersion>
  {
    match FirstCovering(order, set f | f in discovered, 0)
    case Some(i) => Some(order[i])
    case None => None
  }

  /// The search order as written: newest first, without 1.0b and 1.1.
  const NEWEST_FIRST: seq<BluetoothVersion> :=
    [V6_0, V5_4, V5_3, V5_2, V5_1, V5_0, V4_2, V4_1, V4_0, V3_0, V2_1, V2_0, V1_2, V1_0]

  /// `detect_version_from_features` as written.
  function DetectVersionFromFeaturesAsWritten(discovered: seq<BluetoothFeature>): Option<BluetoothVersion>
  {
    SearchVersions(NEWEST_FIRST, discovered)
  }

  /// Since feature sets only grow, the newest-first search stops at 6.0
  /// whenever any version covers the input: the answer is 6.0 for every
  /// input without `MultipleLE`, the empty one included, and `None` otherwise.
  lemma DetectAsWrittenAlwaysNewest(discovered: seq<BluetoothFeature>)
    ensures DetectVersionFromFeaturesAsWritten(discovered) ==
      if MultipleLE in discovered then None else Some(V6_0)
  {
    var s := set f | f in discovered;
    if MultipleLE in discovered {
      var r := FirstCovering(NEWEST_FIRST, s, 0);
      if r.Some? {
        FeaturesOfNewest(MultipleLE, NEWEST_FIRST[r.value]);
        assert false;
      }
    } else {
      forall f | f in s
        ensures f in FeaturesForVersion(V6_0)
      {
        FeaturesOfNewest(f, V6_0);
      }
    }
  }

  /// Every version, oldest first.
  const OLDEST_FIRST: seq<BluetoothVersion> :=
    [V1_0, V1_0b, V1_1, V1_2, V2_0, V2_1, V3_0, V4_0, V4_1, V4_2, V5_0, V5_1, V5_2, V5_3, V5_4, V6_0]

  /// `OLDEST_FIRST` lists each version at its rank.
  lemma OldestFirstAtRank(version: BluetoothVersion)
    ensures version.Rank() < |OLDEST_FIRST| && OLDEST_FIRST[version.Rank()] == version
  {
  }

  /// `detect_version_from_features` searching oldest first: the earliest
  /// version that has every discovered feature.
  function DetectVersionFromFeatures(discovered: seq<BluetoothFeature>): Option<BluetoothVersion>
  {
    SearchVersions(OLDEST_FIRST, discovered)
  }

  /// The corrected detection returns a version covering the input that no
  /// covering version precedes, and `None` exactly when no version covers
  /// it, which is when the original returns `None` too.
  lemma {:induction false} DetectVersionFromFeaturesMinimal(discovered: seq<BluetoothFeature>, other: BluetoothVersion)
    ensures var r := DetectVersionFromFeatures(discovered);
      r.Some? ==> Covers(r.value, set f | f in discovered)
    ensures var r := DetectVersionFromFeatures(discovered);
      Covers(other, set f | f in discovered) ==> r.Some? && AtLeast(other, r.value)
    ensures DetectVersionFromFeatures(discovered).None? <==> MultipleLE in discovered
  {
    var s := set f | f in discovered;
    var r := FirstCovering(OLDEST_FIRST, s, 0);
    OldestFirstAtRank(other);
    if Covers(other, s) {
      assert Covers(OLDEST_FIRST[other.Rank()], s);
      assert r.Some?;
      RankAtPosition(r.value);
    }
    DetectNoneExactlyWithMultipleLE(discovered);
  }

  /// The version at each position of `OLDEST_FIRST` has that rank.
  lemma RankAtPosition(i: nat)
    requires i < |OLDEST_FIRST|
    ensures OLDEST_FIRST[i].Rank() == i
  {
  }

  lemma {:induction false} DetectNoneExactlyWithMultipleLE(discovered: seq<BluetoothFeature>)
    ensures DetectVersionFromFeatures(discovered).None? <==> MultipleLE in discovered
  {
    var s := set f | f in discovered;
    var r := FirstCovering(OLDEST_FIRST, s, 0);
    if MultipleLE !in discovered {
      forall f | f in s
        ensures f in FeaturesForVersion(V6_0)
      {
        FeaturesOfNewest(f, V6_0);
      }
      OldestFirstAtRank(V6_0);
    } else if r.Some? {
      FeaturesOfNewest(MultipleLE, OLDEST_FIRST[r.value]);
    }
  }

  /// LE Audio with BLE is first supported by 5.2, where the original
  /// answers 6.0.
  lemma DetectVersionExample(discovered: seq<BluetoothFeature>)
    requires discovered == [BLE, LEAudio]
    ensures DetectVersionFromFeatures(discovered) == Some(V5_2)
    ensures DetectVersionFromFeaturesAsWritten(discovered) == Some(V6_0)
  {
    var s := set f | f in discovered;
    assert s == {BLE, LEAudio};
    FeaturesForVersionMembers(V5_2, BLE);
    FeaturesForVersionMembers(V5_2, LEAudio);
    assert Covers(V5_2, s);
    DetectVersionFromFeaturesMinimal(discovered, V5_2);
    var r := DetectVersionFromFeatures(discovered);
    assert r.Some? && AtLeast(V5_2, r.value);
    assert Covers(r.value, s);
    FeaturesForVersionMembers(r.value, LEAudio);
    assert AtLeast(r.value, V5_2);
    RankInjective(r.value, V5_2);
    DetectAsWrittenAlwaysNewest(discovered);
  }

  // -----------------------------------------------------------------------
  // detect_version_from_services

  /// The LE Audio service UUIDs.
  predicate IsLeAudioService(uuid: u16)
  {
    uuid == 0x1849 || uuid == 0x1844 || uuid == 0x184F || uuid == 0x1853
  }

  /// `detect_version_from_services`: LE Audio services first, then
  /// Environmental Sensing, then Heart Rate or Battery.
  function DetectVersionFromServices(serviceUuids: seq<u16>): Option<BluetoothVersion>
  {
    if exists u :: u in serviceUuids && IsLeAudioService(u) then Some(V5_2)
    else if exists u :: u in serviceUuids && u == 0x181A then Some(V4_0)
    else if exists u :: u in serviceUuids && (u == 0x180D || u == 0x180F) then Some(V4_0)
    else None
  }

  /// Any LE Audio service decides 5.2 whatever else is listed; otherwise
  /// any of 0x181A, 0x180D, 0x180F gives 4.0; otherwise there is no guess.
  lemma DetectVersionFromServicesPriority(serviceUuids: seq<u16>)
    ensures DetectVersionFromServices(serviceUuids) == Some(V5_2) <==>
      exists u :: u in serviceUuids && IsLeAudioService(u)
    ensures DetectVersionFromServices(serviceUuids) == Some(V4_0) <==>
      (forall u :: u in serviceUuids ==> !IsLeAudioService(u)) &&
      (exists u :: u in serviceUuids && (u == 0x181A || u == 0x180D || u == 0x180F))
    ensures DetectVersionFromServices(serviceUuids) == None <==>
      forall u :: u in serviceUuids ==> !IsLeAudioService(u) && u != 0x181A && u != 0x180D && u != 0x180F
  {
  }
}
