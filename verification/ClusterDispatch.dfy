/** Update dispatch of clusters: the cluster and its service provider record are projected into one
    config, compared with the projection of the live Cluster Service cluster, and written back with
    a PATCH on drift. The same write builds the cluster on create. */
module ClusterDispatch {
  import opened Options
  import opened Text
  import opened GoValues

  const SINGLE_REPLICA := "hosted_cluster_single_replica"
  const SIZE_OVERRIDE := "hosted_cluster_size_override"
  const CPO_IMAGE := "control_plane_operator_image"
  const ENABLED := "true"
  const E2E_MINIMAL := "e2e_minimal"
  const ALLOW_ALL := "allow_all"
  const ALLOW_LIST := "allow_list"
  const PLATFORM_MANAGED := "platform_managed"
  const CUSTOMER_MANAGED := "customer_managed"
  const KMS := "kms"

  // ---------- the three representations ----------

  datatype Mirror = Mirror(source: string, mirrors: seq<string>)
  datatype Autoscaling = Autoscaling(maxNodesTotal: int32, maxPodGraceSeconds: int32, maxProvisionSeconds: int32,
                                     podPriorityThreshold: int32)
  datatype Availability = DefaultAvailability | SingleReplica
  datatype PodSizing = DefaultSizing | Minimal

  datatype KeyManagement = PlatformManaged | CustomerManaged

  /** Etcd encryption as the resource provider stores it. `kms` is the version of the active key when
      the customer managed encryption type is KMS, and `None` for any other type. */
  datatype RpEtcd = RpEtcd(mode: KeyManagement, kms: Option<string>)

  /** The cluster with its service provider record; `size` is the latter's control plane size. */
  datatype Desired = Desired(drain: int32, cidrs: Option<seq<string>>, mirrors: seq<Mirror>, autoscaling: Autoscaling,
                             availability: Availability, podSizing: PodSizing, image: string,
                             size: Option<string>, etcd: RpEtcd, pullIdentity: Option<string>)

  datatype Allow = Allow(mode: string, values: Option<seq<string>>)
  datatype CsMirror = CsMirror(source: Option<string>, mirrors: Option<seq<string>>)
  datatype CsEtcd = CsEtcd(mode: Option<string>, encryptionType: string, keyVersion: string)
  datatype CsAutoscaler = CsAutoscaler(maxNodeProvisionTime: string, maxPodGracePeriod: int, podPriorityThreshold: int,
                                       maxNodesTotal: int)
  datatype CsRegistry = CsRegistry(identity: Option<string>)

  /** The Cluster Service cluster, or a payload for it, where `None` is an attribute not set. */
  datatype CsCluster = CsCluster(drain: Option<Value>, allow: Option<Allow>, mirrors: Option<seq<CsMirror>>,
                                 etcd: Option<CsEtcd>, registry: Option<CsRegistry>, properties: map<string, string>,
                                 autoscaler: Option<CsAutoscaler>)

  /** `etcd` is the pointer to the customer managed settings, holding the pointer to the KMS settings. */
  datatype Config = Config(drain: int32, cidrs: Option<seq<string>>, mirrors: Option<seq<Mirror>>,
                           autoscaling: Autoscaling,
                           availability: Availability, podSizing: PodSizing, image: string,
                           size: Option<string>, etcd: Option<Option<string>>, pullIdentity: Option<string>)

  // ---------- projections ----------

  function EtcdFromRP(e: RpEtcd): Option<Option<string>> {
    if e.mode.CustomerManaged? && e.kms.Some? then Some(e.kms) else None
  }

  function FromRP(d: Desired): Config {
    Config(d.drain, d.cidrs, if d.mirrors == [] then None else Some(d.mirrors), d.autoscaling,
           d.availability, d.podSizing, d.image,
           d.size, EtcdFromRP(d.etcd), d.pullIdentity)
  }

  function DrainFromCS(c: CsCluster): int32 {
    if c.drain.Some? && c.drain.value.unit == Some(MINUTES) then Truncate(c.drain.value.amount) else 0
  }

  function CidrsFromCS(c: CsCluster): Option<seq<string>> {
    if c.allow.Some? && c.allow.value.mode == ALLOW_LIST then c.allow.value.values else None
  }

  function MirrorsOfCS(ms: seq<CsMirror>): seq<Mirror> {
    if ms == [] then []
    else if ms[0].source.None? then MirrorsOfCS(ms[1..])
    else [Mirror(ms[0].source.value, if ms[0].mirrors.Some? then ms[0].mirrors.value else [])] + MirrorsOfCS(ms[1..])
  }

  function MirrorsFromCS(c: CsCluster): Option<seq<Mirror>> {
    if c.mirrors.None? || c.mirrors.value == [] then None else Some(MirrorsOfCS(c.mirrors.value))
  }

  function AvailabilityOf(properties: map<string, string>): Availability {
    if SINGLE_REPLICA in properties && properties[SINGLE_REPLICA] == ENABLED then SingleReplica else DefaultAvailability
  }

  function PodSizingOf(properties: map<string, string>): PodSizing {
    if SIZE_OVERRIDE in properties && properties[SIZE_OVERRIDE] == E2E_MINIMAL then Minimal else DefaultSizing
  }

  function ImageOf(properties: map<string, string>): string {
    if CPO_IMAGE in properties then properties[CPO_IMAGE] else ""
  }

  function SizeOf(properties: map<string, string>): Option<string> {
    if SIZE_OVERRIDE !in properties || properties[SIZE_OVERRIDE] in {"", E2E_MINIMAL} then None
    else Some(properties[SIZE_OVERRIDE])
  }

  function EtcdFromCS(c: CsCluster): Option<Option<string>> {
    if c.etcd.None? || c.etcd.value.mode.None? || c.etcd.value.mode.value == PLATFORM_MANAGED then None
    else if c.etcd.value.encryptionType == "" && c.etcd.value.encryptionType != KMS then None
    else Some(Some(c.etcd.value.keyVersion))
  }

  function PullIdentityFromCS(c: CsCluster): Option<string> {
    if c.registry.Some? then c.registry.value.identity else None
  }

  /** `None` is the error of a provision time that does not parse. */
  function AutoscalingFromCS(c: CsCluster): Option<Autoscaling> {
    if c.autoscaler.None? then Some(Autoscaling(0, 0, 0, 0)) else
      var a := c.autoscaler.value;
      var seconds := if a.maxNodeProvisionTime == "" then Some(0) else SecondsFromText(a.maxNodeProvisionTime);
      if seconds.None? then None
      else Some(Autoscaling(ToInt32(a.maxNodesTotal), ToInt32(a.maxPodGracePeriod), seconds.value,
                            ToInt32(a.podPriorityThreshold)))
  }

  function FromCS(c: CsCluster): Option<Config> {
    var autoscaling := AutoscalingFromCS(c);
    if autoscaling.None? then None
    else Some(Config(DrainFromCS(c), CidrsFromCS(c), MirrorsFromCS(c), autoscaling.value,
                     AvailabilityOf(c.properties), PodSizingOf(c.properties), ImageOf(c.properties),
                     SizeOf(c.properties),
                     EtcdFromCS(c), PullIdentityFromCS(c)))
  }

  // ---------- properties ----------

  /** The size override: the service provider's size, lowered, wins over the cluster's pod sizing. */
  function SizeOverride(podSizing: PodSizing, size: Option<string>): Option<string> {
    if size.Some? then Some(Lower(size.value))
    else if podSizing.Minimal? then Some(E2E_MINIMAL)
    else None
  }

  const MANAGED := {SINGLE_REPLICA, SIZE_OVERRIDE, CPO_IMAGE}

  /** What dispatch wants a managed property to be; `None` is a property that must be absent. */
  function Managed(c: Config, key: string): Option<string>
    requires key in MANAGED
  {
    if key == SINGLE_REPLICA then (if c.availability.SingleReplica? then Some(ENABLED) else None)
    else if key == SIZE_OVERRIDE then SizeOverride(c.podSizing, c.size)
    else if c.image != "" then Some(c.image) else None
  }

  function SetOrDelete(m: map<string, string>, key: string, value: Option<string>): map<string, string> {
    if value.Some? then m[key := value.value] else m - {key}
  }

  function Overlay(c: Config, base: map<string, string>): map<string, string> {
    var m1 := SetOrDelete(base, SINGLE_REPLICA, Managed(c, SINGLE_REPLICA));
    var m2 := SetOrDelete(m1, SIZE_OVERRIDE, Managed(c, SIZE_OVERRIDE));
    SetOrDelete(m2, CPO_IMAGE, Managed(c, CPO_IMAGE))
  }

  function Get(m: map<string, string>, key: string): Option<string> { if key in m then Some(m[key]) else None }

  lemma SetOrDeleteGet(m: map<string, string>, key: string, value: Option<string>, k: string)
    ensures Get(SetOrDelete(m, key, value), k) == if k == key then value else Get(m, k)
  {
  }

  /** The property map that is sent: managed keys come from the config alone, every other key from
      the required properties where they name it and from the old cluster otherwise. */
  lemma PropertyLayers(c: Config, old': map<string, string>, required: map<string, string>, k: string)
    ensures Get(Overlay(c, old' + required), k) ==
            if k in MANAGED then Managed(c, k) else if k in required then Some(required[k]) else Get(old', k)
  {
    var base := old' + required;
    var m1 := SetOrDelete(base, SINGLE_REPLICA, Managed(c, SINGLE_REPLICA));
    var m2 := SetOrDelete(m1, SIZE_OVERRIDE, Managed(c, SIZE_OVERRIDE));
    SetOrDeleteGet(base, SINGLE_REPLICA, Managed(c, SINGLE_REPLICA), k);
    SetOrDeleteGet(m1, SIZE_OVERRIDE, Managed(c, SIZE_OVERRIDE), k);
    SetOrDeleteGet(m2, CPO_IMAGE, Managed(c, CPO_IMAGE), k);
    DistinctNames();
  }

  lemma DistinctNames()
    ensures SINGLE_REPLICA != SIZE_OVERRIDE && SINGLE_REPLICA != CPO_IMAGE && SIZE_OVERRIDE != CPO_IMAGE
    ensures E2E_MINIMAL != "" && ENABLED != "" && Lower(E2E_MINIMAL) == E2E_MINIMAL
    ensures ALLOW_ALL != ALLOW_LIST && CUSTOMER_MANAGED != PLATFORM_MANAGED && KMS != ""
  {
    assert |SINGLE_REPLICA| == 29 && |SIZE_OVERRIDE| == 28 && |CPO_IMAGE| == 28;
    assert SIZE_OVERRIDE[0] == 'h' && CPO_IMAGE[0] == 'c';
    LowerFixesExactlyLower(E2E_MINIMAL);
    assert CUSTOMER_MANAGED[0] == 'c' && PLATFORM_MANAGED[0] == 'p';
  }

  // ---------- what survives the property map ----------

  /** The guard a caller can read off before the write: the size is unset, or it is the only sizing
      wish and already has the form Cluster Service stores. */
  predicate SizePairSurvives(podSizing: PodSizing, size: Option<string>) {
    size.None? || (!podSizing.Minimal? && IsLower(size.value) && size.value != "" && size.value != E2E_MINIMAL)
  }

  lemma PropertiesReadBack(c: Config, base: map<string, string>)
    ensures var p := Overlay(c, base);
            && AvailabilityOf(p) == c.availability && ImageOf(p) == c.image
            && (PodSizingOf(p) == c.podSizing && SizeOf(p) == c.size <==> SizePairSurvives(c.podSizing, c.size))
            && SizeOverride(PodSizingOf(p), SizeOf(p)) ==
               (if c.size == Some("") then None else SizeOverride(c.podSizing, c.size))
  {
    var p := Overlay(c, base);
    assert base + map[] == base;
    PropertyLayers(c, base, map[], SINGLE_REPLICA);
    PropertyLayers(c, base, map[], SIZE_OVERRIDE);
    PropertyLayers(c, base, map[], CPO_IMAGE);
    DistinctNames();
    assert Get(p, SIZE_OVERRIDE) == SizeOverride(c.podSizing, c.size);
    if c.size.Some? { LowerFixesExactlyLower(c.size.value); }
  }

  /** The config as it comes back from the property map of the cluster that was written. */
  function Reprojected(c: Config, p: map<string, string>): Config {
    c.(availability := AvailabilityOf(p), podSizing := PodSizingOf(p), image := ImageOf(p), size := SizeOf(p))
  }

  /** Projecting the written properties back and writing again changes nothing exactly when the
      service provider did not ask for the empty size. */
  lemma PropertiesIdempotentExactlyWhen(c: Config, base: map<string, string>)
    ensures var p := Overlay(c, base); Overlay(Reprojected(c, p), p) == p <==> c.size != Some("")
  {
    var p := Overlay(c, base);
    var c' := Reprojected(c, p);
    var p' := Overlay(c', p);
    PropertiesReadBack(c, base);
    assert p + map[] == p && base + map[] == base;
    forall k ensures Get(p', k) == if k == SIZE_OVERRIDE && c.size == Some("") then None else Get(p, k) {
      PropertyLayers(c, base, map[], k);
      PropertyLayers(c', p, map[], k);
    }
    if c.size == Some("") {
      PropertyLayers(c, base, map[], SIZE_OVERRIDE);
      assert Get(p', SIZE_OVERRIDE) == None && Get(p, SIZE_OVERRIDE) == Some(Lower(""));
    } else {
      GetDetermines(p', p);
    }
  }

  lemma GetDetermines(m: map<string, string>, n: map<string, string>)
    requires forall k :: Get(m, k) == Get(n, k)
    ensures m == n
  {
    forall k ensures k in m <==> k in n { assert Get(m, k) == Get(n, k); }
    forall k | k in m ensures m[k] == n[k] { assert Get(m, k) == Get(n, k); }
  }

  // ---------- writing the config ----------

  const UNSET := CsCluster(None, None, None, None, None, map[], None)

  function MirrorsToCS(ms: seq<Mirror>): (r: seq<CsMirror>)
    ensures |r| == |ms|
  {
    if ms == [] then [] else [CsMirror(Some(ms[0].source), Some(ms[0].mirrors))] + MirrorsToCS(ms[1..])
  }

  function KeyVersion(c: Config): Option<string> { if c.etcd.Some? then c.etcd.value else None }

  function DrainToCS(c: Config): Value { Value(Some(MINUTES), c.drain as real) }

  /** Everything `applyToCSBuilders` sets on top of what the builders hold; the builder's properties
      are the base the experimental features are laid over. */
  function Applied(fraction: int32 -> string, c: Config, b: CsCluster): CsCluster {
    CsCluster(
      Some(DrainToCS(c)),
      Some(if c.cidrs.None? then Allow(ALLOW_ALL, None) else Allow(ALLOW_LIST, c.cidrs)),
      Some(MirrorsToCS(if c.mirrors.Some? then c.mirrors.value else [])),
      if KeyVersion(c).Some?
      then Some((if b.etcd.Some? then b.etcd.value else CsEtcd(None, "", "")).(keyVersion := KeyVersion(c).value))
      else b.etcd,
      if c.pullIdentity.Some? then Some(CsRegistry(c.pullIdentity)) else b.registry,
      Overlay(c, b.properties),
      Some(CsAutoscaler(MinutesText(fraction, c.autoscaling.maxProvisionSeconds),
                        c.autoscaling.maxPodGraceSeconds as int,
                        c.autoscaling.podPriorityThreshold as int, c.autoscaling.maxNodesTotal as int)))
  }

  class ClusterBuilder {
    var attributes: CsCluster

    constructor (start: CsCluster)
      ensures attributes == start
    {
      attributes := start;
    }

    method AppendMirrors(ms: seq<Mirror>) returns (built: seq<CsMirror>)
      ensures built == MirrorsToCS(ms)
    {
      built := [];
      for i := 0 to |ms|
        invariant built + MirrorsToCS(ms[i..]) == MirrorsToCS(ms)
      {
        built := built + [CsMirror(Some(ms[i].source), Some(ms[i].mirrors))];
        assert ms[i..][1..] == ms[i + 1..];
      }
    }

    method OverlayProperties(c: Config, base: map<string, string>) returns (properties: map<string, string>)
      ensures properties == Overlay(c, base)
    {
      DistinctNames();
      properties := base;
      if c.availability.SingleReplica? {
        properties := properties[SINGLE_REPLICA := ENABLED];
      } else {
        properties := properties - {SINGLE_REPLICA};
      }
      var override := SizeOverride(c.podSizing, c.size);
      if override.Some? {
        properties := properties[SIZE_OVERRIDE := override.value];
      } else {
        properties := properties - {SIZE_OVERRIDE};
      }
      if c.image != "" {
        properties := properties[CPO_IMAGE := c.image];
      } else {
        properties := properties - {CPO_IMAGE};
      }
    }

    /** An empty, non-nil CIDR list is an error; by then only the drain period has been written. */
    method ApplyToCSBuilders(fraction: int32 -> string, c: Config) returns (ok: bool)
      modifies this
      ensures ok <==> c.cidrs != Some([])
      ensures ok ==> attributes == Applied(fraction, c, old(attributes))
      ensures !ok ==> attributes == old(attributes).(drain := Some(DrainToCS(c)))
    {
      attributes := attributes.(drain := Some(DrainToCS(c)));
      if c.cidrs.None? {
        attributes := attributes.(allow := Some(Allow(ALLOW_ALL, None)));
      } else if |c.cidrs.value| > 0 {
        attributes := attributes.(allow := Some(Allow(ALLOW_LIST, c.cidrs)));
      } else {
        return false;
      }
      var mirrors := AppendMirrors(if c.mirrors.Some? then c.mirrors.value else []);
      attributes := attributes.(mirrors := Some(mirrors));
      if c.etcd.Some? && c.etcd.value.Some? {
        var etcd := if attributes.etcd.Some? then attributes.etcd.value else CsEtcd(None, "", "");
        attributes := attributes.(etcd := Some(etcd.(keyVersion := c.etcd.value.value)));
      }
      var properties := OverlayProperties(c, attributes.properties);
      attributes := attributes.(properties := properties);
      if c.pullIdentity.Some? {
        attributes := attributes.(registry := Some(CsRegistry(c.pullIdentity)));
      }
      attributes := attributes.(autoscaler := Some(CsAutoscaler(
        MinutesText(fraction, c.autoscaling.maxProvisionSeconds), c.autoscaling.maxPodGraceSeconds as int,
        c.autoscaling.podPriorityThreshold as int, c.autoscaling.maxNodesTotal as int)));
      ok := true;
    }
  }

  lemma {:induction false} MirrorsRoundTrip(ms: seq<Mirror>)
    ensures MirrorsOfCS(MirrorsToCS(ms)) == ms
  {
    if ms != [] {
      MirrorsRoundTrip(ms[1..]);
      assert MirrorsToCS(ms)[1..] == MirrorsToCS(ms[1..]);
      assert ms == [ms[0]] + ms[1..];
    }
  }

  /** Whole minutes need to be fewer than a million; any other time depends on the text Go prints. */
  predicate ProvisionSurvives(fraction: int32 -> string, seconds: int32) {
    if seconds as int % 60 == 0 then Abs(seconds as int / 60) < 1_000_000
    else fraction(seconds) != "" && SecondsFromText(fraction(seconds)) == Some(seconds)
  }

  lemma AutoscalingReadsBack(fraction: int32 -> string, c: Config, b: CsCluster)
    ensures AutoscalingFromCS(Applied(fraction, c, b)) == Some(c.autoscaling) <==>
            ProvisionSurvives(fraction, c.autoscaling.maxProvisionSeconds)
  {
    var a, seconds := c.autoscaling, c.autoscaling.maxProvisionSeconds;
    ConversionsFixInt32(a.maxNodesTotal);
    ConversionsFixInt32(a.maxPodGraceSeconds);
    ConversionsFixInt32(a.podPriorityThreshold);
    if seconds as int % 60 == 0 { WholeMinutesRoundTrip(fraction, seconds); }
  }

  /** Every attribute apart from etcd, the pull identity, the size pair and the provision time comes
      back as it was written. */
  lemma RestReadsBack(fraction: int32 -> string, d: Desired, b: CsCluster)
    requires d.cidrs != Some([])
    ensures var w, c := Applied(fraction, FromRP(d), b), FromRP(d);
            DrainFromCS(w) == c.drain && CidrsFromCS(w) == c.cidrs && MirrorsFromCS(w) == c.mirrors
  {
    ConversionsFixInt32(d.drain);
    MirrorsRoundTrip(d.mirrors);
    DistinctNames();
  }
}
