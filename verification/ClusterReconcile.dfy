/** The cluster dispatch loop: creating a cluster, detecting drift, sending one PATCH, and what any
    number of syncs comes to. */
module ClusterReconcile {
  import opened Options
  import opened GoValues
  import opened ClusterDispatch
  import opened ClusterConfigText

  // ---------- create ----------

  /** `convertEtcdRPToCS`; `None` is its error for an encryption type other than KMS. */
  function EtcdOnCreate(e: RpEtcd): Option<CsEtcd> {
    if e.mode.PlatformManaged? then Some(CsEtcd(Some(PLATFORM_MANAGED), "", ""))
    else if e.kms.Some? then Some(CsEtcd(Some(CUSTOMER_MANAGED), KMS, ""))
    else None
  }

  /** The builders of a new cluster before the dispatch config is applied to them. */
  function CreateBase(d: Desired, required: map<string, string>): CsCluster
    requires EtcdOnCreate(d.etcd).Some?
  {
    UNSET.(etcd := EtcdOnCreate(d.etcd), properties := required)
  }

  /** What a created cluster reads back as is what was asked for exactly when the size pair and the
      provision time survive, for every set of required properties. */
  lemma CreateReadsBackExactlyWhen(fraction: int32 -> string, d: Desired, required: map<string, string>)
    requires d.cidrs != Some([]) && EtcdOnCreate(d.etcd).Some?
    ensures FromCS(Applied(fraction, FromRP(d), CreateBase(d, required))) == Some(FromRP(d)) <==>
            SizePairSurvives(d.podSizing, d.size) && ProvisionSurvives(fraction, d.autoscaling.maxProvisionSeconds)
  {
    var c, b := FromRP(d), CreateBase(d, required);
    RestReadsBack(fraction, d, b);
    AutoscalingReadsBack(fraction, c, b);
    PropertiesReadBack(c, b.properties);
    DistinctNames();
    assert EtcdFromCS(Applied(fraction, c, b)) == c.etcd;
    assert PullIdentityFromCS(Applied(fraction, c, b)) == c.pullIdentity;
  }

  /** Asking for a million whole minutes of provision time or more makes a cluster whose
      configuration cannot be read. */
  lemma LongProvisionTimeIsUnreadable(fraction: int32 -> string, c: Config, b: CsCluster)
    requires c.autoscaling.maxProvisionSeconds as int % 60 == 0 &&
             c.autoscaling.maxProvisionSeconds as int / 60 >= 1_000_000
    ensures FromCS(Applied(fraction, c, b)) == None
  {
    WholeMinutesRoundTrip(fraction, c.autoscaling.maxProvisionSeconds);
    MinutesTextShape(fraction, c.autoscaling.maxProvisionSeconds);
  }

  // ---------- update ----------

  /** An update clears a pull identity the live cluster has by sending the empty string. */
  function UpdateConfig(d: Desired, live: CsCluster): Config {
    if d.pullIdentity.None? && live.registry.Some? then FromRP(d).(pullIdentity := Some("")) else FromRP(d)
  }

  function Payload(fraction: int32 -> string, d: Desired, live: CsCluster): CsCluster {
    Applied(fraction, UpdateConfig(d, live), UNSET.(properties := live.properties))
  }

  /** Assumption about the server, as the source describes it: attributes sent are stored and nested
      attributes not sent are kept, the property map is stored whole, and an empty pull identity
      clears the registry credentials. */
  function Patched(live: CsCluster, sent: CsCluster): CsCluster {
    CsCluster(
      if sent.drain.Some? then sent.drain else live.drain,
      if sent.allow.None? then live.allow
      else if sent.allow.value.values.None? && live.allow.Some?
           then Some(sent.allow.value.(values := live.allow.value.values))
      else sent.allow,
      if sent.mirrors.Some? then sent.mirrors else live.mirrors,
      if sent.etcd.None? then live.etcd
      else if live.etcd.Some? then Some(live.etcd.value.(keyVersion := sent.etcd.value.keyVersion))
      else sent.etcd,
      if sent.registry.None? then live.registry
      else if sent.registry.value.identity == Some("") then None
      else sent.registry,
      sent.properties,
      if sent.autoscaler.Some? then sent.autoscaler else live.autoscaler)
  }

  function AfterPatch(fraction: int32 -> string, d: Desired, live: CsCluster): CsCluster {
    Patched(live, Payload(fraction, d, live))
  }

  /** Read off before the call: nothing is asked for that Cluster Service stores differently, and
      the live cluster uses the kind of etcd encryption the resource provider believes it uses. */
  predicate Settles(fraction: int32 -> string, d: Desired, live: CsCluster) {
    && SizePairSurvives(d.podSizing, d.size)
    && ProvisionSurvives(fraction, d.autoscaling.maxProvisionSeconds)
    && (EtcdFromCS(live).Some? <==> EtcdFromRP(d.etcd).Some?)
    && d.pullIdentity != Some("")
  }

  lemma EtcdAfterPatch(fraction: int32 -> string, d: Desired, live: CsCluster)
    ensures EtcdFromCS(AfterPatch(fraction, d, live)) == EtcdFromRP(d.etcd) <==>
            (EtcdFromCS(live).Some? <==> EtcdFromRP(d.etcd).Some?)
    ensures EtcdFromCS(AfterPatch(fraction, d, live)).Some? <==> EtcdFromCS(live).Some?
  {
  }

  lemma PullIdentityAfterPatch(fraction: int32 -> string, d: Desired, live: CsCluster)
    ensures PullIdentityFromCS(AfterPatch(fraction, d, live)) == d.pullIdentity <==> d.pullIdentity != Some("")
  {
  }

  lemma RestAfterPatch(fraction: int32 -> string, d: Desired, live: CsCluster)
    requires d.cidrs != Some([])
    ensures var w, c := AfterPatch(fraction, d, live), FromRP(d);
            DrainFromCS(w) == c.drain && CidrsFromCS(w) == c.cidrs && MirrorsFromCS(w) == c.mirrors
  {
    var b := UNSET.(properties := live.properties);
    RestReadsBack(fraction, d, b);
    var w, sent := AfterPatch(fraction, d, live), Payload(fraction, d, live);
    var plain := Applied(fraction, FromRP(d), b);
    assert sent.drain == plain.drain && sent.allow == plain.allow && sent.mirrors == plain.mirrors;
    DistinctNames();
  }

  lemma ReadAfterPatch(fraction: int32 -> string, d: Desired, live: CsCluster)
    requires d.cidrs != Some([])
    ensures var read := FromCS(AfterPatch(fraction, d, live));
            && (Settles(fraction, d, live) ==> read == Some(FromRP(d)))
            && (read.Some? && SameConfig(read.value, FromRP(d)) ==> Settles(fraction, d, live))
  {
    var w, c := AfterPatch(fraction, d, live), FromRP(d);
    var sent := UpdateConfig(d, live);
    EtcdAfterPatch(fraction, d, live);
    PullIdentityAfterPatch(fraction, d, live);
    RestAfterPatch(fraction, d, live);
    AutoscalingReadsBack(fraction, sent, UNSET.(properties := live.properties));
    assert AutoscalingFromCS(w) == AutoscalingFromCS(Payload(fraction, d, live));
    PropertiesReadBack(sent, live.properties);
    assert w.properties == Overlay(sent, live.properties);
  }

  /** The controller's comparison; it needs a live cluster that can be read. */
  predicate InSync(d: Desired, live: CsCluster) {
    FromCS(live).Some? && ConfigText(FromCS(live).value) == ConfigText(FromRP(d))
  }

  predicate Agrees(d: Desired, live: CsCluster) {
    FromCS(live).Some? && SameConfig(FromCS(live).value, FromRP(d))
  }

  lemma InSyncMeansAgrees(d: Desired, live: CsCluster)
    ensures InSync(d, live) <==> Agrees(d, live)
  {
    if FromCS(live).Some? { ClusterTextExact(FromCS(live).value, FromRP(d)); }
  }

  /** One PATCH makes the live cluster read back as exactly what is desired if and only if the
      condition held before it; otherwise not even the canonical texts agree. */
  lemma OnePatchSettlesExactlyWhen(fraction: int32 -> string, d: Desired, live: CsCluster)
    requires d.cidrs != Some([])
    ensures FromCS(AfterPatch(fraction, d, live)) == Some(FromRP(d)) <==> Settles(fraction, d, live)
    ensures InSync(d, AfterPatch(fraction, d, live)) <==> Settles(fraction, d, live)
  {
    ReadAfterPatch(fraction, d, live);
    InSyncMeansAgrees(d, AfterPatch(fraction, d, live));
  }

  // ---------- the loop ----------

  /** One sync, which patches unless the sides agree; an unreadable live cluster and an empty CIDR
      list end it with an error. That the texts decide agreement is `InSyncMeansAgrees`. */
  function Synced(fraction: int32 -> string, d: Desired, live: CsCluster): CsCluster {
    if FromCS(live).None? || Agrees(d, live) || d.cidrs == Some([]) then live else AfterPatch(fraction, d, live)
  }

  function SyncedTimes(fraction: int32 -> string, d: Desired, live: CsCluster, n: nat): CsCluster
    decreases n
  {
    if n == 0 then live else SyncedTimes(fraction, d, Synced(fraction, d, live), n - 1)
  }

  /** When some number of syncs, however large, can bring the two sides together. */
  predicate Converges(fraction: int32 -> string, d: Desired, live: CsCluster) {
    Agrees(d, live) || (FromCS(live).Some? && d.cidrs != Some([]) && Settles(fraction, d, live))
  }

  lemma SyncKeepsConverges(fraction: int32 -> string, d: Desired, live: CsCluster)
    ensures Agrees(d, Synced(fraction, d, live)) <==> Converges(fraction, d, live)
    ensures Converges(fraction, d, Synced(fraction, d, live)) <==> Converges(fraction, d, live)
  {
    if FromCS(live).Some? && !Agrees(d, live) && d.cidrs != Some([]) {
      ReadAfterPatch(fraction, d, live);
      EtcdAfterPatch(fraction, d, live);
    }
  }

  lemma {:induction false} AgreesAfterSyncs(fraction: int32 -> string, d: Desired, live: CsCluster, n: nat)
    requires n > 0
    ensures Agrees(d, SyncedTimes(fraction, d, live, n)) <==> Converges(fraction, d, live)
    decreases n
  {
    var next := Synced(fraction, d, live);
    SyncKeepsConverges(fraction, d, live);
    if n > 1 {
      AgreesAfterSyncs(fraction, d, next, n - 1);
    } else {
      assert SyncedTimes(fraction, d, live, 1) == SyncedTimes(fraction, d, next, 0) == next;
    }
  }

  /** The first sync decides: after any positive number of syncs the texts are equal if and only if
      they were before or the condition held, and a cluster that does not settle at once never does. */
  lemma ConvergesExactlyWhen(fraction: int32 -> string, d: Desired, live: CsCluster, n: nat)
    requires n > 0
    ensures InSync(d, SyncedTimes(fraction, d, live, n)) <==>
            InSync(d, live) || (FromCS(live).Some? && d.cidrs != Some([]) && Settles(fraction, d, live))
  {
    InSyncMeansAgrees(d, live);
    InSyncMeansAgrees(d, SyncedTimes(fraction, d, live, n));
    AgreesAfterSyncs(fraction, d, live, n);
  }

  /** A capital letter in the service provider's size is enough to send PATCHes for ever. */
  lemma CapitalSizeNeverConverges(fraction: int32 -> string, d: Desired, live: CsCluster, n: nat)
    requires n > 0 && d.size == Some("Large") && !Agrees(d, live)
    ensures !Agrees(d, SyncedTimes(fraction, d, live, n))
  {
    assert "Large"[0] == 'L';
    AgreesAfterSyncs(fraction, d, live, n);
  }

  datatype Outcome = Quiet | Sent | Failed

  /** The comparison of canonical texts. */
  method SameText(a: Config, b: Config) returns (same: bool)
    ensures same <==> SameConfig(a, b)
  {
    ClusterTextExact(a, b);
    same := ConfigText(a) == ConfigText(b);
  }

  /** The live cluster as the controller's sync updates it. */
  class LiveCluster {
    var cluster: CsCluster

    method SyncOnce(fraction: int32 -> string, d: Desired) returns (outcome: Outcome)
      modifies this
      ensures cluster == Synced(fraction, d, old(cluster))
      ensures outcome.Quiet? <==> Agrees(d, old(cluster))
      ensures outcome.Failed? <==> FromCS(old(cluster)).None? || (!Agrees(d, old(cluster)) && d.cidrs == Some([]))
    {
      var read := FromCS(cluster);
      if read.None? { return Failed; }
      var same := SameText(read.value, FromRP(d));
      if same { return Quiet; }
      var builder := new ClusterBuilder(UNSET.(properties := cluster.properties));
      var ok := builder.ApplyToCSBuilders(fraction, UpdateConfig(d, cluster));
      if !ok { return Failed; }
      cluster := Patched(cluster, builder.attributes);
      outcome := Sent;
    }
  }
}
