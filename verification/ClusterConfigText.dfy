/** The canonical text of a cluster dispatch config, which the dispatch controller compares and hashes. */
module ClusterConfigText {
  import opened Options
  import opened CanonicalJson
  import opened ClusterDispatch

  function ListOf<T>(o: Option<seq<T>>): seq<T> { if o.Some? then o.value else [] }

  /** Equality after identifying nil with empty lists; a nil pointer is not a pointer to an empty string. */
  predicate SameConfig(a: Config, b: Config) {
    && a.drain == b.drain && ListOf(a.cidrs) == ListOf(b.cidrs) && ListOf(a.mirrors) == ListOf(b.mirrors)
    && a.autoscaling == b.autoscaling
    && a.availability == b.availability && a.podSizing == b.podSizing && a.image == b.image
    && a.size == b.size && a.etcd == b.etcd && a.pullIdentity == b.pullIdentity
  }

  function MirrorMembers(m: Mirror): seq<Member> {
    [Member("source", StrMember(m.source)), Member("mirrors", ListMember(StrItems(m.mirrors)))]
  }

  function MirrorItems(ms: seq<Mirror>): (r: seq<Json>)
    ensures |r| == |ms|
  {
    seq(|ms|, i requires 0 <= i < |ms| => Struct(MirrorMembers(ms[i])))
  }

  function AutoscalingMembers(a: Autoscaling): seq<Member> {
    [Member("maxNodesTotal", NumMember(a.maxNodesTotal as int)),
     Member("maxPodGracePeriodSeconds", NumMember(a.maxPodGraceSeconds as int)),
     Member("maxNodeProvisionTimeSeconds", NumMember(a.maxProvisionSeconds as int)),
     Member("podPriorityThreshold", NumMember(a.podPriorityThreshold as int))]
  }

  function AvailabilityText(a: Availability): string { if a.SingleReplica? then "SingleReplica" else "" }
  function PodSizingText(p: PodSizing): string { if p.Minimal? then "Minimal" else "" }

  function ExperimentalMembers(c: Config): seq<Member> {
    [Member("controlPlaneAvailability", StrMember(AvailabilityText(c.availability))),
     Member("controlPlanePodSizing", StrMember(PodSizingText(c.podSizing))),
     Member("controlPlaneOperatorImage", StrMember(c.image))]
  }

  function SizeStruct(size: Option<string>): Json {
    Struct([Member("desiredHostedClusterControlPlaneSize", PointerMember(size))])
  }

  function ActiveKeyStruct(version: string): Json {
    Struct([Member("activeKey", Some(Struct([Member("version", StrMember(version))])))])
  }

  function KmsStruct(kms: Option<string>): Json {
    Struct([Member("kms", if kms.None? then None else Some(ActiveKeyStruct(kms.value)))])
  }

  function EtcdStruct(etcd: Option<Option<string>>): Json {
    var customerManaged := if etcd.None? then None else Some(KmsStruct(etcd.value));
    Struct([Member("dataEncryption", Some(Struct([Member("customerManaged", customerManaged)])))])
  }

  function FirstMembers(c: Config): seq<Member> {
    [Member("nodeDrainTimeoutMinutes", NumMember(c.drain as int)),
     Member("k8sAPIServerAuthorizedCIDRs", ListMember(StrItems(ListOf(c.cidrs)))),
     Member("imageDigestMirrors", ListMember(MirrorItems(ListOf(c.mirrors)))),
     Member("autoscaling", Some(Struct(AutoscalingMembers(c.autoscaling))))]
  }

  function LastMembers(c: Config): seq<Member> {
    [Member("experimentalFeatures", Some(Struct(ExperimentalMembers(c)))),
     Member("serviceProviderClusterDispatch", Some(SizeStruct(c.size))),
     Member("etcd", Some(EtcdStruct(c.etcd))),
     Member("containerRegistryPullManagedIdentityResourceID", PointerMember(c.pullIdentity))]
  }

  /** The struct in declaration order. `omitempty` drops empty scalars, lists and nil pointers, but
      never a nested struct. */
  function ConfigMembers(c: Config): seq<Member> {
    FirstMembers(c) + LastMembers(c)
  }

  function ConfigText(c: Config): string { CanonicalText(Struct(ConfigMembers(c))) }

  lemma MirrorEqual(a: Mirror, b: Mirror)
    ensures SortKeys(Struct(MirrorMembers(a))) == SortKeys(Struct(MirrorMembers(b))) <==> a == b
  {
    var p, q := MirrorMembers(a), MirrorMembers(b);
    StructsEqual(p, q);
    StrListsEqual(a.mirrors, b.mirrors);
    MembersAgreeCons(p, q);
    MembersAgreeCons(p[1..], q[1..]);
  }

  lemma MirrorListsEqual(a: seq<Mirror>, b: seq<Mirror>)
    ensures SortOption(ListMember(MirrorItems(a))) == SortOption(ListMember(MirrorItems(b))) <==> a == b
  {
    ItemsEqual(MirrorItems(a), MirrorItems(b));
    if |a| == |b| {
      forall i | 0 <= i < |a| ensures SortKeys(MirrorItems(a)[i]) == SortKeys(MirrorItems(b)[i]) <==> a[i] == b[i] {
        MirrorEqual(a[i], b[i]);
      }
    }
  }

  lemma AutoscalingEqual(a: Autoscaling, b: Autoscaling)
    ensures SortKeys(Struct(AutoscalingMembers(a))) == SortKeys(Struct(AutoscalingMembers(b))) <==> a == b
  {
    var p, q := AutoscalingMembers(a), AutoscalingMembers(b);
    StructsEqual(p, q);
    MembersAgreeFour(p, q);
  }

  lemma ExperimentalEqual(a: Config, b: Config)
    ensures SortKeys(Struct(ExperimentalMembers(a))) == SortKeys(Struct(ExperimentalMembers(b))) <==>
            a.availability == b.availability && a.podSizing == b.podSizing && a.image == b.image
  {
    var p, q := ExperimentalMembers(a), ExperimentalMembers(b);
    StructsEqual(p, q);
    MembersAgreeCons(p, q);
    MembersAgreeCons(p[1..], q[1..]);
    MembersAgreeCons(p[1..][1..], q[1..][1..]);
  }

  lemma KmsEqual(a: Option<string>, b: Option<string>)
    ensures SortKeys(KmsStruct(a)) == SortKeys(KmsStruct(b)) <==> a == b
  {
    var x := if a.None? then None else Some(ActiveKeyStruct(a.value));
    var y := if b.None? then None else Some(ActiveKeyStruct(b.value));
    SingleFieldStructsEqual("kms", x, y);
    if a.Some? && b.Some? {
      SingleFieldStructsEqual("version", StrMember(a.value), StrMember(b.value));
      SingleFieldStructsEqual("activeKey", Some(Struct([Member("version", StrMember(a.value))])),
                              Some(Struct([Member("version", StrMember(b.value))])));
    }
  }

  lemma EtcdEqual(a: Option<Option<string>>, b: Option<Option<string>>)
    ensures SortKeys(EtcdStruct(a)) == SortKeys(EtcdStruct(b)) <==> a == b
  {
    var x := if a.None? then None else Some(KmsStruct(a.value));
    var y := if b.None? then None else Some(KmsStruct(b.value));
    SingleFieldStructsEqual("customerManaged", x, y);
    SingleFieldStructsEqual("dataEncryption", Some(Struct([Member("customerManaged", x)])),
                            Some(Struct([Member("customerManaged", y)])));
    if a.Some? && b.Some? { KmsEqual(a.value, b.value); }
  }

  lemma ConfigShape(a: Config, b: Config)
    ensures SameShape(ConfigMembers(a), ConfigMembers(b))
  {
  }

  lemma FirstMembersAgree(a: Config, b: Config)
    ensures MembersAgree(FirstMembers(a), FirstMembers(b)) <==>
            && a.drain == b.drain && ListOf(a.cidrs) == ListOf(b.cidrs) && ListOf(a.mirrors) == ListOf(b.mirrors)
            && a.autoscaling == b.autoscaling
  {
    var p, q := FirstMembers(a), FirstMembers(b);
    StrListsEqual(ListOf(a.cidrs), ListOf(b.cidrs));
    MirrorListsEqual(ListOf(a.mirrors), ListOf(b.mirrors));
    AutoscalingEqual(a.autoscaling, b.autoscaling);
    MembersAgreeFour(p, q);
  }

  lemma LastMembersAgree(a: Config, b: Config)
    ensures MembersAgree(LastMembers(a), LastMembers(b)) <==>
            && a.availability == b.availability && a.podSizing == b.podSizing && a.image == b.image
            && a.size == b.size && a.etcd == b.etcd && a.pullIdentity == b.pullIdentity
  {
    var p, q := LastMembers(a), LastMembers(b);
    ExperimentalEqual(a, b);
    SizeEqual(a.size, b.size);
    EtcdEqual(a.etcd, b.etcd);
    MembersAgreeFour(p, q);
  }

  lemma SizeEqual(a: Option<string>, b: Option<string>)
    ensures SortKeys(SizeStruct(a)) == SortKeys(SizeStruct(b)) <==> a == b
  {
    SingleFieldStructsEqual("desiredHostedClusterControlPlaneSize", PointerMember(a), PointerMember(b));
  }

  /** Two cluster configs have one canonical text if and only if they are equal up to nil against empty lists. */
  lemma ClusterTextExact(a: Config, b: Config)
    ensures ConfigText(a) == ConfigText(b) <==> SameConfig(a, b)
  {
    ConfigShape(a, b);
    StructTextsEqual(ConfigMembers(a), ConfigMembers(b));
    MembersAgreeAppend(FirstMembers(a), FirstMembers(b), LastMembers(a), LastMembers(b));
    FirstMembersAgree(a, b);
    LastMembersAgree(a, b);
  }
}
