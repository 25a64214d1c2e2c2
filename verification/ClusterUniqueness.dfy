/** Admission of cluster creates: the managed resource group, the subnet and the network security
    group must not be in use by any cluster of the subscription, compared without regard to case. */
module ClusterUniqueness {
  import opened Options
  import opened Text

  datatype Cluster = Cluster(resourceGroup: string, subnet: Option<string>, securityGroup: Option<string>)

  datatype Error = NoOriginal | Missing | ExistingIncomplete | InUse

  // ---------- the checks ----------

  /** `id` is given and differs from every listed one, all of which are given too. */
  ghost predicate Free(id: Option<string>, listed: seq<Option<string>>) {
    id.Some? && forall i :: 0 <= i < |listed| ==> listed[i].Some? && !EqualFold(id.value, listed[i].value)
  }

  function ResourceGroups(clusters: seq<Cluster>): (r: seq<Option<string>>)
    ensures |r| == |clusters|
  {
    seq(|clusters|, i requires 0 <= i < |clusters| => Some(clusters[i].resourceGroup))
  }

  function Subnets(clusters: seq<Cluster>): (r: seq<Option<string>>)
    ensures |r| == |clusters|
  {
    seq(|clusters|, i requires 0 <= i < |clusters| => clusters[i].subnet)
  }

  function SecurityGroups(clusters: seq<Cluster>): (r: seq<Option<string>>)
    ensures |r| == |clusters|
  {
    seq(|clusters|, i requires 0 <= i < |clusters| => clusters[i].securityGroup)
  }

  /** `original` says whether the request carries the cluster it is about; without it a create fails. */
  method AdmitManagedResourceGroup(create: bool, original: bool, c: Cluster, clusters: seq<Cluster>)
    returns (errs: seq<Error>)
    ensures errs == [] <==>
            (create ==> original && c.resourceGroup != "" && Free(Some(c.resourceGroup), ResourceGroups(clusters)))
    ensures NoOriginal in errs <==> create && !original
  {
    errs := [];
    if !create { return; }
    if !original { return [NoOriginal]; }
    if c.resourceGroup == "" { return [Missing]; }
    for i := 0 to |clusters|
      invariant errs == [] && forall k :: 0 <= k < i ==> !EqualFold(c.resourceGroup, clusters[k].resourceGroup)
    {
      if EqualFold(c.resourceGroup, clusters[i].resourceGroup) {
        errs := errs + [InUse];
        assert ResourceGroups(clusters)[i] == Some(clusters[i].resourceGroup);
        break;
      }
    }
  }

  /** The loop shared by the subnet and security group checks: an incomplete entry is reported and
      passed over, the first clash ends the loop. */
  method CompareIDs(id: string, listed: seq<Option<string>>) returns (errs: seq<Error>)
    ensures errs == [] <==> Free(Some(id), listed)
  {
    errs := [];
    for i := 0 to |listed|
      invariant errs == [] <==> forall k :: 0 <= k < i ==> listed[k].Some? && !EqualFold(id, listed[k].value)
    {
      if listed[i].None? {
        errs := errs + [ExistingIncomplete];
        continue;
      }
      if EqualFold(id, listed[i].value) {
        errs := errs + [InUse];
        break;
      }
    }
  }

  /** The subnet is compared with those of clusters and of node pools. */
  method AdmitSubnet(create: bool, c: Cluster, clusters: seq<Cluster>, nodePoolSubnets: seq<Option<string>>)
    returns (errs: seq<Error>)
    ensures errs == [] <==> (create ==> Free(c.subnet, Subnets(clusters)) && Free(c.subnet, nodePoolSubnets))
  {
    if !create { return []; }
    if c.subnet.None? { return [Missing]; }
    var fromClusters := CompareIDs(c.subnet.value, Subnets(clusters));
    var fromPools := CompareIDs(c.subnet.value, nodePoolSubnets);
    errs := fromClusters + fromPools;
  }

  method AdmitSecurityGroup(create: bool, c: Cluster, clusters: seq<Cluster>) returns (errs: seq<Error>)
    ensures errs == [] <==> (create ==> Free(c.securityGroup, SecurityGroups(clusters)))
  {
    if !create { return []; }
    if c.securityGroup.None? { return [Missing]; }
    errs := CompareIDs(c.securityGroup.value, SecurityGroups(clusters));
  }

  /** The three checks on a create that carries its cluster. */
  ghost predicate CreateAdmitted(c: Cluster, clusters: seq<Cluster>, nodePoolSubnets: seq<Option<string>>) {
    && c.resourceGroup != "" && Free(Some(c.resourceGroup), ResourceGroups(clusters))
    && Free(c.subnet, Subnets(clusters)) && Free(c.subnet, nodePoolSubnets)
    && Free(c.securityGroup, SecurityGroups(clusters))
  }

  // ---------- runs ----------

  predicate Complete(c: Cluster) { c.resourceGroup != "" && c.subnet.Some? && c.securityGroup.Some? }

  /** Neither cluster uses anything of the other's. */
  predicate Apart(a: Cluster, b: Cluster)
    requires Complete(a) && Complete(b)
  {
    && !EqualFold(a.resourceGroup, b.resourceGroup)
    && !EqualFold(a.subnet.value, b.subnet.value)
    && !EqualFold(a.securityGroup.value, b.securityGroup.value)
  }

  ghost predicate Unique(clusters: seq<Cluster>) {
    && (forall i :: 0 <= i < |clusters| ==> Complete(clusters[i]))
    && (forall i, j :: 0 <= i < |clusters| && 0 <= j < |clusters| && i != j ==> Apart(clusters[i], clusters[j]))
  }

  /** A create with the node pool subnets listed for it, an update, a deletion. */
  datatype Request =
    | Create(cluster: Cluster, nodePoolSubnets: seq<Option<string>>)
    | Update(index: nat, wanted: Cluster)
    | Delete(index: nat)

  /** Static validation keeps the three attributes immutable on update. */
  ghost predicate Accepted(clusters: seq<Cluster>, r: Request) {
    match r
    case Create(c, pools) => CreateAdmitted(c, clusters, pools)
    case Update(i, wanted) => i < |clusters| && wanted == clusters[i]
    case Delete(i) => i < |clusters|
  }

  function Apply(clusters: seq<Cluster>, r: Request): seq<Cluster>
    requires r.Create? || r.index < |clusters|
  {
    match r
    case Create(c, _) => clusters + [c]
    case Update(i, wanted) => clusters[i := wanted]
    case Delete(i) => clusters[..i] + clusters[i + 1..]
  }

  ghost predicate Run(clusters: seq<Cluster>, rs: seq<Request>)
    decreases |rs|
  {
    rs == [] || (Accepted(clusters, rs[0]) && Run(Apply(clusters, rs[0]), rs[1..]))
  }

  ghost function End(clusters: seq<Cluster>, rs: seq<Request>): seq<Cluster>
    requires Run(clusters, rs)
    decreases |rs|
  {
    if rs == [] then clusters else End(Apply(clusters, rs[0]), rs[1..])
  }

  lemma FoldSymmetric(a: string, b: string)
    ensures EqualFold(a, b) <==> EqualFold(b, a)
  {
  }

  lemma ApartSymmetric(a: Cluster, b: Cluster)
    requires Complete(a) && Complete(b)
    ensures Apart(a, b) <==> Apart(b, a)
  {
    FoldSymmetric(a.resourceGroup, b.resourceGroup);
    FoldSymmetric(a.subnet.value, b.subnet.value);
    FoldSymmetric(a.securityGroup.value, b.securityGroup.value);
  }

  /** The three checks together compare the new cluster with each listed one. */
  lemma CreateAdmittedMeansApart(c: Cluster, clusters: seq<Cluster>, nodePoolSubnets: seq<Option<string>>)
    requires Unique(clusters)
    ensures CreateAdmitted(c, clusters, nodePoolSubnets) <==>
            && Complete(c) && Free(c.subnet, nodePoolSubnets)
            && forall i :: 0 <= i < |clusters| ==> Apart(c, clusters[i])
  {
    if CreateAdmitted(c, clusters, nodePoolSubnets) {
      forall i | 0 <= i < |clusters| ensures Apart(c, clusters[i]) {
        assert ResourceGroups(clusters)[i] == Some(clusters[i].resourceGroup);
        assert Subnets(clusters)[i] == clusters[i].subnet && SecurityGroups(clusters)[i] == clusters[i].securityGroup;
      }
    }
    if Complete(c) && forall i :: 0 <= i < |clusters| ==> Apart(c, clusters[i]) {
      assert Free(Some(c.resourceGroup), ResourceGroups(clusters));
      assert Free(c.subnet, Subnets(clusters)) && Free(c.securityGroup, SecurityGroups(clusters));
    }
  }

  /** On a listing without clashes a create is admitted exactly when the clusters stay without
      clashes and no listed node pool uses the subnet. */
  lemma CreateAdmittedExactlyWhen(c: Cluster, clusters: seq<Cluster>, nodePoolSubnets: seq<Option<string>>)
    requires Unique(clusters)
    ensures CreateAdmitted(c, clusters, nodePoolSubnets) <==> Unique(clusters + [c]) && Free(c.subnet, nodePoolSubnets)
  {
    var after, n := clusters + [c], |clusters|;
    CreateAdmittedMeansApart(c, clusters, nodePoolSubnets);
    if CreateAdmitted(c, clusters, nodePoolSubnets) {
      forall i, j | 0 <= i < |after| && 0 <= j < |after| && i != j ensures Apart(after[i], after[j]) {
        if j == n { ApartSymmetric(c, clusters[i]); }
      }
    }
    if Unique(after) {
      assert after[n] == c;
      forall i | 0 <= i < n ensures Apart(c, clusters[i]) { assert after[i] == clusters[i]; }
    }
  }

  lemma DeleteKeepsUnique(clusters: seq<Cluster>, at: nat)
    requires Unique(clusters) && at < |clusters|
    ensures Unique(clusters[..at] + clusters[at + 1..])
  {
    var after := clusters[..at] + clusters[at + 1..];
    assert forall i :: 0 <= i < |after| ==> after[i] == clusters[if i < at then i else i + 1];
    forall i, j | 0 <= i < |after| && 0 <= j < |after| && i != j ensures Apart(after[i], after[j]) {
      var i', j' := if i < at then i else i + 1, if j < at then j else j + 1;
      assert Apart(clusters[i'], clusters[j']);
    }
  }

  lemma StepKeepsUnique(clusters: seq<Cluster>, r: Request)
    requires Unique(clusters) && Accepted(clusters, r)
    ensures Unique(Apply(clusters, r))
  {
    match r
    case Create(c, pools) => CreateAdmittedExactlyWhen(c, clusters, pools);
    case Update(i, wanted) => assert clusters[i := wanted] == clusters;
    case Delete(at) => DeleteKeepsUnique(clusters, at);
  }

  /** Every run of accepted requests keeps resource groups, subnets and security groups pairwise
      distinct across the subscription. */
  lemma {:induction false} RunKeepsUnique(clusters: seq<Cluster>, rs: seq<Request>)
    requires Unique(clusters) && Run(clusters, rs)
    ensures Unique(End(clusters, rs))
    decreases |rs|
  {
    if rs != [] {
      StepKeepsUnique(clusters, rs[0]);
      RunKeepsUnique(Apply(clusters, rs[0]), rs[1..]);
    }
  }

  /** Two creates judged on one listing both get in, and clash exactly when they share something. */
  lemma StaleCreatesClashExactlyWhen(a: Cluster, b: Cluster, clusters: seq<Cluster>,
                                     nodePoolSubnets: seq<Option<string>>)
    requires Unique(clusters) && CreateAdmitted(a, clusters, nodePoolSubnets) &&
             CreateAdmitted(b, clusters, nodePoolSubnets)
    ensures Complete(a) && Complete(b) && (Unique(clusters + [a] + [b]) <==> Apart(a, b))
  {
    CreateAdmittedMeansApart(a, clusters, nodePoolSubnets);
    CreateAdmittedMeansApart(b, clusters, nodePoolSubnets);
    CreateAdmittedExactlyWhen(a, clusters, nodePoolSubnets);
    CreateAdmittedMeansApart(b, clusters + [a], nodePoolSubnets);
    CreateAdmittedExactlyWhen(b, clusters + [a], nodePoolSubnets);
    ApartSymmetric(a, b);
    assert (clusters + [a])[|clusters|] == a;
    assert forall i :: 0 <= i < |clusters| ==> (clusters + [a])[i] == clusters[i];
  }

  /** The race the source concedes: one complete cluster created twice on an empty listing. */
  lemma StaleCreatesClash(c: Cluster)
    requires Complete(c)
    ensures CreateAdmitted(c, [], []) && !Unique([c] + [c])
  {
    var none: seq<Cluster> := [];
    assert none + [c] + [c] == [c] + [c];
    StaleCreatesClashExactlyWhen(c, c, none, []);
  }
}
