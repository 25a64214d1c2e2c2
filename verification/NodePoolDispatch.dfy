/** Update dispatch of node pools: desired state and the live Cluster Service node pool are
    projected into one config, the canonical texts are compared, and a PATCH is sent on drift. */
module NodePoolDispatch {
  import opened Options
  import opened Text
  import opened CanonicalJson
  import opened GoValues

  // ---------- the three representations ----------

  datatype Taint = Taint(effect: string, key: string, value: string)
  datatype AutoScaling = AutoScaling(min: int32, max: int32)

  /** The resource provider's node pool. */
  datatype Desired = Desired(labels: Option<map<string, string>>, taints: seq<Taint>, drain: Option<int32>,
                             autoScaling: Option<AutoScaling>, replicas: int32)

  datatype CsAutoscaling = CsAutoscaling(minReplica: int, maxReplica: int)
  datatype CsTaint = CsTaint(effect: string, key: string, value: string)

  /** The Cluster Service node pool. A builder has the same attributes: `None` is one never set. */
  datatype CsPool = CsPool(labels: Option<map<string, string>>, replicas: Option<int>,
                           autoscaling: Option<CsAutoscaling>,
                           taints: Option<seq<CsTaint>>, drain: Option<Value>)

  datatype Config = Config(labels: Option<map<string, string>>, replicas: int32, autoScaling: Option<AutoScaling>,
                           taints: Option<seq<Taint>>, drain: Option<int32>)

  // ---------- projections ----------

  function FromRP(d: Desired): Config {
    Config(d.labels,
           if d.autoScaling.Some? then 0 else d.replicas,
           d.autoScaling,
           if d.taints == [] then None else Some(d.taints),
           d.drain)
  }

  function DrainFromCS(pool: CsPool): Option<int32> {
    if pool.drain.Some? && pool.drain.value.unit == Some(MINUTES) then Some(Truncate(pool.drain.value.amount)) else None
  }

  function TaintFromCS(t: CsTaint): Taint { Taint(t.effect, t.key, t.value) }
  function TaintToCS(t: Taint): CsTaint { CsTaint(t.effect, t.key, t.value) }

  function TaintsToCS(ts: seq<Taint>): (r: seq<CsTaint>)
    ensures |r| == |ts|
  {
    seq(|ts|, i requires 0 <= i < |ts| => TaintToCS(ts[i]))
  }

  function AutoScalingToCS(a: AutoScaling): CsAutoscaling { CsAutoscaling(a.min as int, a.max as int) }

  function TaintsOfCS(ts: seq<CsTaint>): (r: seq<Taint>)
    ensures |r| == |ts|
  {
    seq(|ts|, i requires 0 <= i < |ts| => TaintFromCS(ts[i]))
  }

  function TaintsFromCS(pool: CsPool): Option<seq<Taint>> {
    if pool.taints.None? || pool.taints.value == [] then None else Some(TaintsOfCS(pool.taints.value))
  }

  function FromCS(pool: CsPool): Config {
    Config(pool.labels,
           if pool.autoscaling.Some? then 0 else ToInt32(if pool.replicas.Some? then pool.replicas.value else 0),
           if pool.autoscaling.Some?
           then Some(AutoScaling(ToInt32(pool.autoscaling.value.minReplica),
                                 ToInt32(pool.autoscaling.value.maxReplica)))
           else None,
           TaintsFromCS(pool),
           DrainFromCS(pool))
  }

  /** Both sides of the comparison; without a desired override the live drain timeout is taken out. */
  function ForDiff(d: Desired, pool: CsPool): (Config, Config) {
    var actual := FromCS(pool);
    (FromRP(d), if d.drain.None? then actual.(drain := None) else actual)
  }

  function EffectiveDrain(d: Desired, pool: CsPool): Option<int32> {
    if d.drain.Some? then d.drain else DrainFromCS(pool)
  }

  /** The append loop that copies Cluster Service taints. */
  method CopyTaints(ts: seq<CsTaint>) returns (out: seq<Taint>)
    ensures out == TaintsOfCS(ts)
  {
    out := [];
    for i := 0 to |ts|
      invariant |out| == i && forall k :: 0 <= k < i ==> out[k] == TaintFromCS(ts[k])
    {
      out := out + [TaintFromCS(ts[i])];
    }
  }

  // ---------- canonical text ----------

  function Labels(c: Config): map<string, string> { if c.labels.Some? then c.labels.value else map[] }
  function Taints(c: Config): seq<Taint> { if c.taints.Some? then c.taints.value else [] }

  /** Equality after identifying nil with empty lists and maps; nil pointers keep their own identity. */
  predicate SameConfig(a: Config, b: Config) {
    && Labels(a) == Labels(b) && a.replicas == b.replicas && a.autoScaling == b.autoScaling
    && Taints(a) == Taints(b) && a.drain == b.drain
  }

  function AutoScalingMembers(s: AutoScaling): seq<Member> {
    [Member("min", NumMember(s.min as int)), Member("max", NumMember(s.max as int))]
  }

  function TaintMembers(t: Taint): seq<Member> {
    [Member("effect", StrMember(t.effect)), Member("key", StrMember(t.key)), Member("value", StrMember(t.value))]
  }

  function TaintItems(ts: seq<Taint>): (r: seq<Json>)
    ensures |r| == |ts|
  {
    seq(|ts|, i requires 0 <= i < |ts| => Struct(TaintMembers(ts[i])))
  }

  function LabelsMember(m: map<string, string>, order: seq<string>): Option<Json>
    requires forall k :: k in order ==> k in m
  {
    if m == map[] then None else Some(Obj(MapFields(m, order)))
  }

  function AutoScalingMember(s: Option<AutoScaling>): Option<Json> {
    if s.None? then None else Some(Struct(AutoScalingMembers(s.value)))
  }

  function DrainMember(d: Option<int32>): Option<Json> {
    if d.None? then None else Some(Num(d.value as int))
  }

  /** The struct in declaration order; `order` is the order the encoder walks the labels in. */
  function ConfigMembers(c: Config, order: seq<string>): seq<Member>
    requires forall k :: k in order ==> k in Labels(c)
  {
    [Member("labels", LabelsMember(Labels(c), order)),
     Member("replicas", NumMember(c.replicas as int)),
     Member("autoScaling", AutoScalingMember(c.autoScaling)),
     Member("taints", ListMember(TaintItems(Taints(c)))),
     Member("nodeDrainTimeoutMinutes", DrainMember(c.drain))]
  }

  lemma AutoScalingEqual(a: AutoScaling, b: AutoScaling)
    ensures SortKeys(Struct(AutoScalingMembers(a))) == SortKeys(Struct(AutoScalingMembers(b))) <==> a == b
  {
    var p, q := AutoScalingMembers(a), AutoScalingMembers(b);
    StructsEqual(p, q);
    assert MembersAgree(p, q) <==>
           SortOption(p[0].value) == SortOption(q[0].value) && SortOption(p[1].value) == SortOption(q[1].value);
  }

  lemma TaintEqual(a: Taint, b: Taint)
    ensures SortKeys(Struct(TaintMembers(a))) == SortKeys(Struct(TaintMembers(b))) <==> a == b
  {
    var p, q := TaintMembers(a), TaintMembers(b);
    StructsEqual(p, q);
    assert MembersAgree(p, q) <==>
      SortOption(p[0].value) == SortOption(q[0].value) && SortOption(p[1].value) == SortOption(q[1].value) &&
      SortOption(p[2].value) == SortOption(q[2].value);
  }

  lemma TaintListsEqual(a: seq<Taint>, b: seq<Taint>)
    ensures SortItems(TaintItems(a)) == SortItems(TaintItems(b)) <==> a == b
  {
    ItemsEqual(TaintItems(a), TaintItems(b));
    if |a| == |b| {
      forall i | 0 <= i < |a| ensures SortKeys(TaintItems(a)[i]) == SortKeys(TaintItems(b)[i]) <==> a[i] == b[i] {
        TaintEqual(a[i], b[i]);
      }
    }
  }

  lemma LabelsMemberEqual(m: map<string, string>, mo: seq<string>, n: map<string, string>, no: seq<string>)
    requires Enumerates(mo, m) && Enumerates(no, n)
    ensures SortOption(LabelsMember(m, mo)) == SortOption(LabelsMember(n, no)) <==> m == n
  {
    MapsEqual(m, mo, n, no);
  }

  lemma AutoScalingMemberEqual(a: Option<AutoScaling>, b: Option<AutoScaling>)
    ensures SortOption(AutoScalingMember(a)) == SortOption(AutoScalingMember(b)) <==> a == b
  {
    if a.Some? && b.Some? { AutoScalingEqual(a.value, b.value); }
  }

  lemma TaintsMemberEqual(a: seq<Taint>, b: seq<Taint>)
    ensures SortOption(ListMember(TaintItems(a))) == SortOption(ListMember(TaintItems(b))) <==> a == b
  {
    TaintListsEqual(a, b);
  }

  lemma ConfigShape(a: Config, ao: seq<string>, b: Config, bo: seq<string>)
    requires Enumerates(ao, Labels(a)) && Enumerates(bo, Labels(b))
    ensures SameShape(ConfigMembers(a, ao), ConfigMembers(b, bo))
  {
  }

  lemma ConfigMembersAgree(a: Config, ao: seq<string>, b: Config, bo: seq<string>)
    requires Enumerates(ao, Labels(a)) && Enumerates(bo, Labels(b))
    ensures MembersAgree(ConfigMembers(a, ao), ConfigMembers(b, bo)) <==>
            && SortOption(LabelsMember(Labels(a), ao)) == SortOption(LabelsMember(Labels(b), bo))
            && SortOption(NumMember(a.replicas as int)) == SortOption(NumMember(b.replicas as int))
            && SortOption(AutoScalingMember(a.autoScaling)) == SortOption(AutoScalingMember(b.autoScaling))
            && SortOption(ListMember(TaintItems(Taints(a)))) == SortOption(ListMember(TaintItems(Taints(b))))
            && SortOption(DrainMember(a.drain)) == SortOption(DrainMember(b.drain))
  {
    var p, q := ConfigMembers(a, ao), ConfigMembers(b, bo);
    MembersAgreeCons(p, q);
    MembersAgreeFour(p[1..], q[1..]);
  }

  /** The comparison the controller makes is exact: two configs have one canonical text if and only
      if they are equal up to nil against empty, in whatever order their label maps are walked. */
  lemma CanonicalTextExact(a: Config, ao: seq<string>, b: Config, bo: seq<string>)
    requires Enumerates(ao, Labels(a)) && Enumerates(bo, Labels(b))
    ensures CanonicalText(Struct(ConfigMembers(a, ao))) == CanonicalText(Struct(ConfigMembers(b, bo))) <==>
            SameConfig(a, b)
  {
    ConfigShape(a, ao, b, bo);
    StructTextsEqual(ConfigMembers(a, ao), ConfigMembers(b, bo));
    ConfigMembersAgree(a, ao, b, bo);
    LabelsMemberEqual(Labels(a), ao, Labels(b), bo);
    AutoScalingMemberEqual(a.autoScaling, b.autoScaling);
    TaintsMemberEqual(Taints(a), Taints(b));
  }

  ghost function ConfigText(c: Config): string {
    var order := SortedKeys(Labels(c).Keys);
    assert forall k :: k in order <==> k in Elements(order);
    CanonicalText(Struct(ConfigMembers(c, order)))
  }

  lemma ConfigTextExact(a: Config, b: Config)
    ensures ConfigText(a) == ConfigText(b) <==> SameConfig(a, b)
  {
    var ao, bo := SortedKeys(Labels(a).Keys), SortedKeys(Labels(b).Keys);
    assert forall k :: k in ao <==> k in Elements(ao);
    assert forall k :: k in bo <==> k in Elements(bo);
    CanonicalTextExact(a, ao, b, bo);
  }

  /** What the controller decides on: the two canonical texts differ. */
  ghost predicate Drift(d: Desired, pool: CsPool) {
    ConfigText(ForDiff(d, pool).0) != ConfigText(ForDiff(d, pool).1)
  }

  /** Equal sides mean that the drain timeout the reconciler expects is the live one. */
  lemma NoDriftMeansEffectiveDrainIsLive(d: Desired, pool: CsPool)
    requires !Drift(d, pool)
    ensures EffectiveDrain(d, pool) == DrainFromCS(pool)
  {
    ConfigTextExact(ForDiff(d, pool).0, ForDiff(d, pool).1);
  }

  // ---------- the PATCH ----------

  const UNSET := CsPool(None, None, None, None, None)

  /** The attributes `applyToCSBuilder` sets, on top of those the builder already has. */
  function Applied(c: Config, b: CsPool): CsPool {
    b.(labels := c.labels,
       autoscaling := if c.autoScaling.Some? then Some(AutoScalingToCS(c.autoScaling.value)) else b.autoscaling,
       replicas := if c.autoScaling.Some? then b.replicas else Some(c.replicas as int),
       taints := if c.taints.Some? then Some(TaintsToCS(c.taints.value)) else b.taints,
       drain := if c.drain.Some? then Some(Value(Some(MINUTES), c.drain.value as real)) else b.drain)
  }

  class PoolBuilder {
    var attributes: CsPool

    constructor ()
      ensures attributes == UNSET
    {
      attributes := UNSET;
    }

    method Apply(c: Config)
      modifies this
      ensures attributes == Applied(c, old(attributes))
    {
      attributes := attributes.(labels := c.labels);
      if c.autoScaling.Some? {
        attributes := attributes.(autoscaling := Some(AutoScalingToCS(c.autoScaling.value)));
      } else {
        attributes := attributes.(replicas := Some(c.replicas as int));
      }
      if c.taints.Some? {
        var built: seq<CsTaint> := [];
        for i := 0 to |c.taints.value|
          invariant |built| == i && forall k :: 0 <= k < i ==> built[k] == TaintToCS(c.taints.value[k])
        {
          built := built + [TaintToCS(c.taints.value[i])];
        }
        assert built == TaintsToCS(c.taints.value);
        attributes := attributes.(taints := Some(built));
      }
      if c.drain.Some? {
        attributes := attributes.(drain := Some(Value(Some(MINUTES), c.drain.value as real)));
      }
    }
  }

  /** How Cluster Service treats a label object it is sent. The repository does not show the server,
      so every result below is given for each of the three readings. */
  datatype LabelPatch = ReplaceUnlessEmpty | Replace | MergeKeys

  /** Assumption about the server: attributes that were sent are stored, the others are kept, and a
      fixed size and autoscaling clear each other. */
  function Patched(mode: LabelPatch, live: CsPool, sent: CsPool): CsPool {
    CsPool(
      if sent.labels.None? then live.labels
      else match mode
           case ReplaceUnlessEmpty => if sent.labels.value == map[] then live.labels else sent.labels
           case Replace => sent.labels
           case MergeKeys => Some((if live.labels.Some? then live.labels.value else map[]) + sent.labels.value),
      if sent.replicas.Some? then sent.replicas else if sent.autoscaling.Some? then None else live.replicas,
      if sent.autoscaling.Some? then sent.autoscaling else if sent.replicas.Some? then None else live.autoscaling,
      if sent.taints.Some? then sent.taints else live.taints,
      if sent.drain.Some? then sent.drain else live.drain)
  }

  /** Read off the two states before the call: no label or taint has to be emptied by omission. */
  predicate Settles(mode: LabelPatch, d: Desired, live: CsPool) {
    var wanted, present := Labels(FromRP(d)), Labels(FromCS(live));
    && match mode {
         case ReplaceUnlessEmpty => wanted != map[] || present == map[]
         case Replace => d.labels.Some? || present == map[]
         case MergeKeys => present.Keys <= wanted.Keys
       }
    && (d.taints != [] || live.taints.None? || live.taints.value == [])
  }

  function AfterPatch(mode: LabelPatch, d: Desired, live: CsPool): CsPool {
    Patched(mode, live, Applied(FromRP(d), UNSET))
  }

  lemma TaintsRoundTrip(ts: seq<Taint>)
    ensures TaintsOfCS(TaintsToCS(ts)) == ts
  {
  }

  lemma LabelsAfterPatch(mode: LabelPatch, d: Desired, live: CsPool)
    ensures Labels(FromCS(AfterPatch(mode, d, live))) == Labels(FromRP(d)) <==>
            match mode
            case ReplaceUnlessEmpty => Labels(FromRP(d)) != map[] || Labels(FromCS(live)) == map[]
            case Replace => d.labels.Some? || Labels(FromCS(live)) == map[]
            case MergeKeys => Labels(FromCS(live)).Keys <= Labels(FromRP(d)).Keys
  {
    var wanted, present := Labels(FromRP(d)), Labels(FromCS(live));
    if mode.MergeKeys? && d.labels.Some? {
      assert Labels(FromCS(AfterPatch(mode, d, live))) == present + wanted;
      assert (present + wanted).Keys == present.Keys + wanted.Keys;
      if present.Keys <= wanted.Keys { assert present + wanted == wanted; }
    } else if mode.MergeKeys? {
      assert present == map[] <==> present.Keys <= {};
    }
  }

  lemma ScalarsAfterPatch(mode: LabelPatch, d: Desired, live: CsPool)
    ensures var sides := ForDiff(d, AfterPatch(mode, d, live));
            && sides.0.replicas == sides.1.replicas && sides.0.autoScaling == sides.1.autoScaling
            && sides.0.drain == sides.1.drain
  {
    var after := AfterPatch(mode, d, live);
    if d.drain.Some? {
      assert after.drain == Some(Value(Some(MINUTES), d.drain.value as real));
      ConversionsFixInt32(d.drain.value);
    }
    if d.autoScaling.Some? {
      ConversionsFixInt32(d.autoScaling.value.min);
      ConversionsFixInt32(d.autoScaling.value.max);
      assert after.autoscaling == Some(CsAutoscaling(d.autoScaling.value.min as int, d.autoScaling.value.max as int));
    } else {
      ConversionsFixInt32(d.replicas);
      assert after.autoscaling.None? && after.replicas == Some(d.replicas as int);
    }
  }

  lemma TaintsAfterPatch(mode: LabelPatch, d: Desired, live: CsPool)
    ensures Taints(FromCS(AfterPatch(mode, d, live))) == Taints(FromRP(d)) <==>
            d.taints != [] || live.taints.None? || live.taints.value == []
  {
    TaintsRoundTrip(d.taints);
  }

  /** One PATCH makes the two sides equal exactly when the condition held before it. */
  lemma OnePatchSettlesExactlyWhen(mode: LabelPatch, d: Desired, live: CsPool)
    ensures !Drift(d, AfterPatch(mode, d, live)) <==> Settles(mode, d, live)
  {
    var sides := ForDiff(d, AfterPatch(mode, d, live));
    ConfigTextExact(sides.0, sides.1);
    LabelsAfterPatch(mode, d, live);
    TaintsAfterPatch(mode, d, live);
    ScalarsAfterPatch(mode, d, live);
    assert Labels(sides.1) == Labels(FromCS(AfterPatch(mode, d, live)));
  }

  lemma NoDriftSettles(mode: LabelPatch, d: Desired, live: CsPool)
    requires !Drift(d, live)
    ensures Settles(mode, d, live)
  {
    ConfigTextExact(ForDiff(d, live).0, ForDiff(d, live).1);
  }

  lemma PatchKeepsSettles(mode: LabelPatch, d: Desired, live: CsPool)
    ensures Settles(mode, d, AfterPatch(mode, d, live)) <==> Settles(mode, d, live)
  {
    LabelsAfterPatch(mode, d, live);
    TaintsRoundTrip(d.taints);
    var wanted, present := Labels(FromRP(d)), Labels(FromCS(live));
    if mode.MergeKeys? && d.labels.Some? {
      assert (present + wanted).Keys == present.Keys + wanted.Keys;
    }
  }

  /** One run of the dispatch controller's sync against the live pool. */
  ghost function Synced(mode: LabelPatch, d: Desired, live: CsPool): CsPool {
    if Drift(d, live) then AfterPatch(mode, d, live) else live
  }

  ghost function SyncedTimes(mode: LabelPatch, d: Desired, live: CsPool, n: nat): CsPool
    decreases n
  {
    if n == 0 then live else SyncedTimes(mode, d, Synced(mode, d, live), n - 1)
  }

  /** Convergence: after any positive number of syncs the drift is gone if the condition held at the
      start, and otherwise it is still there and every further sync sends another PATCH. */
  lemma {:induction false} ConvergesExactlyWhen(mode: LabelPatch, d: Desired, live: CsPool, n: nat)
    requires n > 0
    ensures !Drift(d, SyncedTimes(mode, d, live, n)) <==> Settles(mode, d, live)
    decreases n
  {
    var next := Synced(mode, d, live);
    if Drift(d, live) {
      OnePatchSettlesExactlyWhen(mode, d, live);
      PatchKeepsSettles(mode, d, live);
    } else {
      NoDriftSettles(mode, d, live);
    }
    if n > 1 {
      ConvergesExactlyWhen(mode, d, next, n - 1);
    } else {
      assert SyncedTimes(mode, d, live, 1) == SyncedTimes(mode, d, next, 0) == next;
    }
  }

  /** Removing the last taint is a drift no sync can clear: the empty list is never sent. */
  lemma ClearingTaintsNeverConverges(mode: LabelPatch, n: nat)
    requires n > 0
    ensures var d := Desired(None, [], None, None, 3);
            var live := CsPool(None, Some(3), None, Some([CsTaint("NoSchedule", "k", "v")]), None);
            Drift(d, SyncedTimes(mode, d, live, n))
  {
    ConvergesExactlyWhen(mode, Desired(None, [], None, None, 3),
                         CsPool(None, Some(3), None, Some([CsTaint("NoSchedule", "k", "v")]), None), n);
  }

  /** The live pool as the controller's sync updates it. */
  class LivePool {
    var pool: CsPool

    method SyncOnce(mode: LabelPatch, d: Desired) returns (sent: bool)
      modifies this
      ensures sent == old(Drift(d, pool))
      ensures pool == old(Synced(mode, d, pool))
    {
      ConfigTextExact(ForDiff(d, pool).0, ForDiff(d, pool).1);
      sent := !SameConfig(ForDiff(d, pool).0, ForDiff(d, pool).1);
      if sent {
        var builder := new PoolBuilder();
        builder.Apply(FromRP(d));
        pool := Patched(mode, pool, builder.attributes);
      }
    }
  }
}
