/** Admission of node pool deletes and scale-downs, and what it keeps over whole runs of requests. */
module NodePoolAdmission {
  import opened Options
  import opened Text

  datatype AutoScaling = AutoScaling(min: int, max: int)
  datatype Properties = Properties(replicas: int, autoScaling: Option<AutoScaling>)
  datatype Pool = Pool(id: string, deleting: bool, properties: Properties)

  /** Whether the pool can run a worker, now or through the autoscaler. */
  predicate CanRunWorkers(p: Properties) {
    if p.autoScaling.Some? then p.autoScaling.value.max > 0 else p.replicas > 0
  }

  ghost predicate DistinctIds(pools: seq<Pool>) {
    forall i, j :: 0 <= i < |pools| && 0 <= j < |pools| && i != j ==> !EqualFold(pools[i].id, pools[j].id)
  }

  /** A pool that is not being deleted. */
  ghost predicate HasSurvivor(pools: seq<Pool>) {
    exists i :: 0 <= i < |pools| && !pools[i].deleting
  }

  predicate Provides(p: Pool) { !p.deleting && CanRunWorkers(p.properties) }

  /** A pool that is not being deleted and can run workers. */
  ghost predicate HasCapacity(pools: seq<Pool>) {
    exists i :: 0 <= i < |pools| && Provides(pools[i])
  }

  ghost predicate OtherSurvivor(pools: seq<Pool>, id: string) {
    exists i :: 0 <= i < |pools| && !EqualFold(pools[i].id, id) && !pools[i].deleting
  }

  ghost predicate OtherCapacity(pools: seq<Pool>, id: string) {
    exists i :: 0 <= i < |pools| && !EqualFold(pools[i].id, id) && Provides(pools[i])
  }

  // ---------- the two checks ----------

  ghost predicate DeleteAdmitted(pools: seq<Pool>, target: Pool) {
    target.deleting || OtherSurvivor(pools, target.id)
  }

  ghost predicate UpdateAdmitted(pools: seq<Pool>, target: Pool, wanted: Properties) {
    CanRunWorkers(wanted) || !CanRunWorkers(target.properties) || OtherCapacity(pools, target.id)
  }

  method AdmitAtLeastOneNodePoolRemains(pools: seq<Pool>, target: Pool) returns (admitted: bool)
    ensures admitted <==> DeleteAdmitted(pools, target)
  {
    if target.deleting { return true; }
    for i := 0 to |pools|
      invariant forall k :: 0 <= k < i ==> EqualFold(pools[k].id, target.id) || pools[k].deleting
    {
      if EqualFold(pools[i].id, target.id) { continue; }
      if !pools[i].deleting { return true; }
    }
    return false;
  }

  method AdmitReplicas(pools: seq<Pool>, target: Pool, wanted: Properties) returns (admitted: bool)
    ensures admitted <==> UpdateAdmitted(pools, target, wanted)
  {
    if CanRunWorkers(wanted) || !CanRunWorkers(target.properties) { return true; }
    for i := 0 to |pools|
      invariant forall k :: 0 <= k < i ==> EqualFold(pools[k].id, target.id) || !Provides(pools[k])
    {
      if EqualFold(pools[i].id, target.id) { continue; }
      if pools[i].deleting { continue; }
      if CanRunWorkers(pools[i].properties) { return true; }
    }
    return false;
  }

  // ---------- requests, one at a time ----------

  datatype Request =
    | Create(pool: Pool)
    | Update(index: nat, wanted: Properties)
    | Delete(index: nat)
    | RemoveDocument(index: nat)

  ghost predicate Accepted(pools: seq<Pool>, r: Request) {
    match r
    case Create(p) =>
      && !p.deleting
      && forall i :: 0 <= i < |pools| ==> !EqualFold(pools[i].id, p.id) && !EqualFold(p.id, pools[i].id)
    case Update(i, wanted) => i < |pools| && UpdateAdmitted(pools, pools[i], wanted)
    case Delete(i) => i < |pools| && DeleteAdmitted(pools, pools[i])
    case RemoveDocument(i) => i < |pools| && pools[i].deleting
  }

  function Apply(pools: seq<Pool>, r: Request): seq<Pool>
    requires r.Create? || r.index < |pools|
  {
    match r
    case Create(p) => pools + [p]
    case Update(i, wanted) => pools[i := pools[i].(properties := wanted)]
    case Delete(i) => pools[i := pools[i].(deleting := true)]
    case RemoveDocument(i) => pools[..i] + pools[i + 1..]
  }

  ghost predicate Run(pools: seq<Pool>, rs: seq<Request>)
    decreases |rs|
  {
    rs == [] || (Accepted(pools, rs[0]) && Run(Apply(pools, rs[0]), rs[1..]))
  }

  ghost function End(pools: seq<Pool>, rs: seq<Request>): seq<Pool>
    requires Run(pools, rs)
    decreases |rs|
  {
    if rs == [] then pools else End(Apply(pools, rs[0]), rs[1..])
  }

  /** A delete of a pool whose deletion was not under way yet. */
  predicate NewDelete(pools: seq<Pool>, r: Request) {
    r.Delete? && r.index < |pools| && !pools[r.index].deleting
  }

  lemma FoldsToItself(a: string)
    ensures EqualFold(a, a)
  {
  }

  /** Where the pools end up, apart from the one a request is about. */
  lemma OthersKept(pools: seq<Pool>, r: Request, k: nat)
    requires Accepted(pools, r) && k < |pools| && (r.Create? || k != r.index)
    ensures pools[k] in Apply(pools, r)
  {
    var after := Apply(pools, r);
    if r.Create? || !r.RemoveDocument? || k < r.index {
      assert after[k] == pools[k];
    } else {
      assert after[k - 1] == pools[k];
    }
  }

  lemma StepKeepsSurvivor(pools: seq<Pool>, r: Request)
    requires HasSurvivor(pools) && Accepted(pools, r)
    ensures HasSurvivor(Apply(pools, r))
  {
    var after := Apply(pools, r);
    var k :| 0 <= k < |pools| && !pools[k].deleting;
    if r.Create? || k != r.index {
      OthersKept(pools, r, k);
    } else if r.Delete? {
      var j :| 0 <= j < |pools| && !EqualFold(pools[j].id, pools[k].id) && !pools[j].deleting;
      FoldsToItself(pools[k].id);
      OthersKept(pools, r, j);
    } else {
      assert after[k] == pools[k].(properties := r.wanted);
    }
  }

  lemma StepKeepsCapacity(pools: seq<Pool>, r: Request)
    requires HasCapacity(pools) && Accepted(pools, r) && !NewDelete(pools, r)
    ensures HasCapacity(Apply(pools, r))
  {
    var after := Apply(pools, r);
    var k :| 0 <= k < |pools| && Provides(pools[k]);
    if r.Create? || k != r.index {
      OthersKept(pools, r, k);
    } else if CanRunWorkers(r.wanted) {
      assert Provides(after[k]);
    } else {
      var j :| 0 <= j < |pools| && !EqualFold(pools[j].id, pools[k].id) && Provides(pools[j]);
      FoldsToItself(pools[k].id);
      OthersKept(pools, r, j);
    }
  }

  /** Over every run of accepted requests, once there is a pool that is not being deleted there
      always is one. */
  lemma {:induction false} RunKeepsSurvivor(pools: seq<Pool>, rs: seq<Request>)
    requires HasSurvivor(pools) && Run(pools, rs)
    ensures HasSurvivor(End(pools, rs))
    decreases |rs|
  {
    if rs != [] {
      StepKeepsSurvivor(pools, rs[0]);
      RunKeepsSurvivor(Apply(pools, rs[0]), rs[1..]);
    }
  }

  ghost predicate NoNewDelete(pools: seq<Pool>, rs: seq<Request>)
    requires Run(pools, rs)
    decreases |rs|
  {
    rs == [] || (!NewDelete(pools, rs[0]) && NoNewDelete(Apply(pools, rs[0]), rs[1..]))
  }

  /** Over every stretch of a run in which no new delete is accepted, worker capacity is not lost. */
  lemma {:induction false} RunKeepsCapacity(pools: seq<Pool>, rs: seq<Request>)
    requires HasCapacity(pools) && Run(pools, rs) && NoNewDelete(pools, rs)
    ensures HasCapacity(End(pools, rs))
    decreases |rs|
  {
    if rs != [] {
      StepKeepsCapacity(pools, rs[0]);
      RunKeepsCapacity(Apply(pools, rs[0]), rs[1..]);
    }
  }

  lemma StepKeepsDistinctIds(pools: seq<Pool>, r: Request)
    requires DistinctIds(pools) && Accepted(pools, r)
    ensures DistinctIds(Apply(pools, r))
  {
    var after := Apply(pools, r);
    if r.RemoveDocument? {
      var at := r.index;
      assert forall i :: 0 <= i < |after| ==> after[i] == pools[if i < at then i else i + 1];
    }
  }

  /** IDs stay distinct under case folding, so the checks below stay exact along every run. */
  lemma {:induction false} RunKeepsDistinctIds(pools: seq<Pool>, rs: seq<Request>)
    requires DistinctIds(pools) && Run(pools, rs)
    ensures DistinctIds(End(pools, rs))
    decreases |rs|
  {
    if rs != [] {
      StepKeepsDistinctIds(pools, rs[0]);
      RunKeepsDistinctIds(Apply(pools, rs[0]), rs[1..]);
    }
  }

  // ---------- the checks are exact ----------

  lemma OtherByIndex(pools: seq<Pool>, i: nat, j: nat)
    requires DistinctIds(pools) && i < |pools| && j < |pools|
    ensures !EqualFold(pools[j].id, pools[i].id) <==> j != i
  {
    FoldsToItself(pools[i].id);
  }

  /** A new delete is refused exactly when it would leave no survivor. */
  lemma DeleteRefusedExactlyWhen(pools: seq<Pool>, i: nat)
    requires DistinctIds(pools) && i < |pools| && !pools[i].deleting
    ensures DeleteAdmitted(pools, pools[i]) <==> HasSurvivor(Apply(pools, Delete(i)))
  {
    var after := Apply(pools, Delete(i));
    if HasSurvivor(after) {
      var j :| 0 <= j < |after| && !after[j].deleting;
      OtherByIndex(pools, i, j);
      assert !pools[j].deleting;
    }
    if OtherSurvivor(pools, pools[i].id) {
      StepKeepsSurvivor(pools, Delete(i));
    }
  }

  /** An update of a live pool is refused exactly when it would take the last capacity away. */
  lemma UpdateRefusedExactlyWhen(pools: seq<Pool>, i: nat, wanted: Properties)
    requires DistinctIds(pools) && i < |pools| && !pools[i].deleting
    ensures !UpdateAdmitted(pools, pools[i], wanted) <==>
            HasCapacity(pools) && !HasCapacity(Apply(pools, Update(i, wanted)))
  {
    var after := Apply(pools, Update(i, wanted));
    if UpdateAdmitted(pools, pools[i], wanted) && HasCapacity(pools) {
      StepKeepsCapacity(pools, Update(i, wanted));
    }
    if !UpdateAdmitted(pools, pools[i], wanted) {
      assert Provides(pools[i]);
      forall j | 0 <= j < |after| ensures !Provides(after[j]) {
        OtherByIndex(pools, i, j);
      }
    }
  }

  /** Deletes do not look at capacity: a new delete keeps it exactly when another pool provides it. */
  lemma DeleteKeepsCapacityExactlyWhen(pools: seq<Pool>, i: nat)
    requires DistinctIds(pools) && i < |pools| && !pools[i].deleting
    ensures HasCapacity(Apply(pools, Delete(i))) <==> OtherCapacity(pools, pools[i].id)
  {
    var after := Apply(pools, Delete(i));
    if HasCapacity(after) {
      var j :| 0 <= j < |after| && Provides(after[j]);
      OtherByIndex(pools, i, j);
      assert Provides(pools[j]);
    }
    if OtherCapacity(pools, pools[i].id) {
      var j :| 0 <= j < |pools| && !EqualFold(pools[j].id, pools[i].id) && Provides(pools[j]);
      FoldsToItself(pools[i].id);
      assert Provides(after[j]);
    }
  }

  /** One accepted delete can take all worker capacity from a cluster. */
  lemma DeleteCanRemoveCapacity()
    ensures var pools := [Pool("a", false, Properties(3, None)), Pool("bb", false, Properties(0, None))];
            DistinctIds(pools) && HasCapacity(pools) && Accepted(pools, Delete(0)) &&
            !HasCapacity(Apply(pools, Delete(0)))
  {
    var pools := [Pool("a", false, Properties(3, None)), Pool("bb", false, Properties(0, None))];
    assert DistinctIds(pools);
    assert Provides(pools[0]);
    assert !EqualFold(pools[1].id, pools[0].id) && !pools[1].deleting;
    DeleteKeepsCapacityExactlyWhen(pools, 0);
    assert forall j :: 0 <= j < |pools| && !EqualFold(pools[j].id, pools[0].id) ==> j == 1;
  }

  // ---------- decisions on a stale listing ----------

  /** Updates and deletes of listed pools, in the order they take effect. */
  predicate IsBatch(pools: seq<Pool>, batch: seq<Request>) {
    forall r :: r in batch ==> (r.Update? || r.Delete?) && r.index < |pools|
  }

  /** Every request of the batch was judged on the one listing, before any of them took effect. */
  ghost predicate AllAdmitted(pools: seq<Pool>, batch: seq<Request>) {
    forall r :: r in batch ==> Accepted(pools, r)
  }

  function ApplyAll(pools: seq<Pool>, batch: seq<Request>): (after: seq<Pool>)
    requires IsBatch(pools, batch)
    ensures |after| == |pools|
  {
    if batch == [] then pools
    else
      var n := |batch| - 1;
      assert forall r :: r in batch[..n] ==> r in batch;
      assert batch[n] in batch;
      Apply(ApplyAll(pools, batch[..n]), batch[n])
  }

  /** The properties the batch leaves pool `k` with: those of its last update, if any. */
  function Wanted(batch: seq<Request>, k: nat, before: Properties): Properties {
    if batch == [] then before
    else
      var n := |batch| - 1;
      if batch[n].Update? && batch[n].index == k then batch[n].wanted else Wanted(batch[..n], k, before)
  }

  /** Two requests, one after the other. */
  lemma {:induction false} WantedOfTwo(a: Request, b: Request, k: nat, before: Properties)
    ensures Wanted([a, b], k, before) ==
            if b.Update? && b.index == k then b.wanted else if a.Update? && a.index == k then a.wanted else before
  {
    var none: seq<Request> := [];
    assert [a, b][..1] == [a] && [a][..0] == none;
    assert Wanted(none, k, before) == before;
    assert Wanted([a], k, before) == if a.Update? && a.index == k then a.wanted else before;
  }

  /** What the batch makes of each pool. */
  lemma {:induction false} PoolAfter(pools: seq<Pool>, batch: seq<Request>, k: nat)
    requires IsBatch(pools, batch) && k < |pools|
    ensures ApplyAll(pools, batch)[k] ==
            Pool(pools[k].id, pools[k].deleting || Delete(k) in batch, Wanted(batch, k, pools[k].properties))
  {
    if batch != [] {
      var n := |batch| - 1;
      assert batch == batch[..n] + [batch[n]];
      assert forall r :: r in batch <==> r in batch[..n] || r == batch[n];
      PoolAfter(pools, batch[..n], k);
    }
  }

  /** A pool that is not being deleted and that the batch does not delete. */
  predicate Spared(pools: seq<Pool>, batch: seq<Request>, k: nat)
    requires k < |pools|
  {
    !pools[k].deleting && Delete(k) !in batch
  }

  /** Whatever the batch, a survivor remains exactly when it spares one. */
  lemma {:induction false} BatchKeepsSurvivorExactlyWhen(pools: seq<Pool>, batch: seq<Request>)
    requires IsBatch(pools, batch)
    ensures HasSurvivor(ApplyAll(pools, batch)) <==> exists k :: 0 <= k < |pools| && Spared(pools, batch, k)
  {
    var after := ApplyAll(pools, batch);
    forall k | 0 <= k < |pools| ensures !after[k].deleting <==> Spared(pools, batch, k) { PoolAfter(pools, batch, k); }
  }

  /** Whatever the batch, capacity remains exactly when it spares a pool and leaves it some. */
  lemma {:induction false} BatchKeepsCapacityExactlyWhen(pools: seq<Pool>, batch: seq<Request>)
    requires IsBatch(pools, batch)
    ensures HasCapacity(ApplyAll(pools, batch)) <==>
            exists k :: 0 <= k < |pools| && Spared(pools, batch, k) &&
              CanRunWorkers(Wanted(batch, k, pools[k].properties))
  {
    var after := ApplyAll(pools, batch);
    forall k | 0 <= k < |pools|
      ensures Provides(after[k]) <==> Spared(pools, batch, k) && CanRunWorkers(Wanted(batch, k, pools[k].properties))
    {
      PoolAfter(pools, batch, k);
    }
  }

  ghost predicate TwoSurvivors(pools: seq<Pool>) {
    exists i, j :: 0 <= i < |pools| && 0 <= j < |pools| && i != j && !pools[i].deleting && !pools[j].deleting
  }

  ghost predicate TwoProviders(pools: seq<Pool>) {
    exists i, j :: 0 <= i < |pools| && 0 <= j < |pools| && i != j && Provides(pools[i]) && Provides(pools[j])
  }

  /** With two pools that are not being deleted the listing admits every delete, however many. */
  lemma {:induction false} TwoSurvivorsAdmitDeletes(pools: seq<Pool>, k: nat)
    requires DistinctIds(pools) && k < |pools| && TwoSurvivors(pools)
    ensures DeleteAdmitted(pools, pools[k])
  {
    var i, j :| 0 <= i < |pools| && 0 <= j < |pools| && i != j && !pools[i].deleting && !pools[j].deleting;
    OtherByIndex(pools, k, i);
    OtherByIndex(pools, k, j);
    assert k != i || k != j;
  }

  /** With two pools that provide capacity the listing admits every update, however many. */
  lemma {:induction false} TwoProvidersAdmitUpdates(pools: seq<Pool>, k: nat, wanted: Properties)
    requires DistinctIds(pools) && k < |pools| && TwoProviders(pools)
    ensures UpdateAdmitted(pools, pools[k], wanted)
  {
    var i, j :| 0 <= i < |pools| && 0 <= j < |pools| && i != j && Provides(pools[i]) && Provides(pools[j]);
    OtherByIndex(pools, k, i);
    OtherByIndex(pools, k, j);
    assert k != i || k != j;
  }

  ghost predicate DeletesAdmitted(pools: seq<Pool>, batch: seq<Request>) {
    forall r :: r in batch && r.Delete? ==> Accepted(pools, r)
  }

  /** Deletes judged on one listing, any number of them and among any updates: all get in and together
      take the last survivor if and only if there were at least two and each of them is deleted. So no
      single delete does it, and any deletes that cover two or more survivors do. */
  lemma {:induction false} StaleDeletesLoseSurvivorExactlyWhen(pools: seq<Pool>, batch: seq<Request>)
    requires DistinctIds(pools) && IsBatch(pools, batch)
    ensures HasSurvivor(pools) && DeletesAdmitted(pools, batch) && !HasSurvivor(ApplyAll(pools, batch)) <==>
            TwoSurvivors(pools) && forall k :: 0 <= k < |pools| && !pools[k].deleting ==> Delete(k) in batch
  {
    BatchKeepsSurvivorExactlyWhen(pools, batch);
    if TwoSurvivors(pools) {
      forall r | r in batch && r.Delete? ensures Accepted(pools, r) { TwoSurvivorsAdmitDeletes(pools, r.index); }
    }
    if HasSurvivor(pools) && DeletesAdmitted(pools, batch) && !HasSurvivor(ApplyAll(pools, batch)) {
      var i :| 0 <= i < |pools| && !pools[i].deleting;
      assert !Spared(pools, batch, i) && Accepted(pools, Delete(i));
      var j :| 0 <= j < |pools| && !EqualFold(pools[j].id, pools[i].id) && !pools[j].deleting;
      OtherByIndex(pools, i, j);
      forall k | 0 <= k < |pools| && !pools[k].deleting ensures Delete(k) in batch {
        assert !Spared(pools, batch, k);
      }
    }
  }

  /** Some update in the batch is the last one for pool `k`, unless the batch leaves it alone. */
  lemma {:induction false} WantedComesFrom(batch: seq<Request>, k: nat, before: Properties)
    ensures Wanted(batch, k, before) == before || Update(k, Wanted(batch, k, before)) in batch
  {
    if batch != [] {
      var n := |batch| - 1;
      WantedComesFrom(batch[..n], k, before);
      assert batch == batch[..n] + [batch[n]];
    }
  }

  /** Updates judged on one listing, any number of them: all get in and together take the last capacity
      if and only if at least two pools provided it and each of them is left without. */
  lemma {:induction false} StaleUpdatesLoseCapacityExactlyWhen(pools: seq<Pool>, batch: seq<Request>)
    requires DistinctIds(pools) && IsBatch(pools, batch) && forall r :: r in batch ==> r.Update?
    ensures HasCapacity(pools) && AllAdmitted(pools, batch) && !HasCapacity(ApplyAll(pools, batch)) <==>
            && TwoProviders(pools)
            && forall k :: 0 <= k < |pools| && !pools[k].deleting ==>
                 !CanRunWorkers(Wanted(batch, k, pools[k].properties))
  {
    BatchKeepsCapacityExactlyWhen(pools, batch);
    if TwoProviders(pools) {
      forall r | r in batch ensures Accepted(pools, r) { TwoProvidersAdmitUpdates(pools, r.index, r.wanted); }
    }
    if HasCapacity(pools) && AllAdmitted(pools, batch) && !HasCapacity(ApplyAll(pools, batch)) {
      forall k | 0 <= k < |pools| && !pools[k].deleting
        ensures !CanRunWorkers(Wanted(batch, k, pools[k].properties))
      {
        assert Spared(pools, batch, k);
      }
      var i :| 0 <= i < |pools| && Provides(pools[i]);
      WantedComesFrom(batch, i, pools[i].properties);
      assert Accepted(pools, Update(i, Wanted(batch, i, pools[i].properties)));
      var j :| 0 <= j < |pools| && !EqualFold(pools[j].id, pools[i].id) && Provides(pools[j]);
      OtherByIndex(pools, i, j);
    }
  }

  /** An update and a delete of two live pools on one listing: both get in and together take the last
      capacity if and only if the update leaves none, the deleted pool provided some, and no third
      pool does. Whether the updated pool provided any does not matter. */
  lemma {:induction false} StaleUpdateAndDeleteLoseCapacityExactlyWhen(
    pools: seq<Pool>, i: nat, wanted: Properties, j: nat)
    requires DistinctIds(pools) && i < |pools| && j < |pools| && i != j && !pools[i].deleting && !pools[j].deleting
    ensures HasCapacity(pools) && AllAdmitted(pools, [Update(i, wanted), Delete(j)]) &&
            !HasCapacity(ApplyAll(pools, [Update(i, wanted), Delete(j)])) <==>
            && !CanRunWorkers(wanted) && Provides(pools[j])
            && forall k :: 0 <= k < |pools| && k != i && k != j ==> !Provides(pools[k])
  {
    var batch := [Update(i, wanted), Delete(j)];
    assert TwoSurvivors(pools);
    TwoSurvivorsAdmitDeletes(pools, j);
    BatchKeepsCapacityExactlyWhen(pools, batch);
    forall k | 0 <= k < |pools|
      ensures Wanted(batch, k, pools[k].properties) == if k == i then wanted else pools[k].properties
      ensures Spared(pools, batch, k) <==> !pools[k].deleting && k != j
      ensures !EqualFold(pools[k].id, pools[i].id) <==> k != i
    {
      WantedOfTwo(batch[0], batch[1], k, pools[k].properties);
      OtherByIndex(pools, i, k);
    }
    assert AllAdmitted(pools, batch) <==> Accepted(pools, batch[0]) && Accepted(pools, batch[1]);
  }

  /** Two deletes of live pools on one listing always both get in, and a survivor remains exactly when
      a third pool is not being deleted. */
  lemma {:induction false} StaleDeletesKeepSurvivorExactlyWhen(pools: seq<Pool>, i: nat, j: nat)
    requires DistinctIds(pools) && i < |pools| && j < |pools| && i != j && !pools[i].deleting && !pools[j].deleting
    ensures AllAdmitted(pools, [Delete(i), Delete(j)])
    ensures HasSurvivor(ApplyAll(pools, [Delete(i), Delete(j)])) <==>
            exists k :: 0 <= k < |pools| && k != i && k != j && !pools[k].deleting
  {
    var batch := [Delete(i), Delete(j)];
    assert TwoSurvivors(pools);
    TwoSurvivorsAdmitDeletes(pools, i);
    TwoSurvivorsAdmitDeletes(pools, j);
    BatchKeepsSurvivorExactlyWhen(pools, batch);
    assert forall k :: 0 <= k < |pools| ==> (Spared(pools, batch, k) <==> !pools[k].deleting && k != i && k != j);
  }

  /** Two scale-downs that are both judged on the same listing keep capacity exactly when one of them
      leaves some, or a third pool provides it. */
  lemma {:induction false} StaleUpdatesKeepCapacityExactlyWhen(
    pools: seq<Pool>, i: nat, j: nat, wi: Properties, wj: Properties)
    requires i < |pools| && j < |pools| && i != j && !pools[i].deleting && !pools[j].deleting
    ensures HasCapacity(ApplyAll(pools, [Update(i, wi), Update(j, wj)])) <==>
            || CanRunWorkers(wi) || CanRunWorkers(wj)
            || exists k :: 0 <= k < |pools| && k != i && k != j && Provides(pools[k])
  {
    var batch := [Update(i, wi), Update(j, wj)];
    BatchKeepsCapacityExactlyWhen(pools, batch);
    forall k | 0 <= k < |pools|
      ensures Wanted(batch, k, pools[k].properties) == if k == i then wi else if k == j then wj else pools[k].properties
      ensures Spared(pools, batch, k) <==> !pools[k].deleting
    {
      WantedOfTwo(batch[0], batch[1], k, pools[k].properties);
    }
  }

  /** The race the source describes: both providers are scaled to zero, each decision right on the
      listing it saw. Two deletes on one listing lose the last survivor the same way. */
  lemma StaleListingsBreakBoth()
    ensures var pools := [Pool("a", false, Properties(3, None)), Pool("bb", false, Properties(3, None))];
            var none := Properties(0, None);
            && AllAdmitted(pools, [Update(0, none), Update(1, none)])
            && !HasCapacity(ApplyAll(pools, [Update(0, none), Update(1, none)]))
            && AllAdmitted(pools, [Delete(0), Delete(1)])
            && !HasSurvivor(ApplyAll(pools, [Delete(0), Delete(1)]))
  {
    var pools := [Pool("a", false, Properties(3, None)), Pool("bb", false, Properties(3, None))];
    var none := Properties(0, None);
    assert Provides(pools[0]) && Provides(pools[1]) && DistinctIds(pools);
    TwoProvidersAdmitUpdates(pools, 0, none);
    TwoProvidersAdmitUpdates(pools, 1, none);
    StaleUpdatesKeepCapacityExactlyWhen(pools, 0, 1, none, none);
    StaleDeletesKeepSurvivorExactlyWhen(pools, 0, 1);
  }
}
