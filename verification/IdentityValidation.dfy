/** Static validation of managed identities: every identity assigned to the cluster is used exactly
    once by a control plane operator or the service, and no identity is used twice within the cluster. */
module IdentityValidation {
  import opened Options
  import opened Text

  /** An operator and its identity's resource ID; `None` is a nil identity. */
  datatype Reference = Reference(operator: string, identity: Option<string>)

  datatype Error =
    | NotAssigned(operator: string)         // a control plane operator's identity
    | ServiceNotAssigned
    | Unused(id: string)
    | UsedMultipleTimes(id: string)
    | DataPlaneAssigned(operator: string)

  /** The lowered identities of the operators that have one, in order. */
  function Identities(refs: seq<Reference>): seq<string> {
    if refs == [] then []
    else Identities(refs[..|refs| - 1]) + LoweredIdentity(refs[|refs| - 1].identity)
  }

  function LoweredIdentity(identity: Option<string>): seq<string> {
    if identity.Some? then [Lower(identity.value)] else []
  }

  /** What control plane operators and the service use, with repetitions. */
  function Uses(controlPlane: seq<Reference>, service: Option<string>): seq<string> {
    Identities(controlPlane) + LoweredIdentity(service)
  }

  function Lowered(ids: seq<string>): set<string> { set id | id in ids :: Lower(id) }

  // ---------- the errors, independently of the tally ----------

  function UseErrors(refs: seq<Reference>, own: set<string>): seq<Error> {
    if refs == [] then []
    else
      var last := refs[|refs| - 1];
      UseErrors(refs[..|refs| - 1], own) +
      (if last.identity.Some? && Lower(last.identity.value) !in own then [NotAssigned(last.operator)] else [])
  }

  function ServiceErrors(service: Option<string>, own: set<string>): seq<Error> {
    if service.Some? && Lower(service.value) !in own then [ServiceNotAssigned] else []
  }

  function AssignedErrors(ids: seq<string>, uses: seq<string>): seq<Error> {
    if ids == [] then []
    else
      var last := ids[|ids| - 1];
      var count := multiset(uses)[Lower(last)];
      AssignedErrors(ids[..|ids| - 1], uses) +
      (if count == 0 then [Unused(last)] else if count == 1 then [] else [UsedMultipleTimes(last)])
  }

  function DataPlaneErrors(refs: seq<Reference>, own: set<string>): seq<Error> {
    if refs == [] then []
    else
      var last := refs[|refs| - 1];
      DataPlaneErrors(refs[..|refs| - 1], own) +
      (if last.identity.Some? && Lower(last.identity.value) in own then [DataPlaneAssigned(last.operator)] else [])
  }

  // ---------- the tally ----------

  /** A tally of what was used so far, for the assigned identities. */
  ghost predicate Tallies(tally: map<string, nat>, own: set<string>, uses: seq<string>) {
    tally.Keys == own && forall k :: k in tally ==> tally[k] == multiset(uses)[k]
  }

  method StartTally(ids: seq<string>) returns (tally: map<string, nat>)
    ensures Tallies(tally, Lowered(ids), [])
  {
    tally := map[];
    for i := 0 to |ids|
      invariant tally.Keys == Lowered(ids[..i]) && forall k :: k in tally ==> tally[k] == 0
    {
      assert ids[..i + 1] == ids[..i] + [ids[i]];
      tally := tally[Lower(ids[i]) := 0];
    }
    assert ids[..|ids|] == ids;
  }

  method TallyOne(tally: map<string, nat>, key: string, ghost uses: seq<string>, ghost own: set<string>)
    returns (tally': map<string, nat>)
    requires Tallies(tally, own, uses)
    ensures Tallies(tally', own, uses + [key])
  {
    tally' := if key in tally then tally[key := tally[key] + 1] else tally;
  }

  method TallyOperators(tally: map<string, nat>, refs: seq<Reference>, ghost own: set<string>)
    returns (tally': map<string, nat>, errs: seq<Error>)
    requires Tallies(tally, own, [])
    ensures Tallies(tally', own, Identities(refs)) && errs == UseErrors(refs, own)
  {
    tally', errs := tally, [];
    for i := 0 to |refs|
      invariant Tallies(tally', own, Identities(refs[..i])) && errs == UseErrors(refs[..i], own)
    {
      assert refs[..i + 1][..i] == refs[..i];
      if refs[i].identity.None? { continue; }
      var key := Lower(refs[i].identity.value);
      if key !in tally' { errs := errs + [NotAssigned(refs[i].operator)]; }
      tally' := TallyOne(tally', key, Identities(refs[..i]), own);
    }
    assert refs[..|refs|] == refs;
  }

  method TallyService(tally: map<string, nat>, service: Option<string>, ghost own: set<string>, ghost uses: seq<string>)
    returns (tally': map<string, nat>, errs: seq<Error>)
    requires Tallies(tally, own, uses)
    ensures Tallies(tally', own, uses + LoweredIdentity(service)) && errs == ServiceErrors(service, own)
  {
    tally', errs := tally, [];
    assert uses + [] == uses;
    if service.Some? {
      if Lower(service.value) !in tally { errs := [ServiceNotAssigned]; }
      tally' := TallyOne(tally, Lower(service.value), uses, own);
    }
  }

  /** What the whole check should report: the identities used without being assigned, the assigned
      ones not used exactly once, and the data plane identities that are assigned. */
  function ExpectedErrors(ids: seq<string>, controlPlane: seq<Reference>, service: Option<string>,
                          dataPlane: seq<Reference>): seq<Error> {
    UseErrors(controlPlane, Lowered(ids)) + ServiceErrors(service, Lowered(ids)) +
    AssignedErrors(ids, Uses(controlPlane, service)) + DataPlaneErrors(dataPlane, Lowered(ids))
  }

  method ValidateOperatorAuthentication(ids: seq<string>, controlPlane: seq<Reference>, service: Option<string>,
                                        dataPlane: seq<Reference>)
    returns (errs: seq<Error>)
    ensures errs == ExpectedErrors(ids, controlPlane, service, dataPlane)
  {
    var start := StartTally(ids);
    var operators, useErrs := TallyOperators(start, controlPlane, Lowered(ids));
    var tally, serviceErrs := TallyService(operators, service, Lowered(ids), Identities(controlPlane));
    var assignedErrs := CheckAssigned(tally, ids, Uses(controlPlane, service));
    var dataPlaneErrs := CheckDataPlane(tally, dataPlane, Lowered(ids), Uses(controlPlane, service));
    errs := useErrs + serviceErrs + assignedErrs + dataPlaneErrs;
  }

  method CheckAssigned(tally: map<string, nat>, ids: seq<string>, ghost uses: seq<string>) returns (errs: seq<Error>)
    requires Tallies(tally, Lowered(ids), uses)
    ensures errs == AssignedErrors(ids, uses)
  {
    errs := [];
    for i := 0 to |ids|
      invariant errs == AssignedErrors(ids[..i], uses)
    {
      assert ids[..i + 1][..i] == ids[..i];
      var key := Lower(ids[i]);
      assert ids[i] in ids;
      if tally[key] == 0 {
        errs := errs + [Unused(ids[i])];
      } else if tally[key] != 1 {
        errs := errs + [UsedMultipleTimes(ids[i])];
      }
    }
    assert ids[..|ids|] == ids;
  }

  method CheckDataPlane(tally: map<string, nat>, refs: seq<Reference>, ghost own: set<string>, ghost uses: seq<string>)
    returns (errs: seq<Error>)
    requires Tallies(tally, own, uses)
    ensures errs == DataPlaneErrors(refs, own)
  {
    errs := [];
    for i := 0 to |refs|
      invariant errs == DataPlaneErrors(refs[..i], own)
    {
      assert refs[..i + 1][..i] == refs[..i];
      if refs[i].identity.None? { continue; }
      if Lower(refs[i].identity.value) in tally { errs := errs + [DataPlaneAssigned(refs[i].operator)]; }
    }
    assert refs[..|refs|] == refs;
  }

  // ---------- no error means a one-to-one correspondence ----------

  /** Up to case, assigned identities and used identities correspond one to one, and no data plane
      operator uses an assigned identity. */
  predicate Corresponds(ids: seq<string>, controlPlane: seq<Reference>, service: Option<string>,
                        dataPlane: seq<Reference>) {
    var uses := Uses(controlPlane, service);
    NoRepeats(uses) && Elements(uses) == Lowered(ids) && Elements(Identities(dataPlane)) !! Lowered(ids)
  }

  lemma {:induction false} UseErrorsEmpty(refs: seq<Reference>, own: set<string>)
    ensures UseErrors(refs, own) == [] <==> Elements(Identities(refs)) <= own
  {
    if refs != [] {
      UseErrorsEmpty(refs[..|refs| - 1], own);
      var last := refs[|refs| - 1].identity;
      ElementsSnoc(Identities(refs[..|refs| - 1]), if last.Some? then Lower(last.value) else "");
    }
  }

  lemma {:induction false} DataPlaneErrorsEmpty(refs: seq<Reference>, own: set<string>)
    ensures DataPlaneErrors(refs, own) == [] <==> Elements(Identities(refs)) !! own
  {
    if refs != [] {
      DataPlaneErrorsEmpty(refs[..|refs| - 1], own);
      var last := refs[|refs| - 1].identity;
      ElementsSnoc(Identities(refs[..|refs| - 1]), if last.Some? then Lower(last.value) else "");
    }
  }

  lemma {:induction false} AssignedErrorsEmpty(ids: seq<string>, uses: seq<string>)
    ensures AssignedErrors(ids, uses) == [] <==> forall k :: k in Lowered(ids) ==> multiset(uses)[k] == 1
  {
    if ids != [] {
      var earlier, last := ids[..|ids| - 1], ids[|ids| - 1];
      AssignedErrorsEmpty(earlier, uses);
      assert ids == earlier + [last];
      assert Lowered(ids) == Lowered(earlier) + {Lower(last)} by {
        forall id | id in earlier ensures id in ids { }
      }
    }
  }

  lemma CountsMatchExactlyWhen(uses: seq<string>, own: set<string>)
    ensures Elements(uses) <= own && (forall k :: k in own ==> multiset(uses)[k] == 1) <==>
            NoRepeats(uses) && Elements(uses) == own
  {
    NoRepeatsIsOnceEach(uses);
    assert forall k :: k in uses <==> k in multiset(uses);
    assert forall k :: k in uses <==> k in Elements(uses);
  }

  /** The check finds nothing to report if and only if assigned and used identities correspond one to
      one up to case and the data plane keeps to itself. */
  lemma ErrorFreeExactlyWhen(ids: seq<string>, controlPlane: seq<Reference>, service: Option<string>,
                             dataPlane: seq<Reference>)
    ensures ExpectedErrors(ids, controlPlane, service, dataPlane) == [] <==>
            Corresponds(ids, controlPlane, service, dataPlane)
  {
    var own, uses := Lowered(ids), Uses(controlPlane, service);
    UseErrorsEmpty(controlPlane, own);
    DataPlaneErrorsEmpty(dataPlane, own);
    AssignedErrorsEmpty(ids, uses);
    CountsMatchExactlyWhen(uses, own);
    assert Elements(uses) == Elements(Identities(controlPlane)) + Elements(LoweredIdentity(service));
    assert ServiceErrors(service, own) == [] <==> Elements(LoweredIdentity(service)) <= own;
  }

  // ---------- walking the operator maps ----------

  /** Each key once, in some order. */
  ghost predicate Walks<T>(order: seq<string>, m: map<string, T>) { NoRepeats(order) && Enumerates(order, m) }

  /** The operators of a map in the order they are met. */
  function Walked(m: map<string, Option<string>>, order: seq<string>): (refs: seq<Reference>)
    ensures |refs| == |order|
  {
    seq(|order|, i requires 0 <= i < |order| => Reference(order[i], IdentityIn(m, order[i])))
  }

  function IdentityIn(m: map<string, Option<string>>, operator: string): Option<string> {
    if operator in m then m[operator] else None
  }

  function UseIn(m: map<string, Option<string>>): string -> seq<string> {
    operator => LoweredIdentity(IdentityIn(m, operator))
  }

  lemma {:induction false} IdentitiesWalked(m: map<string, Option<string>>, order: seq<string>)
    ensures Identities(Walked(m, order)) == Flat(order, UseIn(m))
  {
    if order != [] {
      var n := |order| - 1;
      IdentitiesWalked(m, order[..n]);
      assert Walked(m, order)[..n] == Walked(m, order[..n]);
    }
  }

  /** In whatever order a map is walked, the same identities come up equally often. */
  lemma WalksAgree(m: map<string, Option<string>>, a: seq<string>, b: seq<string>)
    requires Walks(a, m) && Walks(b, m)
    ensures multiset(Identities(Walked(m, a))) == multiset(Identities(Walked(m, b)))
    ensures NoRepeats(Identities(Walked(m, a))) <==> NoRepeats(Identities(Walked(m, b)))
    ensures Elements(Identities(Walked(m, a))) == Elements(Identities(Walked(m, b)))
  {
    SameElementsOnce(a, b);
    IdentitiesWalked(m, a);
    IdentitiesWalked(m, b);
    FlatOfPermutation(a, b, UseIn(m));
    RepeatsOfPermutation(Flat(a, UseIn(m)), Flat(b, UseIn(m)));
  }

  /** The first check's verdict does not depend on the order in which Go walks the maps. */
  lemma VerdictIgnoresOrder(ids: seq<string>, cp: map<string, Option<string>>, dp: map<string, Option<string>>,
                            service: Option<string>, c: seq<string>, d: seq<string>, c': seq<string>, d': seq<string>)
    requires Walks(c, cp) && Walks(c', cp) && Walks(d, dp) && Walks(d', dp)
    ensures Corresponds(ids, Walked(cp, c), service, Walked(dp, d)) <==>
            Corresponds(ids, Walked(cp, c'), service, Walked(dp, d'))
  {
    WalksAgree(cp, c, c');
    WalksAgree(dp, d, d');
    var x, y, s := Identities(Walked(cp, c)), Identities(Walked(cp, c')), LoweredIdentity(service);
    NoRepeatsAppend(x, s);
    NoRepeatsAppend(y, s);
    assert Elements(x + s) == Elements(x) + Elements(s) && Elements(y + s) == Elements(y) + Elements(s);
  }

  // ---------- uniqueness within the cluster ----------

  /** Where an identity is recorded. */
  datatype Place = ControlPlaneOperator(name: string) | DataPlaneOperator(name: string) | Service

  datatype Record = Record(place: Place, id: string)

  function PlaceOf(dataPlane: bool, operator: string): Place {
    if dataPlane then DataPlaneOperator(operator) else ControlPlaneOperator(operator)
  }

  function RecordOf(place: Place, identity: Option<string>): seq<Record> {
    if identity.Some? then [Record(place, Lower(identity.value))] else []
  }

  function RecordsOf(dataPlane: bool, refs: seq<Reference>): seq<Record> {
    if refs == [] then []
    else
      var last := refs[|refs| - 1];
      RecordsOf(dataPlane, refs[..|refs| - 1]) + RecordOf(PlaceOf(dataPlane, last.operator), last.identity)
  }

  function Ids(records: seq<Record>): (ids: seq<string>)
    ensures |ids| == |records|
  {
    seq(|records|, i requires 0 <= i < |records| => records[i].id)
  }

  function AllRecords(controlPlane: seq<Reference>, dataPlane: seq<Reference>, service: Option<string>): seq<Record> {
    RecordsOf(false, controlPlane) + RecordsOf(true, dataPlane) + RecordOf(Service, service)
  }

  /** Every identity in the order the check records them: control plane and data plane operators by
      name, then the service. */
  ghost function Recorded(cp: map<string, Option<string>>, dp: map<string, Option<string>>,
                          service: Option<string>): seq<Record> {
    AllRecords(Walked(cp, SortedKeys(cp.Keys)), Walked(dp, SortedKeys(dp.Keys)), service)
  }

  /** The places whose identity was recorded before. */
  function Repeats(records: seq<Record>): seq<Place> {
    if records == [] then []
    else
      var n := |records| - 1;
      Repeats(records[..n]) + (if records[n].id in Ids(records[..n]) then [records[n].place] else [])
  }

  lemma RecordsSnoc(records: seq<Record>, r: Record)
    ensures Repeats(records + [r]) == Repeats(records) + (if r.id in Elements(Ids(records)) then [r.place] else [])
    ensures Elements(Ids(records + [r])) == Elements(Ids(records)) + {r.id}
  {
    assert (records + [r])[..|records|] == records;
    assert Ids(records + [r]) == Ids(records) + [r.id];
    ElementsSnoc(Ids(records), r.id);
  }

  /** What was observed and reported after recording `records`. */
  ghost predicate Accounts(observed: set<string>, errs: seq<Place>, records: seq<Record>) {
    observed == Elements(Ids(records)) && errs == Repeats(records)
  }

  /** The closure that records one identity: nil is passed over, a second use is an error. */
  method RecordIdentity(place: Place, identity: Option<string>, observed: set<string>, errs: seq<Place>,
                        ghost records: seq<Record>)
    returns (observed': set<string>, errs': seq<Place>)
    requires Accounts(observed, errs, records)
    ensures Accounts(observed', errs', records + RecordOf(place, identity))
  {
    observed', errs' := observed, errs;
    if identity.None? {
      assert records + RecordOf(place, identity) == records;
      return;
    }
    var key := Lower(identity.value);
    RecordsSnoc(records, Record(place, key));
    if key in observed {
      errs' := errs + [place];
    } else {
      observed' := observed + {key};
    }
  }

  lemma RecordsOfSnoc(dataPlane: bool, m: map<string, Option<string>>, names: seq<string>, i: nat, records: seq<Record>)
    requires i < |names|
    ensures records + RecordsOf(dataPlane, Walked(m, names[..i + 1])) ==
            records + RecordsOf(dataPlane, Walked(m, names[..i])) +
            RecordOf(PlaceOf(dataPlane, names[i]), IdentityIn(m, names[i]))
  {
    var refs := Walked(m, names[..i + 1]);
    assert refs[..i] == Walked(m, names[..i]);
    assert refs[i] == Reference(names[i], IdentityIn(m, names[i]));
  }

  method RecordNames(dataPlane: bool, m: map<string, Option<string>>, names: seq<string>,
                     observed: set<string>, errs: seq<Place>, ghost records: seq<Record>)
    returns (observed': set<string>, errs': seq<Place>)
    requires Accounts(observed, errs, records)
    ensures Accounts(observed', errs', records + RecordsOf(dataPlane, Walked(m, names)))
  {
    observed', errs' := observed, errs;
    assert records + RecordsOf(dataPlane, Walked(m, names[..0])) == records;
    for i := 0 to |names|
      invariant Accounts(observed', errs', records + RecordsOf(dataPlane, Walked(m, names[..i])))
    {
      RecordsOfSnoc(dataPlane, m, names, i, records);
      observed', errs' := RecordIdentity(PlaceOf(dataPlane, names[i]), IdentityIn(m, names[i]), observed', errs',
                                         records + RecordsOf(dataPlane, Walked(m, names[..i])));
    }
    assert names[..|names|] == names;
  }

  /** The whole check: nil identities do not count, names are compared up to case, and the errors come
      in the order of the sorted operator names. */
  method ValidateUniqueWithinCluster(cp: map<string, Option<string>>, dp: map<string, Option<string>>,
                                     service: Option<string>)
    returns (errs: seq<Place>)
    ensures errs == Repeats(Recorded(cp, dp, service))
  {
    var cpNames := SortedNames(cp);
    var dpNames := SortedNames(dp);
    errs := RecordAll(cp, cpNames, dp, dpNames, service);
  }

  method RecordAll(cp: map<string, Option<string>>, cpNames: seq<string>, dp: map<string, Option<string>>,
                   dpNames: seq<string>, service: Option<string>)
    returns (errs: seq<Place>)
    ensures errs == Repeats(AllRecords(Walked(cp, cpNames), Walked(dp, dpNames), service))
  {
    ghost var c := RecordsOf(false, Walked(cp, cpNames));
    ghost var none: seq<Record> := [];
    assert Ids(none) == [] && none + c == c;
    var observed: set<string> := {};
    observed, errs := RecordNames(false, cp, cpNames, observed, [], none);
    observed, errs := RecordNames(true, dp, dpNames, observed, errs, c);
    observed, errs := RecordIdentity(Service, service, observed, errs, c + RecordsOf(true, Walked(dp, dpNames)));
  }

  lemma {:induction false} NothingRepeatsExactlyWhen(records: seq<Record>)
    ensures Repeats(records) == [] <==> NoRepeats(Ids(records))
  {
    if records != [] {
      var n := |records| - 1;
      NothingRepeatsExactlyWhen(records[..n]);
      NoRepeatsSnoc(Ids(records[..n]), records[n].id);
      assert Ids(records) == Ids(records[..n]) + [records[n].id];
    }
  }

  lemma {:induction false} IdsOfRecords(dataPlane: bool, refs: seq<Reference>)
    ensures Ids(RecordsOf(dataPlane, refs)) == Identities(refs)
  {
    if refs != [] { IdsOfRecords(dataPlane, refs[..|refs| - 1]); }
  }

  lemma IdsAppend(a: seq<Record>, b: seq<Record>)
    ensures Ids(a + b) == Ids(a) + Ids(b)
  {
  }

  lemma IdsOfAll(controlPlane: seq<Reference>, dataPlane: seq<Reference>, service: Option<string>)
    ensures Ids(AllRecords(controlPlane, dataPlane, service)) ==
            Identities(controlPlane) + Identities(dataPlane) + LoweredIdentity(service)
  {
    var c, d, s := RecordsOf(false, controlPlane), RecordsOf(true, dataPlane), RecordOf(Service, service);
    IdsOfRecords(false, controlPlane);
    IdsOfRecords(true, dataPlane);
    IdsAppend(c, d);
    IdsAppend(c + d, s);
    assert Ids(s) == LoweredIdentity(service);
  }

  lemma NoRepeatsAppend(a: seq<string>, b: seq<string>)
    ensures NoRepeats(a + b) <==> NoRepeats(a) && NoRepeats(b) && Elements(a) !! Elements(b)
  {
    if NoRepeats(a + b) {
      forall i, j | 0 <= i < j < |a| ensures a[i] != a[j] { assert (a + b)[i] == a[i] && (a + b)[j] == a[j]; }
      forall i, j | 0 <= i < j < |b| ensures b[i] != b[j] {
        assert (a + b)[|a| + i] == b[i] && (a + b)[|a| + j] == b[j];
      }
      forall i, j | 0 <= i < |a| && 0 <= j < |b| ensures a[i] != b[j] {
        assert (a + b)[i] == a[i] && (a + b)[|a| + j] == b[j];
      }
    }
    if NoRepeats(a) && NoRepeats(b) && Elements(a) !! Elements(b) {
      forall i, j | 0 <= i < j < |a + b| ensures (a + b)[i] != (a + b)[j] {
        if i < |a| <= j { assert a[i] in Elements(a) && b[j - |a|] in Elements(b); }
      }
    }
  }

  lemma SortedKeysWalk<T>(m: map<string, T>)
    ensures Walks(SortedKeys(m.Keys), m)
  {
    var order := SortedKeys(m.Keys);
    forall i, j | 0 <= i < j < |order| ensures order[i] != order[j] { LessIrreflexive(order[i]); }
    assert forall k :: k in order <==> k in Elements(order);
  }

  /** Once the first check passes, in whatever order it walked the maps, the second can only fail
      because two data plane operators share an identity. */
  lemma UniqueExactlyWhenDataPlaneIs(ids: seq<string>, cp: map<string, Option<string>>, dp: map<string, Option<string>>,
                                     service: Option<string>, c: seq<string>, d: seq<string>)
    requires Walks(c, cp) && Walks(d, dp) && Corresponds(ids, Walked(cp, c), service, Walked(dp, d))
    ensures Repeats(Recorded(cp, dp, service)) == [] <==> NoRepeats(Identities(Walked(dp, d)))
  {
    var c', d' := SortedKeys(cp.Keys), SortedKeys(dp.Keys);
    SortedKeysWalk(cp);
    SortedKeysWalk(dp);
    VerdictIgnoresOrder(ids, cp, dp, service, c, d, c', d');
    WalksAgree(dp, d, d');
    NothingRepeatsExactlyWhen(Recorded(cp, dp, service));
    IdsOfAll(Walked(cp, c'), Walked(dp, d'), service);
    DisjointParts(Identities(Walked(cp, c')), Identities(Walked(dp, d')), LoweredIdentity(service));
  }

  lemma DisjointParts(c: seq<string>, d: seq<string>, s: seq<string>)
    requires NoRepeats(c + s) && Elements(d) !! Elements(c + s)
    ensures NoRepeats(c + d + s) <==> NoRepeats(d)
  {
    NoRepeatsAppend(c, s);
    NoRepeatsAppend(c + d, s);
    NoRepeatsAppend(c, d);
    assert Elements(c + s) == Elements(c) + Elements(s);
    assert Elements(c + d) == Elements(c) + Elements(d);
  }
}
