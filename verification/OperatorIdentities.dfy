/** Admission of operator identities: which operators a cluster must and may supply an identity for,
    at its OpenShift version and with its features, and the errors that are reported otherwise. */
module OperatorIdentities {
  import opened Options
  import opened Text

  // ---------- versions ----------

  datatype Version = Version(major: nat, minor: nat, patch: nat, pre: seq<string>, build: seq<string>)

  function Stripped(v: Version): Version { v.(pre := [], build := []) }

  predicate CoreLess(v: Version, w: Version) {
    v.major < w.major || (v.major == w.major && (v.minor < w.minor || (v.minor == w.minor && v.patch < w.patch)))
  }

  predicate CoreEqual(v: Version, w: Version) { v.major == w.major && v.minor == w.minor && v.patch == w.patch }

  /** Semantic version order for a version without pre-release: it follows every pre-release of itself. */
  predicate ReleaseLess(v: Version, w: Version)
    requires v.pre == []
  {
    CoreLess(v, w)
  }

  predicate ReleaseGreater(v: Version, w: Version)
    requires v.pre == []
  {
    CoreLess(w, v) || (CoreEqual(v, w) && w.pre != [])
  }

  // ---------- configuration ----------

  datatype Requirement = Always | OnEnablement
  datatype Operator = Operator(name: string, min: Option<Version>, max: Option<Version>, requirement: Requirement)
  datatype Config = Config(controlPlane: map<string, Operator>, dataPlane: map<string, Operator>)

  predicate Supported(o: Operator, version: Version) {
    var v := Stripped(version);
    if o.min.None? && o.max.None? then true
    else if o.min.Some? && ReleaseLess(v, o.min.value) then false
    else if o.max.Some? && ReleaseGreater(v, o.max.value) then false
    else true
  }

  predicate AlwaysRequired(o: Operator, version: Version) { o.requirement.Always? && Supported(o, version) }

  predicate SupportedName(m: map<string, Operator>, name: string, version: Version) {
    name in m && Supported(m[name], version)
  }

  /** Each operator is filed under its own name. */
  predicate WellFormed(m: map<string, Operator>) { forall k :: k in m ==> m[k].name == k }

  datatype PlaneSpec = PlaneSpec(min: Option<Version>, max: Option<Version>, requirement: Requirement)
  datatype Spec = Spec(controlPlane: Option<PlaneSpec>, dataPlane: Option<PlaneSpec>)

  function OperatorOf(name: string, p: PlaneSpec): Operator { Operator(name, p.min, p.max, p.requirement) }

  /** The constructor fills both maps from the specifications, in whatever order it meets them: each
      plane gets exactly the operators specified for it, under their own names. */
  method NewConfig(specs: map<string, Spec>, order: seq<string>) returns (c: Config)
    requires Enumerates(order, specs)
    ensures WellFormed(c.controlPlane) && WellFormed(c.dataPlane)
    ensures forall k :: k in c.controlPlane <==> k in specs && specs[k].controlPlane.Some?
    ensures forall k :: k in c.dataPlane <==> k in specs && specs[k].dataPlane.Some?
    ensures forall k :: k in c.controlPlane ==> c.controlPlane[k] == OperatorOf(k, specs[k].controlPlane.value)
    ensures forall k :: k in c.dataPlane ==> c.dataPlane[k] == OperatorOf(k, specs[k].dataPlane.value)
  {
    var cp, dp: map<string, Operator> := map[], map[];
    for i := 0 to |order|
      invariant forall k :: k in cp <==> k in order[..i] && specs[k].controlPlane.Some?
      invariant forall k :: k in dp <==> k in order[..i] && specs[k].dataPlane.Some?
      invariant forall k :: k in cp ==> k in specs && cp[k] == OperatorOf(k, specs[k].controlPlane.value)
      invariant forall k :: k in dp ==> k in specs && dp[k] == OperatorOf(k, specs[k].dataPlane.value)
    {
      var name := order[i];
      assert name in order && order[..i + 1] == order[..i] + [name];
      var spec := specs[name];
      if spec.controlPlane.Some? { cp := cp[name := OperatorOf(name, spec.controlPlane.value)]; }
      if spec.dataPlane.Some? { dp := dp[name := OperatorOf(name, spec.dataPlane.value)]; }
    }
    assert order[..|order|] == order;
    c := Config(cp, dp);
  }

  // ---------- the checks ----------

  datatype Plane = ControlPlane | DataPlane

  datatype Error =
    | Required(plane: Plane, name: string)
    | RequiredWhenEnabled(name: string)
    | Unrecognized(plane: Plane, name: string)
    | Unsupported(plane: Plane, name: string)

  const KMS := "kms"

  /** Identities by operator name; `None` is a nil identity. */
  type Supplied = map<string, Option<string>>

  predicate IsSupplied(s: Supplied, name: string) { name in s && s[name].Some? }

  ghost function RequiredNames(m: map<string, Operator>, v: Version): set<string> {
    set k | k in m && AlwaysRequired(m[k], v) :: m[k].name
  }

  ghost function MissingNames(m: map<string, Operator>, s: Supplied, v: Version): set<string> {
    set name | name in RequiredNames(m, v) && !IsSupplied(s, name)
  }

  ghost function UnrecognizedNames(m: map<string, Operator>, s: Supplied): set<string> {
    set name | name in s && name != "" && name !in m
  }

  ghost function UnsupportedNames(m: map<string, Operator>, s: Supplied, v: Version): set<string> {
    set name | name in s && name != "" && !SupportedName(m, name, v)
  }

  function Errors(names: seq<string>, make: string -> Error): (r: seq<Error>)
    ensures |r| == |names|
  {
    seq(|names|, i requires 0 <= i < |names| => make(names[i]))
  }

  /** A sorted list is the sorted list of its elements. */
  lemma SortedIs(s: seq<string>, names: set<string>)
    requires StrictlySorted(s) && Elements(s) == names
    ensures s == SortedKeys(names)
  {
    StrictlySortedUnique(s, SortedKeys(names));
  }

  function Missing(names: seq<string>, s: Supplied): seq<string> {
    if names == [] then []
    else if IsSupplied(s, names[0]) then Missing(names[1..], s)
    else [names[0]] + Missing(names[1..], s)
  }

  lemma {:induction false} MissingSorted(names: seq<string>, s: Supplied)
    requires StrictlySorted(names)
    ensures StrictlySorted(Missing(names, s))
    ensures Elements(Missing(names, s)) == set x | x in Elements(names) && !IsSupplied(s, x)
  {
    if names != [] {
      var rest := Missing(names[1..], s);
      MissingSorted(names[1..], s);
      assert names == [names[0]] + names[1..];
      ElementsCons(names[0], names[1..]);
      ElementsCons(names[0], rest);
      forall j | 0 <= j < |rest| ensures Less(names[0], rest[j]) {
        assert rest[j] in Elements(rest);
        var i :| 0 <= i < |names[1..]| && names[1..][i] == rest[j];
        assert names[i + 1] == rest[j];
      }
    }
  }

  /** The always required operators of a plane, in the order the configuration is walked. */
  method CollectRequired(m: map<string, Operator>, order: seq<string>, v: Version) returns (names: seq<string>)
    requires Enumerates(order, m)
    ensures Elements(names) == RequiredNames(m, v)
  {
    names := [];
    for i := 0 to |order|
      invariant Elements(names) == set k | k in order[..i] && AlwaysRequired(m[k], v) :: m[k].name
    {
      assert order[i] in order && order[..i + 1] == order[..i] + [order[i]];
      if AlwaysRequired(m[order[i]], v) {
        ElementsSnoc(names, m[order[i]].name);
        names := names + [m[order[i]].name];
      }
    }
    assert order[..|order|] == order;
  }

  method SelectMissing(names: seq<string>, s: Supplied) returns (missing: seq<string>)
    ensures missing == Missing(names, s)
  {
    missing := [];
    for i := 0 to |names|
      invariant missing + Missing(names[i..], s) == Missing(names, s)
    {
      assert names[i..][1..] == names[i + 1..];
      if !IsSupplied(s, names[i]) { missing := missing + [names[i]]; }
    }
  }

  /** One error per always required operator without an identity, sorted by name, for every order in
      which the configuration is walked. */
  method RequiredErrors(plane: Plane, m: map<string, Operator>, order: seq<string>, s: Supplied, v: Version)
    returns (errs: seq<Error>)
    requires Enumerates(order, m)
    ensures errs == Errors(SortedKeys(MissingNames(m, s, v)), name => Required(plane, name))
  {
    var names := CollectRequired(m, order, v);
    var missing := SelectMissing(Sort(names), s);
    MissingSorted(Sort(names), s);
    SortedIs(missing, MissingNames(m, s, v));
    errs := Errors(missing, name => Required(plane, name));
  }

  /** One error per supplied name the service does not know, sorted, for every order of the supplied map. */
  method UnrecognizedErrors(plane: Plane, m: map<string, Operator>, s: Supplied, order: seq<string>)
    returns (errs: seq<Error>)
    requires Enumerates(order, s)
    ensures errs == Errors(SortedKeys(UnrecognizedNames(m, s)), name => Unrecognized(plane, name))
  {
    var names: seq<string> := [];
    for i := 0 to |order|
      invariant Elements(names) == set k | k in order[..i] && k != "" && k !in m
    {
      assert order[..i + 1] == order[..i] + [order[i]];
      if order[i] == "" || order[i] in m { continue; }
      ElementsSnoc(names, order[i]);
      names := names + [order[i]];
    }
    assert order[..|order|] == order;
    SortedIs(Sort(names), UnrecognizedNames(m, s));
    errs := Errors(Sort(names), name => Unrecognized(plane, name));
  }

  method UnsupportedErrors(plane: Plane, m: map<string, Operator>, s: Supplied, order: seq<string>, v: Version)
    returns (errs: seq<Error>)
    requires Enumerates(order, s)
    ensures errs == Errors(SortedKeys(UnsupportedNames(m, s, v)), name => Unsupported(plane, name))
  {
    var names: seq<string> := [];
    for i := 0 to |order|
      invariant Elements(names) == set k | k in order[..i] && k != "" && !SupportedName(m, k, v)
    {
      assert order[..i + 1] == order[..i] + [order[i]];
      if order[i] == "" || SupportedName(m, order[i], v) { continue; }
      ElementsSnoc(names, order[i]);
      names := names + [order[i]];
    }
    assert order[..|order|] == order;
    SortedIs(Sort(names), UnsupportedNames(m, s, v));
    errs := Errors(Sort(names), name => Unsupported(plane, name));
  }

  // ---------- the whole admission ----------

  /** The KMS operator is required once etcd encryption is customer managed, if the version has it. */
  predicate KmsMissing(c: Config, cp: Supplied, v: Version, customerManaged: bool) {
    customerManaged && SupportedName(c.controlPlane, KMS, v) && !IsSupplied(cp, KMS)
  }

  ghost function ExpectedRequired(c: Config, cp: Supplied, dp: Supplied, version: Option<Version>,
                                  customerManaged: bool): seq<Error> {
    if version.None? then [] else
      var v := version.value;
      Errors(SortedKeys(MissingNames(c.controlPlane, cp, v)), name => Required(ControlPlane, name)) +
      Errors(SortedKeys(MissingNames(c.dataPlane, dp, v)), name => Required(DataPlane, name)) +
      (if KmsMissing(c, cp, v, customerManaged) then [RequiredWhenEnabled(KMS)] else [])
  }

  ghost function ExpectedNames(c: Config, cp: Supplied, dp: Supplied, version: Option<Version>): seq<Error> {
    Errors(SortedKeys(UnrecognizedNames(c.controlPlane, cp)), name => Unrecognized(ControlPlane, name)) +
    Errors(SortedKeys(UnrecognizedNames(c.dataPlane, dp)), name => Unrecognized(DataPlane, name)) +
    (if version.None? then [] else
      Errors(SortedKeys(UnsupportedNames(c.controlPlane, cp, version.value)), name => Unsupported(ControlPlane, name)) +
      Errors(SortedKeys(UnsupportedNames(c.dataPlane, dp, version.value)), name => Unsupported(DataPlane, name)))
  }

  /** The orders in which Go happens to walk the four maps. */
  datatype Orders = Orders(controlPlane: seq<string>, dataPlane: seq<string>, suppliedControl: seq<string>,
                           suppliedData: seq<string>)

  ghost predicate OrdersFit(o: Orders, c: Config, cp: Supplied, dp: Supplied) {
    Enumerates(o.controlPlane, c.controlPlane) && Enumerates(o.dataPlane, c.dataPlane) &&
    Enumerates(o.suppliedControl, cp) && Enumerates(o.suppliedData, dp)
  }

  /** The error list depends on the configuration, the supplied identities and the version only, and
      not on any map iteration order. `None` is a version that does not parse. */
  method AdmitUserAssignedIdentities(c: Config, cp: Supplied, dp: Supplied, version: Option<Version>,
                                     customerManaged: bool, o: Orders)
    returns (errs: seq<Error>)
    requires OrdersFit(o, c, cp, dp)
    ensures errs == ExpectedRequired(c, cp, dp, version, customerManaged) + ExpectedNames(c, cp, dp, version)
  {
    var required := AdmitRequired(c, cp, dp, version, customerManaged, o);
    var names := AdmitNames(c, cp, dp, version, o);
    errs := required + names;
  }

  method AdmitRequired(c: Config, cp: Supplied, dp: Supplied, version: Option<Version>, customerManaged: bool,
                       o: Orders)
    returns (errs: seq<Error>)
    requires OrdersFit(o, c, cp, dp)
    ensures errs == ExpectedRequired(c, cp, dp, version, customerManaged)
  {
    if version.None? { return []; }
    var v := version.value;
    var fromControl := RequiredErrors(ControlPlane, c.controlPlane, o.controlPlane, cp, v);
    var fromData := RequiredErrors(DataPlane, c.dataPlane, o.dataPlane, dp, v);
    errs := fromControl + fromData + (if KmsMissing(c, cp, v, customerManaged) then [RequiredWhenEnabled(KMS)] else []);
  }

  method AdmitNames(c: Config, cp: Supplied, dp: Supplied, version: Option<Version>, o: Orders)
    returns (errs: seq<Error>)
    requires OrdersFit(o, c, cp, dp)
    ensures errs == ExpectedNames(c, cp, dp, version)
  {
    var u1 := UnrecognizedErrors(ControlPlane, c.controlPlane, cp, o.suppliedControl);
    var u2 := UnrecognizedErrors(DataPlane, c.dataPlane, dp, o.suppliedData);
    errs := u1 + u2;
    if version.Some? {
      var s1 := UnsupportedErrors(ControlPlane, c.controlPlane, cp, o.suppliedControl, version.value);
      var s2 := UnsupportedErrors(DataPlane, c.dataPlane, dp, o.suppliedData, version.value);
      errs := errs + (s1 + s2);
    }
  }

  // ---------- what is accepted ----------

  /** Required operators have an identity and every name, unless empty, is one the version supports. */
  ghost predicate PlaneAccepted(m: map<string, Operator>, s: Supplied, v: Version) {
    && (forall k :: k in m && AlwaysRequired(m[k], v) ==> IsSupplied(s, m[k].name))
    && (forall name :: name in s && name != "" ==> SupportedName(m, name, v))
  }

  ghost predicate Accepted(c: Config, cp: Supplied, dp: Supplied, v: Version, customerManaged: bool) {
    PlaneAccepted(c.controlPlane, cp, v) && PlaneAccepted(c.dataPlane, dp, v) && !KmsMissing(c, cp, v, customerManaged)
  }

  lemma ErrorsEmpty(names: set<string>, make: string -> Error)
    ensures Errors(SortedKeys(names), make) == [] <==> names == {}
  {
    assert SortedKeys(names) == [] <==> Elements(SortedKeys(names)) == {} by {
      if SortedKeys(names) != [] { assert SortedKeys(names)[0] in Elements(SortedKeys(names)); }
    }
  }

  lemma PlaneAcceptedMeansNoNames(m: map<string, Operator>, s: Supplied, v: Version)
    ensures MissingNames(m, s, v) == {} && UnsupportedNames(m, s, v) == {} <==> PlaneAccepted(m, s, v)
    ensures UnsupportedNames(m, s, v) == {} ==> UnrecognizedNames(m, s) == {}
  {
    assert forall name :: name in UnrecognizedNames(m, s) ==> name in UnsupportedNames(m, s, v);
    if MissingNames(m, s, v) == {} {
      forall k | k in m && AlwaysRequired(m[k], v) ensures IsSupplied(s, m[k].name) {
        assert m[k].name in RequiredNames(m, v);
        assert m[k].name !in MissingNames(m, s, v);
      }
    }
    if UnsupportedNames(m, s, v) == {} {
      forall name | name in s && name != "" ensures SupportedName(m, name, v) {
        assert name !in UnsupportedNames(m, s, v);
      }
    }
  }

  /** With a version that parses, the checks accept exactly when what is required is supplied and what
      is supplied is supported. */
  lemma AcceptedExactlyWhen(c: Config, cp: Supplied, dp: Supplied, v: Version, customerManaged: bool)
    ensures ExpectedRequired(c, cp, dp, Some(v), customerManaged) + ExpectedNames(c, cp, dp, Some(v)) == [] <==>
            Accepted(c, cp, dp, v, customerManaged)
  {
    PlaneAcceptedMeansNoNames(c.controlPlane, cp, v);
    PlaneAcceptedMeansNoNames(c.dataPlane, dp, v);
    ErrorsEmpty(MissingNames(c.controlPlane, cp, v), name => Required(ControlPlane, name));
    ErrorsEmpty(MissingNames(c.dataPlane, dp, v), name => Required(DataPlane, name));
    ErrorsEmpty(UnrecognizedNames(c.controlPlane, cp), name => Unrecognized(ControlPlane, name));
    ErrorsEmpty(UnrecognizedNames(c.dataPlane, dp), name => Unrecognized(DataPlane, name));
    ErrorsEmpty(UnsupportedNames(c.controlPlane, cp, v), name => Unsupported(ControlPlane, name));
    ErrorsEmpty(UnsupportedNames(c.dataPlane, dp, v), name => Unsupported(DataPlane, name));
  }

  // ---------- something is always accepted ----------

  /** What a plane requires it also supports, under the name it requires it. */
  ghost predicate Satisfiable(m: map<string, Operator>, v: Version) {
    forall k :: k in m && AlwaysRequired(m[k], v) ==> m[k].name == "" || SupportedName(m, m[k].name, v)
  }

  ghost function Minimal(m: map<string, Operator>, v: Version, extra: set<string>): Supplied {
    map name | name in RequiredNames(m, v) + extra :: Some("identity")
  }

  lemma MinimalAccepted(m: map<string, Operator>, v: Version, extra: set<string>)
    requires Satisfiable(m, v) && forall name :: name in extra ==> SupportedName(m, name, v)
    ensures PlaneAccepted(m, Minimal(m, v, extra), v)
  {
    var s := Minimal(m, v, extra);
    forall k | k in m && AlwaysRequired(m[k], v) ensures IsSupplied(s, m[k].name) {
      assert m[k].name in RequiredNames(m, v);
    }
  }

  ghost predicate SomeAccepted(c: Config, v: Version, customerManaged: bool) {
    exists cp: Supplied, dp: Supplied :: Accepted(c, cp, dp, v, customerManaged)
  }

  /** Some assignment of identities is accepted exactly when no operator is required under a name that
      is not supported itself. */
  lemma SomethingAcceptedExactlyWhen(c: Config, v: Version, customerManaged: bool)
    ensures SomeAccepted(c, v, customerManaged) <==> Satisfiable(c.controlPlane, v) && Satisfiable(c.dataPlane, v)
  {
    if Satisfiable(c.controlPlane, v) && Satisfiable(c.dataPlane, v) {
      var extra := if SupportedName(c.controlPlane, KMS, v) then {KMS} else {};
      MinimalAccepted(c.controlPlane, v, extra);
      MinimalAccepted(c.dataPlane, v, {});
      assert Accepted(c, Minimal(c.controlPlane, v, extra), Minimal(c.dataPlane, v, {}), v, customerManaged);
    }
  }

  /** A configuration that files operators under their own names can always be satisfied, whatever
      the version and the features. */
  lemma WellFormedIsSatisfiable(c: Config, v: Version, customerManaged: bool)
    requires WellFormed(c.controlPlane) && WellFormed(c.dataPlane)
    ensures SomeAccepted(c, v, customerManaged)
  {
    SomethingAcceptedExactlyWhen(c, v, customerManaged);
  }

  /** Pre-release and build metadata of the cluster's version never change a decision. */
  lemma PrereleaseDoesNotMatter(c: Config, cp: Supplied, dp: Supplied, v: Version, customerManaged: bool)
    ensures Accepted(c, cp, dp, v, customerManaged) <==> Accepted(c, cp, dp, Stripped(v), customerManaged)
  {
    assert forall o: Operator :: Supported(o, v) <==> Supported(o, Stripped(v));
  }
}
