/** Folding the entries of an upgrade graph archive into the list of version profiles. Entries are
    taken as already unpacked; what the path, YAML and version libraries make of a text is a parameter. */
module GraphData {
  import opened Options
  import opened Text

  const MAX_ENTRIES := 10000
  const MAX_ENTRY_SIZE := 4 * 1024 * 1024
  const ALLOWED_GROUPS := {"stable", "fast", "candidate", "nightly"}

  datatype Kind = Directory | Regular | OtherKind
  datatype Entry = Entry(path: string, kind: Kind, size: nat, content: string)
  datatype Profile = Profile(id: string, channelGroup: string)

  /** The libraries: whether a path is in clean form, whether it names a channel file, whether a
      content is a supported schema version, the channel name in a channel file (`None` if it is not
      one document holding a mapping with distinct scalar keys and a name), and the profile a channel
      name stands for (`None` if it is not a y-stream channel). */
  datatype Decoder = Decoder(clean: string -> bool, channelFile: string -> bool, schema: string -> bool,
                             channel: string -> Option<string>, rollout: string -> Option<Profile>)

  function TrimDotSlash(path: string): string {
    if |path| >= 2 && path[0] == '.' && path[1] == '/' then path[2..] else path
  }

  predicate ValidPath(d: Decoder, name: string) {
    && !(name != [] && name[0] == '/') && '\\' !in name && d.clean(name)
    && name != ".." && !(|name| >= 3 && name[..3] == "../")
  }

  /** The text before the first dash, or all of it. */
  function Group(channel: string): string {
    if channel == [] || channel[0] == '-' then [] else [channel[0]] + Group(channel[1..])
  }

  // ---------- what one entry means ----------

  predicate IsRoot(e: Entry) { e.kind.Directory? && (TrimDotSlash(e.path) == "" || TrimDotSlash(e.path) == ".") }

  predicate IsVersion(e: Entry) { e.kind.Regular? && TrimDotSlash(e.path) == "version" }

  predicate IsChannel(d: Decoder, e: Entry) {
    e.kind.Regular? && TrimDotSlash(e.path) != "version" && d.channelFile(TrimDotSlash(e.path))
  }

  predicate InAllowedGroup(d: Decoder, e: Entry) {
    IsChannel(d, e) && d.channel(e.content).Some? && Group(d.channel(e.content).value) in ALLOWED_GROUPS
  }

  /** Everything that is wrong with an entry by itself. */
  predicate Bad(d: Decoder, e: Entry) {
    || e.size > MAX_ENTRY_SIZE
    || (!IsRoot(e) && (!ValidPath(d, TrimDotSlash(e.path)) || e.kind.OtherKind?))
    || (IsVersion(e) && !d.schema(e.content))
    || (IsChannel(d, e) && d.channel(e.content).None?)
    || (InAllowedGroup(d, e) && d.rollout(d.channel(e.content).value).None?)
  }

  /** The path an entry contributes, if any. */
  function PathOf(e: Entry): seq<string> { if IsRoot(e) then [] else [TrimDotSlash(e.path)] }

  /** The paths that are checked for repetition: all but the root directory's. */
  function Paths(es: seq<Entry>): seq<string> { Flat(es, PathOf) }

  ghost function Channels(d: Decoder, es: seq<Entry>): set<string> {
    set e | e in es && InAllowedGroup(d, e) :: d.channel(e.content).value
  }

  // ---------- the verdict, without the fold ----------

  ghost predicate Acceptable(d: Decoder, es: seq<Entry>) {
    && |es| <= MAX_ENTRIES
    && (forall e :: e in es ==> !Bad(d, e))
    && NoRepeats(Paths(es))
    && (exists e :: e in es && IsVersion(e))
    && (exists e :: e in es && IsChannel(d, e))
  }

  function ProfilesOf(d: Decoder, names: seq<string>): (r: seq<Profile>)
    requires forall n :: n in names ==> d.rollout(n).Some?
    ensures |r| == |names|
  {
    seq(|names|, i requires 0 <= i < |names| => assert names[i] in names; d.rollout(names[i]).value)
  }

  lemma ChannelsRollOut(d: Decoder, es: seq<Entry>)
    requires forall e :: e in es ==> !Bad(d, e)
    ensures forall n :: n in Channels(d, es) ==> d.rollout(n).Some?
    ensures forall n :: n in SortedKeys(Channels(d, es)) ==> d.rollout(n).Some?
  {
    assert forall n :: n in SortedKeys(Channels(d, es)) <==> n in Elements(SortedKeys(Channels(d, es)));
  }

  /** One profile per distinct allowed channel, in increasing order of channel name. */
  ghost function Verdict(d: Decoder, es: seq<Entry>): Option<seq<Profile>> {
    if Acceptable(d, es) then
      ChannelsRollOut(d, es);
      Some(ProfilesOf(d, SortedKeys(Channels(d, es))))
    else None
  }

  // ---------- the fold ----------

  /** The loop's variables. */
  datatype Gathering = Gathering(seen: set<string>, profiles: map<string, Profile>, versionSeen: bool,
                                 channelSeen: bool)

  const NOTHING := Gathering({}, map[], false, false)

  /** The entry does not end the parse with an error. */
  predicate Fits(d: Decoder, e: Entry, seen: set<string>) {
    !Bad(d, e) && (IsRoot(e) || TrimDotSlash(e.path) !in seen)
  }

  function Next(d: Decoder, g: Gathering, e: Entry): Gathering
    requires !Bad(d, e)
  {
    Gathering(if IsRoot(e) then g.seen else g.seen + {TrimDotSlash(e.path)},
              if !InAllowedGroup(d, e) then g.profiles
              else g.profiles[d.channel(e.content).value := d.rollout(d.channel(e.content).value).value],
              g.versionSeen || IsVersion(e),
              g.channelSeen || IsChannel(d, e))
  }

  /** One round of the loop. */
  method ReadEntry(d: Decoder, e: Entry, g: Gathering) returns (ok: bool, g': Gathering)
    ensures ok <==> Fits(d, e, g.seen)
    ensures ok ==> g' == Next(d, g, e)
  {
    g' := g;
    ok := false;
    if e.size > MAX_ENTRY_SIZE { return; }
    var name := TrimDotSlash(e.path);
    if e.kind.Directory? && (name == "" || name == ".") { ok := true; return; }
    if !ValidPath(d, name) { return; }
    if name in g.seen { return; }
    g' := g'.(seen := g.seen + {name});
    if e.kind.Directory? { ok := true; return; }
    if !e.kind.Regular? { return; }
    if name == "version" {
      if !d.schema(e.content) { return; }
      g' := g'.(versionSeen := true);
      ok := true;
      return;
    }
    if !d.channelFile(name) { ok := true; return; }
    var channel := d.channel(e.content);
    if channel.None? { return; }
    g' := g'.(channelSeen := true);
    if Group(channel.value) !in ALLOWED_GROUPS { ok := true; return; }
    var profile := d.rollout(channel.value);
    if profile.None? { return; }
    g' := g'.(profiles := g.profiles[channel.value := profile.value]);
    ok := true;
  }

  /** The loop over a list of entries; `None` once an entry does not fit. */
  function Gather(d: Decoder, es: seq<Entry>): Option<Gathering> {
    if es == [] then Some(NOTHING)
    else
      var g, last := Gather(d, es[..|es| - 1]), es[|es| - 1];
      if g.None? || !Fits(d, last, g.value.seen) then None else Some(Next(d, g.value, last))
  }

  lemma MembersLast(es: seq<Entry>)
    requires es != []
    ensures forall x :: x in es <==> x in es[..|es| - 1] || x == es[|es| - 1]
  {
    assert es == es[..|es| - 1] + [es[|es| - 1]];
  }

  /** The parse runs through exactly when no entry is bad and no path comes twice. */
  lemma {:induction false} GatherSucceedsExactlyWhen(d: Decoder, es: seq<Entry>)
    ensures Gather(d, es).Some? <==> (forall e :: e in es ==> !Bad(d, e)) && NoRepeats(Paths(es))
    ensures Gather(d, es).Some? ==> Gather(d, es).value.seen == Elements(Paths(es))
  {
    if es != [] {
      var init, last := es[..|es| - 1], es[|es| - 1];
      GatherSucceedsExactlyWhen(d, init);
      MembersLast(es);
      NoRepeatsSnoc(Paths(init), TrimDotSlash(last.path));
      ElementsSnoc(Paths(init), TrimDotSlash(last.path));
      assert Paths(init) + [] == Paths(init);
    }
  }

  lemma {:induction false} GatheredFlags(d: Decoder, es: seq<Entry>)
    requires Gather(d, es).Some?
    ensures Gather(d, es).value.versionSeen <==> exists e :: e in es && IsVersion(e)
    ensures Gather(d, es).value.channelSeen <==> exists e :: e in es && IsChannel(d, e)
  {
    if es != [] {
      GatheredFlags(d, es[..|es| - 1]);
      MembersLast(es);
    }
  }

  lemma {:induction false} GatheredProfiles(d: Decoder, es: seq<Entry>)
    requires Gather(d, es).Some?
    ensures Gather(d, es).value.profiles.Keys == Channels(d, es)
    ensures forall n :: n in Gather(d, es).value.profiles ==> d.rollout(n) == Some(Gather(d, es).value.profiles[n])
  {
    if es != [] {
      var init, last := es[..|es| - 1], es[|es| - 1];
      GatheredProfiles(d, init);
      MembersLast(es);
      assert Channels(d, es) ==
             Channels(d, init) + if InAllowedGroup(d, last) then {d.channel(last.content).value} else {};
    }
  }

  lemma {:induction false} GatherPrefix(d: Decoder, es: seq<Entry>, n: nat)
    requires n <= |es| && Gather(d, es).Some?
    ensures Gather(d, es[..n]).Some?
  {
    if n < |es| {
      GatherPrefix(d, es[..|es| - 1], n);
      assert es[..|es| - 1][..n] == es[..n];
    } else {
      assert es[..n] == es;
    }
  }

  /** What the loop has gathered at the end decides the verdict. */
  lemma GatheringDecides(d: Decoder, es: seq<Entry>)
    ensures Gather(d, es).None? || |es| > MAX_ENTRIES ==> Verdict(d, es).None?
    ensures Gather(d, es).Some? && |es| <= MAX_ENTRIES ==>
              var g := Gather(d, es).value;
              && (forall n :: n in SortedKeys(g.profiles.Keys) ==> d.rollout(n).Some?)
              && Verdict(d, es) ==
                 if g.versionSeen && g.channelSeen then Some(ProfilesOf(d, SortedKeys(g.profiles.Keys))) else None
  {
    GatherSucceedsExactlyWhen(d, es);
    if Gather(d, es).Some? {
      GatheredFlags(d, es);
      GatheredProfiles(d, es);
      ChannelsRollOut(d, es);
    }
  }

  /** The loop over the archive. */
  method ReadEntries(d: Decoder, es: seq<Entry>) returns (gathered: Option<Gathering>)
    ensures gathered == if |es| <= MAX_ENTRIES then Gather(d, es) else None
  {
    var g := NOTHING;
    for i := 0 to |es|
      invariant i <= MAX_ENTRIES && Gather(d, es[..i]) == Some(g)
    {
      if i >= MAX_ENTRIES { return None; }
      assert es[..i + 1][..i] == es[..i];
      var ok;
      ok, g := ReadEntry(d, es[i], g);
      if !ok {
        if Gather(d, es).Some? { GatherPrefix(d, es, i + 1); }
        return None;
      }
    }
    assert es[..|es|] == es;
    gathered := Some(g);
  }

  method ParseGraphData(d: Decoder, es: seq<Entry>) returns (result: Option<seq<Profile>>)
    ensures result == Verdict(d, es)
  {
    GatheringDecides(d, es);
    var gathered := ReadEntries(d, es);
    if gathered.None? { return None; }
    var g := gathered.value;
    if !g.versionSeen || !g.channelSeen { return None; }
    GatheredProfiles(d, es);
    result := Assemble(d, g.profiles);
  }

  /** The keys of the map, sorted, and the profile of each. */
  method Assemble(d: Decoder, profiles: map<string, Profile>) returns (result: Option<seq<Profile>>)
    requires forall n :: n in profiles ==> d.rollout(n) == Some(profiles[n])
    ensures (forall n :: n in SortedKeys(profiles.Keys) ==> d.rollout(n).Some?) &&
            result == Some(ProfilesOf(d, SortedKeys(profiles.Keys)))
  {
    var names := SortedNames(profiles);
    var list := Profiles(names, profiles);
    assert forall n :: n in names ==> n in Elements(names);
    assert list == ProfilesOf(d, names) by {
      forall i | 0 <= i < |list| ensures list[i] == d.rollout(names[i]).value {
        assert names[i] in Elements(names);
      }
    }
    result := Some(list);
  }

  method Profiles(names: seq<string>, profiles: map<string, Profile>) returns (list: seq<Profile>)
    requires Elements(names) <= profiles.Keys
    ensures |list| == |names| && forall i :: 0 <= i < |names| ==> names[i] in profiles && list[i] == profiles[names[i]]
  {
    assert forall i :: 0 <= i < |names| ==> names[i] in Elements(names);
    list := [];
    for i := 0 to |names|
      invariant |list| == i && forall k :: 0 <= k < i ==> list[k] == profiles[names[k]]
    {
      list := list + [profiles[names[i]]];
    }
  }

  // ---------- the order of the entries does not matter ----------

  lemma SameLength(es: seq<Entry>, fs: seq<Entry>)
    requires multiset(es) == multiset(fs)
    ensures |es| == |fs| && forall e :: e in es <==> e in fs
  {
    assert |es| == |multiset(es)| && |fs| == |multiset(fs)|;
    forall e ensures e in es <==> e in fs {
      assert e in es <==> e in multiset(es);
      assert e in fs <==> e in multiset(fs);
    }
  }

  /** Every permutation of the archive's entries gets the same verdict and the same result. */
  lemma OrderDoesNotMatter(d: Decoder, es: seq<Entry>, fs: seq<Entry>)
    requires multiset(es) == multiset(fs)
    ensures Verdict(d, es) == Verdict(d, fs)
  {
    SameLength(es, fs);
    FlatOfPermutation(es, fs, PathOf);
    RepeatsOfPermutation(Paths(es), Paths(fs));
    assert Channels(d, es) == Channels(d, fs);
  }

  /** The channels of allowed groups that the archive names. */
  ghost predicate Names(d: Decoder, es: seq<Entry>, n: string) {
    exists e :: e in es && InAllowedGroup(d, e) && d.channel(e.content) == Some(n)
  }

  /** An accepted result lists, in strictly increasing order of channel name, one profile for each
      channel of an allowed group in the archive, and no other. */
  lemma ResultIsSortedByChannel(d: Decoder, es: seq<Entry>) returns (names: seq<string>)
    requires Verdict(d, es).Some?
    ensures StrictlySorted(names) && |names| == |Verdict(d, es).value|
    ensures forall n :: n in names <==> Names(d, es, n)
    ensures forall i :: 0 <= i < |names| ==> d.rollout(names[i]) == Some(Verdict(d, es).value[i])
  {
    ChannelsRollOut(d, es);
    names := SortedKeys(Channels(d, es));
    assert forall n :: n in names <==> n in Elements(names);
    assert forall n :: n in Channels(d, es) <==> Names(d, es, n);
    var result := Verdict(d, es).value;
    forall i | 0 <= i < |names| ensures d.rollout(names[i]) == Some(result[i]) {
      assert names[i] in names;
    }
  }
}
