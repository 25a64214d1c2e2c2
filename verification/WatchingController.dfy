/** The generic watching controller: events are mapped to keys by walking a resource ID towards its
    root, filtered by the registered interests, and put on the work queue that the workers serve. */
module WatchingController {
  import opened Options
  import opened Text
  import opened WorkQueue

  /** A resource ID with its chain of parents; `Nil` is the nil pointer. */
  datatype ResourceID = Nil | ID(kind: string, name: string, parent: ResourceID)

  // ---------- the walk ----------

  /** The resource reached after `hops` steps towards the root. */
  function Ancestor(id: ResourceID, hops: nat): ResourceID {
    if hops == 0 || id.Nil? then id else Ancestor(id.parent, hops - 1)
  }

  function Depth(id: ResourceID): nat { if id.Nil? then 0 else 1 + Depth(id.parent) }

  lemma {:induction false} AncestorStep(id: ResourceID, hops: nat)
    requires Ancestor(id, hops).ID?
    ensures Ancestor(id, hops + 1) == Ancestor(id, hops).parent
  {
    if hops > 0 { AncestorStep(id.parent, hops - 1); }
  }

  lemma {:induction false} AncestorBeyond(id: ResourceID, hops: nat, further: nat)
    requires Ancestor(id, hops).Nil? && hops <= further
    ensures Ancestor(id, further).Nil?
  {
    if hops > 0 && id.ID? { AncestorBeyond(id.parent, hops - 1, further - 1); }
  }

  predicate Matches(id: ResourceID, kind: string) { id.ID? && EqualFold(id.kind, kind) }

  predicate WithinDepth(hops: nat, maxDepth: int) { maxDepth < 0 || hops <= maxDepth }

  /** `hops` leads to the nearest resource of the controller's kind inside the hop limit. */
  ghost predicate Nearest(id: ResourceID, kind: string, maxDepth: int, hops: nat) {
    && WithinDepth(hops, maxDepth) && Matches(Ancestor(id, hops), kind)
    && forall h :: 0 <= h < hops ==> !Matches(Ancestor(id, h), kind)
  }

  /** The parent walk ends for every chain and limit. It finds a resource exactly when one of the
      kind lies within the limit, and then it is the nearest one; a negative limit is no limit. */
  method Walk(id: ResourceID, kind: string, maxDepth: int) returns (target: ResourceID, ghost hops: nat)
    requires id.ID?
    ensures target.ID? ==> target == Ancestor(id, hops) && Nearest(id, kind, maxDepth, hops)
    ensures target.Nil? ==> forall h: nat :: WithinDepth(h, maxDepth) ==> !Matches(Ancestor(id, h), kind)
  {
    target := id;
    hops := 0;
    var left := maxDepth;
    while !EqualFold(target.kind, kind)
      invariant target.ID? && target == Ancestor(id, hops) && WithinDepth(hops, maxDepth)
      invariant left == if maxDepth < 0 then maxDepth else maxDepth - hops
      invariant forall h :: 0 <= h < hops ==> !Matches(Ancestor(id, h), kind)
      decreases Depth(target)
    {
      if left == 0 {
        target := Nil;
        return;
      }
      if left > 0 {
        left := left - 1;
      }
      AncestorStep(id, hops);
      target := target.parent;
      hops := hops + 1;
      if target.Nil? {
        forall h: nat | WithinDepth(h, maxDepth) ensures !Matches(Ancestor(id, h), kind) {
          if h >= hops { AncestorBeyond(id, hops, h); }
        }
        return;
      }
    }
  }

  // ---------- the controller ----------

  /** No registration accepts everything; otherwise the event's own type and name must be registered. */
  ghost predicate Interesting(interests: map<string, seq<string>>, id: ResourceID)
    requires id.ID?
  {
    || interests == map[]
    || (Lower(id.kind) in interests && exists i :: 0 <= i < |interests[Lower(id.kind)]| &&
                                        interests[Lower(id.kind)][i] in {"*", Lower(id.name)})
  }

  /** The registration names this resource: its type, and its name or the wildcard, up to case. */
  predicate Names(id: ResourceID, kind: string, name: string)
    requires id.ID?
  {
    EqualFold(id.kind, kind) && (name == "*" || EqualFold(id.name, name))
  }

  function Registered(interests: map<string, seq<string>>, kind: string, name: string): map<string, seq<string>> {
    var key := Lower(kind);
    interests[key := (if key in interests then interests[key] else []) + [Lower(name)]]
  }

  /** A registration adds what it names. The first one also ends the acceptance of everything. */
  lemma RegistrationMeans(interests: map<string, seq<string>>, kind: string, name: string, id: ResourceID)
    requires id.ID?
    ensures Interesting(Registered(interests, kind, name), id) <==>
            (interests != map[] && Interesting(interests, id)) || Names(id, kind, name)
  {
    var after, key := Registered(interests, kind, name), Lower(id.kind);
    EqualFoldIsEqualLower(id.kind, kind);
    EqualFoldIsEqualLower(id.name, name);
    LowerOfWildcard(name);
    assert Lower(kind) in after;
    if key == Lower(kind) {
      var names := if key in interests then interests[key] else [];
      assert after[key] == names + [Lower(name)];
      if Names(id, kind, name) { assert after[key][|names|] in {"*", Lower(id.name)}; }
      if i :| 0 <= i < |names| && names[i] in {"*", Lower(id.name)} { assert after[key][i] == names[i]; }
    }
  }

  lemma LowerOfWildcard(name: string)
    ensures Lower(name) == "*" <==> name == "*"
  {
    if Lower(name) == "*" {
      assert |name| == 1 && LowerChar(name[0]) == Lower(name)[0] == '*';
    }
  }

  class Controller {
    const kind: string
    const makeKey: ResourceID -> Key
    var interests: map<string, seq<string>>
    var state: State

    constructor (kind: string, makeKey: ResourceID -> Key)
      ensures this.kind == kind && this.makeKey == makeKey && interests == map[] && state == INIT
    {
      this.kind := kind;
      this.makeKey := makeKey;
      interests := map[];
      state := INIT;
    }

    method AddInterestingResource(resourceKind: string, name: string)
      modifies this`interests
      ensures interests == Registered(old(interests), resourceKind, name)
      ensures forall id: ResourceID :: id.ID? ==>
        (Interesting(interests, id) <==>
         (old(interests) != map[] && Interesting(old(interests), id)) || Names(id, resourceKind, name))
    {
      var key := Lower(resourceKind);
      interests := interests[key := (if key in interests then interests[key] else []) + [Lower(name)]];
      forall id: ResourceID | id.ID?
        ensures Interesting(interests, id) <==>
                (old(interests) != map[] && Interesting(old(interests), id)) || Names(id, resourceKind, name)
      {
        RegistrationMeans(old(interests), resourceKind, name, id);
      }
    }

    method IsResourceInteresting(id: ResourceID) returns (interesting: bool)
      requires id.ID?
      ensures interesting <==> Interesting(interests, id)
    {
      if interests == map[] { return true; }
      if Lower(id.kind) !in interests { return false; }
      var names := interests[Lower(id.kind)];
      for i := 0 to |names|
        invariant forall k :: 0 <= k < i ==> names[k] !in {"*", Lower(id.name)}
      {
        if names[i] == "*" || names[i] == Lower(id.name) { return true; }
      }
      return false;
    }

    /** The event itself is interesting, and a resource of the controller's kind lies within the limit. */
    ghost predicate HasTarget(id: ResourceID, maxDepth: int)
      reads this`interests
    {
      && id.ID? && Interesting(interests, id)
      && exists h: nat :: WithinDepth(h, maxDepth) && Matches(Ancestor(id, h), kind)
    }

    /** An interesting event with a target adds the target's key: at once when the resource changed,
        whatever the cooldown says, and otherwise unless a cooldown checker refuses it. Everything
        else leaves the queue alone. `cooldown` is the checker's answer, or `None` without a checker. */
    method EnqueueWithMaxDepth(id: ResourceID, changed: bool, maxDepth: int, cooldown: Option<bool>)
      returns (ghost event: Option<Event>)
      modifies this`state
      ensures event.None? ==> state == old(state)
      ensures event.Some? ==> Enabled(old(state), event.value) && state == Step(old(state), event.value)
      ensures event.Some? <==> HasTarget(id, maxDepth)
      ensures event.Some? ==>
        exists h: nat :: (&& Nearest(id, kind, maxDepth, h)
                          && event.value == if changed then Changed(makeKey(Ancestor(id, h)))
                                            else Resync(makeKey(Ancestor(id, h)), cooldown != Some(false)))
    {
      event := None;
      if id.Nil? { return; }
      var interesting := IsResourceInteresting(id);
      if !interesting { return; }
      ghost var hops: nat;
      var target;
      target, hops := Walk(id, kind, maxDepth);
      if target.Nil? { return; }
      var key := makeKey(target);
      event := Some(if changed then Changed(key) else Resync(key, cooldown != Some(false)));
      if changed {
        state := Add(state, key);
        return;
      }
      if cooldown == Some(false) { return; }
      state := Add(state, key);
    }

    /** An update event is a change exactly when the stored version tag differs. */
    method OnUpdate(oldEtag: string, newEtag: string, id: ResourceID, maxDepth: int, cooldown: Option<bool>)
      returns (ghost event: Option<Event>)
      modifies this`state
      ensures event.None? ==> state == old(state)
      ensures event.Some? ==> Enabled(old(state), event.value) && state == Step(old(state), event.value)
      ensures event.Some? <==> HasTarget(id, maxDepth)
      ensures event.Some? ==>
        exists h: nat :: (&& Nearest(id, kind, maxDepth, h)
                          && event.value == if oldEtag != newEtag then Changed(makeKey(Ancestor(id, h)))
                                            else Resync(makeKey(Ancestor(id, h)), cooldown != Some(false)))
    {
      event := EnqueueWithMaxDepth(id, oldEtag != newEtag, maxDepth, cooldown);
    }

    /** The calls a worker makes for one item, each an atomic step of the queue. */
    method Get(worker: nat) returns (key: Key)
      requires Enabled(state, Take(worker))
      modifies this`state
      ensures state == Step(old(state), Take(worker)) && key == old(state).queue[0]
    {
      key := state.queue[0];
      state := state.(queue := state.queue[1..], dirty := state.dirty - {key}, processing := state.processing + {key},
                      workers := state.workers[worker := Syncing(key)]);
    }

    method Report(worker: nat, failed: bool, immediately: bool)
      requires Enabled(state, Succeed(worker))
      modifies this`state
      ensures state == Step(old(state), if failed then Fail(worker, immediately) else Succeed(worker))
    {
      var key := state.workers[worker].key;
      state := state.(workers := state.workers[worker := Reported(key)]);
      if failed {
        if immediately {
          state := Add(state, key);
        } else {
          state := state.(delayed := state.delayed + {key});
        }
      }
    }

    method Done(worker: nat)
      requires Enabled(state, Release(worker))
      modifies this`state
      ensures state == Step(old(state), Release(worker))
    {
      var key := state.workers[worker].key;
      state := state.(processing := state.processing - {key}, workers := state.workers - {worker});
      if key in state.dirty {
        state := state.(queue := state.queue + [key]);
      }
    }
  }
}
