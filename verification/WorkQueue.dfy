/** The deduplicating, rate limited work queue of a watching controller and the workers that serve
    it, as a step system. `Add`, `Take`, `Release` and the delayed retries follow the contract of the
    Kubernetes client's work queue; the order of calls a worker makes is the controller's. */
module WorkQueue {
  import opened Text

  type Key = string

  /** A worker between taking a key and releasing it: still syncing, or with the outcome reported. */
  datatype Work = Syncing(key: Key) | Reported(key: Key)

  /** `dirty` holds the keys that must be synced, `queue` those of them no worker holds, `delayed`
      those waiting for a retry timer. Only busy workers are in `workers`. */
  datatype State = State(queue: seq<Key>, dirty: set<Key>, processing: set<Key>, delayed: set<Key>,
                         workers: map<nat, Work>)

  const INIT := State([], {}, {}, {}, map[])

  datatype Event =
    | Changed(key: Key)                        // a changed resource, or an explicit enqueue
    | Resync(key: Key, allowed: bool)          // an unchanged resource, gated by the cooldown
    | Later(key: Key)                          // an enqueue after a delay
    | Fire(key: Key)                           // a retry timer
    | Take(worker: nat)                        // a worker gets the next key
    | Succeed(worker: nat)                     // its sync returned without error
    | Fail(worker: nat, immediately: bool)     // its sync returned an error
    | Release(worker: nat)                     // the deferred call that ends the item

  function Add(s: State, k: Key): State {
    if k in s.dirty then s
    else if k in s.processing then s.(dirty := s.dirty + {k})
    else s.(dirty := s.dirty + {k}, queue := s.queue + [k])
  }

  predicate Enabled(s: State, e: Event) {
    match e
    case Changed(_) | Resync(_, _) | Later(_) => true
    case Fire(k) => k in s.delayed
    case Take(w) => w !in s.workers && s.queue != []
    case Succeed(w) => w in s.workers && s.workers[w].Syncing?
    case Fail(w, _) => w in s.workers && s.workers[w].Syncing?
    case Release(w) => w in s.workers && s.workers[w].Reported?
  }

  function Step(s: State, e: Event): State
    requires Enabled(s, e)
  {
    match e
    case Changed(k) => Add(s, k)
    case Resync(k, allowed) => if allowed then Add(s, k) else s
    case Later(k) => s.(delayed := s.delayed + {k})
    case Fire(k) => Add(s.(delayed := s.delayed - {k}), k)
    case Take(w) =>
      var k := s.queue[0];
      s.(queue := s.queue[1..], dirty := s.dirty - {k}, processing := s.processing + {k},
         workers := s.workers[w := Syncing(k)])
    case Succeed(w) => s.(workers := s.workers[w := Reported(s.workers[w].key)])
    case Fail(w, immediately) =>
      var k := s.workers[w].key;
      var s' := s.(workers := s.workers[w := Reported(k)]);
      if immediately then Add(s', k) else s'.(delayed := s'.delayed + {k})
    case Release(w) =>
      var k := s.workers[w].key;
      var s' := s.(processing := s.processing - {k}, workers := s.workers - {w});
      if k in s.dirty then s'.(queue := s'.queue + [k]) else s'
  }

  predicate Run(s: State, es: seq<Event>)
    decreases |es|
  {
    es == [] || (Enabled(s, es[0]) && Run(Step(s, es[0]), es[1..]))
  }

  function End(s: State, es: seq<Event>): State
    requires Run(s, es)
    decreases |es|
  {
    if es == [] then s else End(Step(s, es[0]), es[1..])
  }

  // ---------- what every step keeps ----------

  /** Keys queued are exactly those dirty and not held; keys held are exactly those of busy workers;
      no two workers hold one key. */
  ghost predicate Inv(s: State) {
    && NoRepeats(s.queue)
    && (forall k :: k in s.queue <==> k in s.dirty && k !in s.processing)
    && (forall w :: w in s.workers ==> s.workers[w].key in s.processing)
    && (forall k :: k in s.processing ==> exists w :: w in s.workers && s.workers[w].key == k)
    && (forall v, w :: v in s.workers && w in s.workers && v != w ==> s.workers[v].key != s.workers[w].key)
  }

  lemma AddKeepsInv(s: State, k: Key)
    requires Inv(s)
    ensures Inv(Add(s, k))
  {
    var s' := Add(s, k);
    forall x ensures x in s'.queue <==> x in s'.dirty && x !in s'.processing {
      if s'.queue != s.queue { assert x in s'.queue <==> x in s.queue || x == k; }
    }
  }

  lemma TakeKeepsInv(s: State, w: nat)
    requires Inv(s) && Enabled(s, Take(w))
    ensures Inv(Step(s, Take(w)))
  {
    var s', k := Step(s, Take(w)), s.queue[0];
    assert s.queue == [k] + s'.queue;
    forall x ensures x in s'.queue <==> x in s'.dirty && x !in s'.processing {
      assert x in s.queue <==> x == k || x in s'.queue;
      if x == k {
        assert forall j :: 0 <= j < |s'.queue| ==> s'.queue[j] == s.queue[j + 1];
      }
    }
    forall x | x in s'.processing ensures exists v :: v in s'.workers && s'.workers[v].key == x {
      if x == k {
        assert s'.workers[w].key == x;
      } else {
        var v :| v in s.workers && s.workers[v].key == x;
        assert s'.workers[v].key == x;
      }
    }
  }

  lemma ReportKeepsInv(s: State, w: nat)
    requires Inv(s) && w in s.workers
    ensures Inv(s.(workers := s.workers[w := Reported(s.workers[w].key)]))
  {
    var s' := s.(workers := s.workers[w := Reported(s.workers[w].key)]);
    forall x | x in s'.processing ensures exists v :: v in s'.workers && s'.workers[v].key == x {
      var v :| v in s.workers && s.workers[v].key == x;
      assert s'.workers[v].key == x;
    }
  }

  lemma ReleaseKeepsInv(s: State, w: nat)
    requires Inv(s) && Enabled(s, Release(w))
    ensures Inv(Step(s, Release(w)))
  {
    var s', k := Step(s, Release(w)), s.workers[w].key;
    assert k in s.processing && k !in s.queue;
    forall x ensures x in s'.queue <==> x in s'.dirty && x !in s'.processing {
      if k in s.dirty { assert x in s'.queue <==> x in s.queue || x == k; }
    }
    forall x | x in s'.processing ensures exists v :: v in s'.workers && s'.workers[v].key == x {
      var v :| v in s.workers && s.workers[v].key == x;
      assert v != w && s'.workers[v].key == x;
    }
  }

  lemma StepKeepsInv(s: State, e: Event)
    requires Inv(s) && Enabled(s, e)
    ensures Inv(Step(s, e))
  {
    match e
    case Changed(k) => AddKeepsInv(s, k);
    case Resync(k, _) => AddKeepsInv(s, k);
    case Later(_) =>
    case Fire(k) => AddKeepsInv(s.(delayed := s.delayed - {k}), k);
    case Take(w) => TakeKeepsInv(s, w);
    case Succeed(w) => ReportKeepsInv(s, w);
    case Fail(w, _) =>
      ReportKeepsInv(s, w);
      AddKeepsInv(s.(workers := s.workers[w := Reported(s.workers[w].key)]), s.workers[w].key);
    case Release(w) => ReleaseKeepsInv(s, w);
  }

  lemma {:induction false} RunKeepsInv(s: State, es: seq<Event>)
    requires Inv(s) && Run(s, es)
    ensures Inv(End(s, es))
    decreases |es|
  {
    if es != [] {
      StepKeepsInv(s, es[0]);
      RunKeepsInv(Step(s, es[0]), es[1..]);
    }
  }

  /** In every run from the empty queue no two workers hold one key. */
  lemma OneWorkerPerKey(es: seq<Event>, v: nat, w: nat)
    requires Run(INIT, es) && v in End(INIT, es).workers && w in End(INIT, es).workers && v != w
    ensures End(INIT, es).workers[v].key != End(INIT, es).workers[w].key
  {
    RunKeepsInv(INIT, es);
  }

  // ---------- nothing asked for is lost ----------

  predicate Takes(s: State, e: Event, k: Key)
    requires Enabled(s, e)
  {
    e.Take? && s.queue[0] == k
  }

  /** No sync of `k` begins anywhere in the run. */
  predicate NeverTaken(s: State, es: seq<Event>, k: Key)
    requires Run(s, es)
    decreases |es|
  {
    es == [] || (!Takes(s, es[0], k) && NeverTaken(Step(s, es[0]), es[1..], k))
  }

  predicate Scheduled(s: State, k: Key) { k in s.dirty || k in s.delayed }

  lemma StepKeepsScheduled(s: State, e: Event, k: Key)
    requires Enabled(s, e) && !Takes(s, e, k)
    ensures k in s.dirty ==> k in Step(s, e).dirty
    ensures Scheduled(s, k) ==> Scheduled(Step(s, e), k)
  {
  }

  lemma {:induction false} ScheduledUntilTaken(s: State, es: seq<Event>, k: Key)
    requires Run(s, es) && NeverTaken(s, es, k)
    ensures k in s.dirty ==> k in End(s, es).dirty
    ensures Scheduled(s, k) ==> Scheduled(End(s, es), k)
    decreases |es|
  {
    if es != [] {
      StepKeepsScheduled(s, es[0], k);
      ScheduledUntilTaken(Step(s, es[0]), es[1..], k);
    }
  }

  /** A changed event leaves its key dirty until a sync of the key begins, whatever else happens; at
      any such moment the key is in the queue or a worker holds it and will put it back on release. */
  lemma ChangeStaysPending(s: State, k: Key, es: seq<Event>)
    requires Inv(s) && Run(Step(s, Changed(k)), es) && NeverTaken(Step(s, Changed(k)), es, k)
    ensures var end := End(Step(s, Changed(k)), es); k in end.dirty && (k in end.queue || k in end.processing)
  {
    StepKeepsInv(s, Changed(k));
    RunKeepsInv(Step(s, Changed(k)), es);
    ScheduledUntilTaken(Step(s, Changed(k)), es, k);
  }

  /** A key whose sync returned an error stays queued, dirty or delayed until a sync of it begins. */
  lemma FailureStaysScheduled(s: State, w: nat, immediately: bool, es: seq<Event>)
    requires Enabled(s, Fail(w, immediately)) && Run(Step(s, Fail(w, immediately)), es)
    requires NeverTaken(Step(s, Fail(w, immediately)), es, s.workers[w].key)
    ensures Scheduled(End(Step(s, Fail(w, immediately)), es), s.workers[w].key)
  {
    ScheduledUntilTaken(Step(s, Fail(w, immediately)), es, s.workers[w].key);
  }

  /** The workers with a sync of `k` that counts, after one more event. */
  function HoldersAfter(s: State, e: Event, k: Key, holder: set<nat>): set<nat>
    requires Enabled(s, e)
  {
    if Takes(s, e, k) then holder + {e.worker} else if e.Fail? then holder - {e.worker} else holder
  }

  /** Whether a sync of `k` begins in the run and later succeeds; `holder` is the worker of a sync of
      `k` that began in the part already read. */
  predicate Served(s: State, es: seq<Event>, k: Key, holder: set<nat>)
    requires Run(s, es)
    decreases |es|
  {
    if es == [] then false
    else if es[0].Succeed? && es[0].worker in holder then true
    else Served(Step(s, es[0]), es[1..], k, HoldersAfter(s, es[0], k, holder))
  }

  /** Either the key is scheduled, or a sync of it that counts is under way. */
  ghost predicate Underway(s: State, k: Key, holder: set<nat>) {
    && (forall w :: w in holder ==> w in s.workers && s.workers[w] == Syncing(k))
    && (Scheduled(s, k) || exists w :: w in holder)
  }

  lemma StepKeepsUnderway(s: State, e: Event, k: Key, holder: set<nat>)
    requires Enabled(s, e) && Underway(s, k, holder) && !(e.Succeed? && e.worker in holder)
    ensures Underway(Step(s, e), k, HoldersAfter(s, e, k, holder))
  {
    var holder' := HoldersAfter(s, e, k, holder);
    var s' := Step(s, e);
    if Takes(s, e, k) {
      assert e.worker in holder';
    } else if e.Fail? && e.worker in holder {
      assert Scheduled(s', k);
    } else if !Scheduled(s, k) {
      var w :| w in holder;
      assert w in holder';
    } else {
      StepKeepsScheduled(s, e, k);
    }
  }

  lemma {:induction false} UnservedStaysUnderway(s: State, es: seq<Event>, k: Key, holder: set<nat>)
    requires Run(s, es) && Underway(s, k, holder) && !Served(s, es, k, holder)
    ensures Scheduled(End(s, es), k) || exists w :: w in End(s, es).workers && End(s, es).workers[w] == Syncing(k)
    decreases |es|
  {
    if es == [] {
      if !Scheduled(s, k) {
        var w :| w in holder;
        assert s.workers[w] == Syncing(k);
      }
    } else {
      var e := es[0];
      StepKeepsUnderway(s, e, k, holder);
      UnservedStaysUnderway(Step(s, e), es[1..], k, HoldersAfter(s, e, k, holder));
    }
  }

  predicate Quiet(s: State) { s.queue == [] && s.delayed == {} && s.workers == map[] }

  /** The event puts its key on the queue, now or after a delay. */
  predicate Asks(e: Event, k: Key) {
    match e
    case Changed(key) => key == k
    case Later(key) => key == k
    case Resync(key, allowed) => key == k && allowed
    case _ => false
  }

  /** Every request of every run that comes to rest was answered: a sync of the key began after the
      request and succeeded. */
  lemma QuietMeansServed(s: State, e: Event, k: Key, es: seq<Event>)
    requires Inv(s) && Asks(e, k) && Run(Step(s, e), es) && Quiet(End(Step(s, e), es))
    ensures Served(Step(s, e), es, k, {})
  {
    var s1 := Step(s, e);
    StepKeepsInv(s, e);
    RunKeepsInv(s1, es);
    var end := End(s1, es);
    assert end.processing == {};
    assert forall x :: x in end.dirty ==> x in end.queue;
    assert Scheduled(s1, k);
    if !Served(s1, es, k, {}) {
      UnservedStaysUnderway(s1, es, k, {});
    }
  }
}
