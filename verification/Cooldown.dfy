/** The time based cooldown gate over a bounded least-recently-used cache, against a reference that
    looks only at the history of calls. */
module Cooldown {
  import opened Options
  import opened Text

  type Key = string

  /** A call of `CanSync` and the clock reading it used. Clock readings need not increase. */
  datatype Call = Call(key: Key, now: int)

  // ---------- the cache ----------

  /** Keys, most recently used first, and the next allowed time of each. */
  datatype Cache = Cache(order: seq<Key>, next: map<Key, int>)

  const EMPTY := Cache([], map[])

  function Remove(order: seq<Key>, k: Key): seq<Key> {
    if order == [] then [] else if order[0] == k then order[1..] else [order[0]] + Remove(order[1..], k)
  }

  function ToFront(order: seq<Key>, k: Key): seq<Key> { [k] + Remove(order, k) }

  function Truncate(order: seq<Key>, n: nat): seq<Key> { if |order| <= n then order else order[..n] }

  /** A lookup that finds the key moves it to the front. */
  function Touch(c: Cache, k: Key): Cache {
    if k in c.next then c.(order := ToFront(c.order, k)) else c
  }

  /** Adding moves the key to the front and drops the last one when the cache is over capacity. */
  function Add(c: Cache, k: Key, time: int, capacity: nat): Cache {
    var order := Truncate(ToFront(c.order, k), capacity);
    var next := c.next[k := time];
    Cache(order, map x | x in next && x in order :: next[x])
  }

  predicate Allowed(c: Cache, call: Call) {
    call.key !in c.next || call.now > c.next[call.key]
  }

  function After(c: Cache, call: Call, cooldown: int, capacity: nat): Cache {
    var touched := Touch(c, call.key);
    if Allowed(c, call) then Add(touched, call.key, call.now + cooldown, capacity) else touched
  }

  function CacheAfter(calls: seq<Call>, cooldown: int, capacity: nat): Cache {
    if calls == [] then EMPTY
    else After(CacheAfter(calls[..|calls| - 1], cooldown, capacity), calls[|calls| - 1], cooldown, capacity)
  }

  // ---------- the reference ----------

  function KeysOf(calls: seq<Call>): set<Key> { set c | c in calls :: c.key }

  /** The distinct keys called since the last call for `k`. */
  function KeysSince(calls: seq<Call>, k: Key): set<Key> {
    if calls == [] || calls[|calls| - 1].key == k then {}
    else KeysSince(calls[..|calls| - 1], k) + {calls[|calls| - 1].key}
  }

  /** The end of the cooldown that the last allowed call for `k` started, given the answers. */
  function LastStamp(calls: seq<Call>, answers: seq<bool>, k: Key, cooldown: int): Option<int>
    requires |answers| == |calls|
  {
    if calls == [] then None
    else
      var n := |calls| - 1;
      if calls[n].key == k && answers[n] then Some(calls[n].now + cooldown)
      else LastStamp(calls[..n], answers[..n], k, cooldown)
  }

  /** What `CanSync` should answer after `calls` that were answered with `answers`, without any cache:
      yes if the key is new, or so many other keys were called since its last call that the cache
      cannot still know it, or the cooldown of its last allowed call is over. */
  predicate Expected(calls: seq<Call>, answers: seq<bool>, call: Call, cooldown: int, capacity: nat)
    requires |answers| == |calls|
  {
    || call.key !in KeysOf(calls)
    || |KeysSince(calls, call.key)| >= capacity
    || LastStamp(calls, answers, call.key, cooldown).None?
    || call.now > LastStamp(calls, answers, call.key, cooldown).value
  }

  /** The reference's answers to a history, one after the other. */
  function Answers(calls: seq<Call>, cooldown: int, capacity: nat): (answers: seq<bool>)
    ensures |answers| == |calls|
  {
    if calls == [] then []
    else
      var earlier := Answers(calls[..|calls| - 1], cooldown, capacity);
      earlier + [Expected(calls[..|calls| - 1], earlier, calls[|calls| - 1], cooldown, capacity)]
  }

  lemma KeysOfLast(calls: seq<Call>)
    requires calls != []
    ensures KeysOf(calls) == KeysOf(calls[..|calls| - 1]) + {calls[|calls| - 1].key}
  {
    assert calls == calls[..|calls| - 1] + [calls[|calls| - 1]];
    forall c | c in calls[..|calls| - 1] ensures c in calls {
    }
  }

  // ---------- the cache holds the most recently called keys ----------

  /** All keys ever called, most recent first. */
  function Recency(calls: seq<Call>): seq<Key> {
    if calls == [] then [] else ToFront(Recency(calls[..|calls| - 1]), calls[|calls| - 1].key)
  }

  lemma {:induction false} RemoveMembers(order: seq<Key>, k: Key)
    requires NoRepeats(order)
    ensures NoRepeats(Remove(order, k)) && Elements(Remove(order, k)) == Elements(order) - {k}
  {
    if order != [] {
      var head, tail := order[0], order[1..];
      assert order == [head] + tail;
      NoRepeatsCons(head, tail);
      ElementsCons(head, tail);
      RemoveMembers(tail, k);
      NoRepeatsCons(head, Remove(tail, k));
      ElementsCons(head, Remove(tail, k));
    }
  }

  lemma ToFrontMembers(order: seq<Key>, k: Key)
    requires NoRepeats(order)
    ensures NoRepeats(ToFront(order, k)) && Elements(ToFront(order, k)) == Elements(order) + {k}
  {
    RemoveMembers(order, k);
    assert forall x :: x in Remove(order, k) <==> x in Elements(Remove(order, k));
  }

  lemma {:induction false} RecencyMembers(calls: seq<Call>)
    ensures NoRepeats(Recency(calls)) && Elements(Recency(calls)) == KeysOf(calls)
  {
    if calls != [] {
      RecencyMembers(calls[..|calls| - 1]);
      KeysOfLast(calls);
      ToFrontMembers(Recency(calls[..|calls| - 1]), calls[|calls| - 1].key);
    }
  }

  /** The keys in front of `k`. */
  function Before(order: seq<Key>, k: Key): set<Key> {
    if order == [] || order[0] == k then {} else {order[0]} + Before(order[1..], k)
  }

  lemma {:induction false} BeforeRemove(order: seq<Key>, x: Key, k: Key)
    requires x != k && NoRepeats(order)
    ensures Before(Remove(order, x), k) == Before(order, k) - {x}
  {
    if order != [] {
      BeforeMembers(order[1..], k);
      if order[0] != x && order[0] != k {
        BeforeRemove(order[1..], x, k);
      }
    }
  }

  lemma {:induction false} BeforeMembers(order: seq<Key>, k: Key)
    ensures Before(order, k) <= Elements(order)
  {
    if order != [] {
      BeforeMembers(order[1..], k);
      assert order == [order[0]] + order[1..];
    }
  }

  /** What lies in front of a key is exactly what was called since. */
  lemma {:induction false} BeforeIsSince(calls: seq<Call>, k: Key)
    requires k in KeysOf(calls)
    ensures Before(Recency(calls), k) == KeysSince(calls, k)
  {
    var earlier, last := calls[..|calls| - 1], calls[|calls| - 1];
    KeysOfLast(calls);
    if last.key != k {
      BeforeIsSince(earlier, k);
      RecencyMembers(earlier);
      BeforeRemove(Recency(earlier), last.key, k);
    }
  }

  lemma TruncateCons(k: Key, tail: seq<Key>, n: nat)
    requires n > 0
    ensures Truncate([k] + tail, n) == [k] + Truncate(tail, n - 1)
  {
  }

  lemma BeforeSize(order: seq<Key>, k: Key)
    requires order != [] && NoRepeats(order) && order[0] != k
    ensures |Before(order, k)| == 1 + |Before(order[1..], k)|
  {
    BeforeMembers(order[1..], k);
    assert order[0] !in order[1..];
  }

  /** A key survives truncation exactly when fewer keys than the capacity are in front of it. */
  lemma {:induction false} HeldExactlyWhen(order: seq<Key>, k: Key, n: nat)
    requires NoRepeats(order) && k in order
    ensures k in Truncate(order, n) <==> |Before(order, k)| < n
    decreases |order|
  {
    if n > 0 {
      var head, tail := order[0], order[1..];
      assert order == [head] + tail;
      TruncateCons(head, tail, n);
      if head != k {
        BeforeSize(order, k);
        HeldExactlyWhen(tail, k, n - 1);
      }
    }
  }

  /** Truncating before moving a key to the front loses nothing that truncating after would keep. */
  lemma {:induction false} TruncateToFront(order: seq<Key>, k: Key, n: nat)
    ensures Truncate(Remove(Truncate(order, n + 1), k), n) == Truncate(Remove(order, k), n)
  {
    if order != [] && n > 0 {
      var head, tail := order[0], order[1..];
      assert order == [head] + tail;
      TruncateCons(head, tail, n + 1);
      if head != k {
        TruncateToFront(tail, k, n - 1);
        TruncateCons(head, Remove(Truncate(tail, n), k), n);
        TruncateCons(head, Remove(tail, k), n);
      }
    }
  }

  lemma TruncateStep(order: seq<Key>, k: Key, capacity: nat)
    requires capacity > 0
    ensures Truncate(ToFront(Truncate(order, capacity), k), capacity) == Truncate(ToFront(order, k), capacity)
  {
    TruncateToFront(order, k, capacity - 1);
    TruncateCons(k, Remove(Truncate(order, capacity), k), capacity);
    TruncateCons(k, Remove(order, k), capacity);
  }

  lemma {:induction false} RemoveLength(order: seq<Key>, k: Key)
    requires k in order
    ensures |Remove(order, k)| == |order| - 1
  {
    if order[0] != k {
      assert order == [order[0]] + order[1..];
      RemoveLength(order[1..], k);
    }
  }

  lemma TruncateNoRepeats(order: seq<Key>, n: nat)
    requires NoRepeats(order)
    ensures NoRepeats(Truncate(order, n))
  {
  }

  /** How the cache mirrors the history and its answers. */
  ghost predicate Mirrors(c: Cache, calls: seq<Call>, answers: seq<bool>, cooldown: int, capacity: nat)
    requires |answers| == |calls|
  {
    && c.order == Truncate(Recency(calls), capacity)
    && c.next.Keys == Elements(c.order)
    && forall k :: k in c.next ==> LastStamp(calls, answers, k, cooldown) == Some(c.next[k])
  }

  /** A mirroring cache knows a key exactly when too few other keys were called since, so it answers
      as the reference does. */
  lemma MirrorAnswers(c: Cache, calls: seq<Call>, answers: seq<bool>, call: Call, cooldown: int, capacity: nat)
    requires |answers| == |calls| && Mirrors(c, calls, answers, cooldown, capacity)
    ensures call.key in c.next <==> call.key in KeysOf(calls) && |KeysSince(calls, call.key)| < capacity
    ensures Allowed(c, call) <==> Expected(calls, answers, call, cooldown, capacity)
  {
    RecencyMembers(calls);
    var all := Recency(calls);
    assert forall k :: k in all <==> k in Elements(all);
    assert forall k :: k in c.order <==> k in Elements(c.order);
    if call.key in KeysOf(calls) {
      HeldExactlyWhen(all, call.key, capacity);
      BeforeIsSince(calls, call.key);
    } else {
      assert forall i :: 0 <= i < |c.order| ==> c.order[i] == all[i];
    }
  }

  lemma OrderAfter(c: Cache, call: Call, cooldown: int, capacity: nat)
    requires capacity > 0 && NoRepeats(c.order) && c.next.Keys == Elements(c.order) && |c.order| <= capacity
    ensures var c' := After(c, call, cooldown, capacity);
            c'.order == Truncate(ToFront(c.order, call.key), capacity) && c'.next.Keys == Elements(c'.order)
  {
    var c', k := After(c, call, cooldown, capacity), call.key;
    assert forall x :: x in c.order <==> x in Elements(c.order);
    ToFrontMembers(c.order, k);
    var front := ToFront(c.order, k);
    assert forall x :: x in front <==> x in Elements(front);
    if k in c.next {
      RemoveLength(c.order, k);
      assert Remove(front, k) == Remove(c.order, k);
    }
    var order := Truncate(front, capacity);
    assert forall x :: x in order ==> x in front;
  }

  lemma {:induction false} CacheMirrors(calls: seq<Call>, cooldown: int, capacity: nat)
    requires capacity > 0
    ensures Mirrors(CacheAfter(calls, cooldown, capacity), calls, Answers(calls, cooldown, capacity),
                    cooldown, capacity)
  {
    if calls != [] {
      var n := |calls| - 1;
      var earlier, last := calls[..n], calls[n];
      var c, answers := CacheAfter(earlier, cooldown, capacity), Answers(earlier, cooldown, capacity);
      var c', answers' := After(c, last, cooldown, capacity), Answers(calls, cooldown, capacity);
      CacheMirrors(earlier, cooldown, capacity);
      MirrorAnswers(c, earlier, answers, last, cooldown, capacity);
      assert answers' == answers + [Allowed(c, last)] && answers'[..n] == answers;
      RecencyMembers(earlier);
      TruncateNoRepeats(Recency(earlier), capacity);
      OrderAfter(c, last, cooldown, capacity);
      TruncateStep(Recency(earlier), last.key, capacity);
      forall k | k in c'.next ensures LastStamp(calls, answers', k, cooldown) == Some(c'.next[k]) {
        if k != last.key { assert k in c.next && c'.next[k] == c.next[k]; }
      }
    }
  }

  /** What the checker answers next, and the cache that leaves. */
  lemma AllowedAsExpected(calls: seq<Call>, call: Call, cooldown: int, capacity: nat)
    requires capacity > 0
    ensures Allowed(CacheAfter(calls, cooldown, capacity), call)
       <==> Expected(calls, Answers(calls, cooldown, capacity), call, cooldown, capacity)
    ensures CacheAfter(calls + [call], cooldown, capacity) ==
            After(CacheAfter(calls, cooldown, capacity), call, cooldown, capacity)
  {
    CacheMirrors(calls, cooldown, capacity);
    MirrorAnswers(CacheAfter(calls, cooldown, capacity), calls, Answers(calls, cooldown, capacity),
                  call, cooldown, capacity);
    assert (calls + [call])[..|calls|] == calls;
  }

  lemma Recorded(calls: seq<Call>, call: Call, cooldown: int, capacity: nat, c: Cache, c': Cache, ok: bool)
    requires capacity > 0 && c == CacheAfter(calls, cooldown, capacity)
    requires ok == Allowed(c, call) && c' == After(c, call, cooldown, capacity)
    ensures c' == CacheAfter(calls + [call], cooldown, capacity)
    ensures ok <==> Expected(calls, Answers(calls, cooldown, capacity), call, cooldown, capacity)
  {
    AllowedAsExpected(calls, call, cooldown, capacity);
  }

  /** What `CanSync` answered to the call at index `i` of a history. */
  predicate Answer(calls: seq<Call>, i: nat, cooldown: int, capacity: nat)
    requires i < |calls|
  {
    Allowed(CacheAfter(calls[..i], cooldown, capacity), calls[i])
  }

  lemma {:induction false} AnswersOfPrefix(calls: seq<Call>, i: nat, cooldown: int, capacity: nat)
    requires i <= |calls|
    ensures Answers(calls, cooldown, capacity)[..i] == Answers(calls[..i], cooldown, capacity)
  {
    if i == |calls| {
      assert calls[..i] == calls;
    } else {
      var n := |calls| - 1;
      AnswersOfPrefix(calls[..n], i, cooldown, capacity);
      assert calls[..n][..i] == calls[..i];
      assert Answers(calls, cooldown, capacity)[..n] == Answers(calls[..n], cooldown, capacity);
    }
  }

  lemma AnswerAt(calls: seq<Call>, i: nat, cooldown: int, capacity: nat)
    requires i < |calls|
    ensures Answers(calls, cooldown, capacity)[i]
       <==> Expected(calls[..i], Answers(calls[..i], cooldown, capacity), calls[i], cooldown, capacity)
  {
    AnswersOfPrefix(calls, i + 1, cooldown, capacity);
    assert calls[..i + 1][..i] == calls[..i];
    assert Answers(calls, cooldown, capacity)[i] == Answers(calls, cooldown, capacity)[..i + 1][i];
  }

  /** In every history, whatever the clock does, the checker gives exactly the reference's answers. */
  lemma AnswersAsExpected(calls: seq<Call>, i: nat, cooldown: int, capacity: nat)
    requires capacity > 0 && i < |calls|
    ensures Answer(calls, i, cooldown, capacity) <==> Answers(calls, cooldown, capacity)[i]
  {
    AnswerAt(calls, i, cooldown, capacity);
    AllowedAsExpected(calls[..i], calls[i], cooldown, capacity);
  }

  lemma {:induction false} StampOfLastAllowed(calls: seq<Call>, answers: seq<bool>, i: nat, cooldown: int)
    requires i < |calls| == |answers| && answers[i]
    requires forall m :: i < m < |calls| && calls[m].key == calls[i].key ==> !answers[m]
    ensures LastStamp(calls, answers, calls[i].key, cooldown) == Some(calls[i].now + cooldown)
  {
    var n := |calls| - 1;
    if i < n { StampOfLastAllowed(calls[..n], answers[..n], i, cooldown); }
  }

  /** After a true answer the next one for the key comes exactly when the cooldown is over, or at least
      as many distinct other keys as the cache has room for were called since the key's last call. */
  lemma NextSyncExactlyWhen(calls: seq<Call>, i: nat, j: nat, cooldown: int, capacity: nat)
    requires capacity > 0 && i < j < |calls| && calls[i].key == calls[j].key && Answer(calls, i, cooldown, capacity)
    requires forall m :: i < m < j && calls[m].key == calls[i].key ==> !Answer(calls, m, cooldown, capacity)
    ensures Answer(calls, j, cooldown, capacity) <==>
            calls[j].now > calls[i].now + cooldown || |KeysSince(calls[..j], calls[j].key)| >= capacity
  {
    var answers := Answers(calls, cooldown, capacity);
    forall m | 0 <= m <= j ensures Answer(calls, m, cooldown, capacity) <==> answers[m] {
      AnswersAsExpected(calls, m, cooldown, capacity);
    }
    StampOfLastAllowed(calls[..j], answers[..j], i, cooldown);
    AnswersOfPrefix(calls, j, cooldown, capacity);
    AllowedAsExpected(calls[..j], calls[j], cooldown, capacity);
    assert calls[..j][i] in calls[..j];
  }

  /** Two consecutive true answers for a key are more than the cooldown apart, unless at least as many
      distinct other keys as the cache has room for were called since the key's last call. */
  lemma SyncsAreSpaced(calls: seq<Call>, i: nat, j: nat, cooldown: int, capacity: nat)
    requires capacity > 0 && i < j < |calls| && calls[i].key == calls[j].key
    requires Answer(calls, i, cooldown, capacity) && Answer(calls, j, cooldown, capacity)
    requires forall m :: i < m < j && calls[m].key == calls[i].key ==> !Answer(calls, m, cooldown, capacity)
    ensures calls[j].now > calls[i].now + cooldown || |KeysSince(calls[..j], calls[j].key)| >= capacity
  {
    NextSyncExactlyWhen(calls, i, j, cooldown, capacity);
  }

  lemma {:induction false} CalledSince(calls: seq<Call>, others: seq<Key>)
    requires |calls| == |others| + 1 && calls[0].key !in others
    requires forall m :: 0 <= m < |others| ==> calls[m + 1].key == others[m]
    ensures KeysSince(calls, calls[0].key) == Elements(others)
  {
    var n := |others|;
    if n > 0 {
      assert calls[n - 1 + 1].key == others[n - 1];
      CalledSince(calls[..n], others[..n - 1]);
      ElementsSnoc(others[..n - 1], others[n - 1]);
      assert others == others[..n - 1] + [others[n - 1]];
    }
  }

  lemma FirstIsAllowed(calls: seq<Call>, cooldown: int, capacity: nat)
    requires calls != []
    ensures Answer(calls, 0, cooldown, capacity)
  {
    assert calls[..0] == [];
  }

  /** A key, one call for each of a full cache of other keys, and the key again. */
  predicate Crowded(calls: seq<Call>, others: seq<Key>) {
    && |calls| == |others| + 2 && calls[0].key == calls[|others| + 1].key && calls[0].key !in others
    && NoRepeats(others) && forall m :: 0 <= m < |others| ==> calls[m + 1].key == others[m]
  }

  /** For every cache size, cooldown and clock, even one that stands still: after a full cache of other
      keys the key is allowed again. */
  lemma {:induction false} EvictionAllowsAtOnce(calls: seq<Call>, others: seq<Key>, cooldown: int, capacity: nat)
    requires capacity > 0 && |others| == capacity && Crowded(calls, others)
    ensures Answer(calls, 0, cooldown, capacity) && Answer(calls, capacity + 1, cooldown, capacity)
  {
    FirstIsAllowed(calls, cooldown, capacity);
    CalledSince(calls[..capacity + 1], others);
    ElementsSize(others);
    forall m | 0 < m < capacity + 1 ensures calls[m].key != calls[0].key {
      assert calls[m - 1 + 1].key == others[m - 1];
    }
    NextSyncExactlyWhen(calls, 0, capacity + 1, cooldown, capacity);
  }

  /** The spacing is lost: with room for one key, another key in between is enough. */
  lemma SpacingCanBeLost(cooldown: nat)
    ensures var calls := [Call("k", 0), Call("other", 0), Call("k", 0)];
            Answer(calls, 0, cooldown, 1) && Answer(calls, 2, cooldown, 1) && calls[2].now <= calls[0].now + cooldown
  {
    var calls := [Call("k", 0), Call("other", 0), Call("k", 0)];
    assert |calls[0].key| != |calls[1].key|;
    EvictionAllowsAtOnce(calls, ["other"], cooldown, 1);
  }

  /** The keys counted against the capacity are all different from the key itself and were called
      between its previous call and now. */
  lemma {:induction false} KeysSinceAreOthers(calls: seq<Call>, k: Key, x: Key)
    requires x in KeysSince(calls, k)
    ensures x != k
    ensures exists m :: 0 <= m < |calls| && calls[m].key == x && forall n :: m <= n < |calls| ==> calls[n].key != k
  {
    var earlier, last := calls[..|calls| - 1], calls[|calls| - 1];
    if x == last.key {
      assert calls[|calls| - 1].key == x;
    } else {
      KeysSinceAreOthers(earlier, k, x);
      var m :| 0 <= m < |earlier| && earlier[m].key == x && forall n :: m <= n < |earlier| ==> earlier[n].key != k;
      assert calls[m].key == x;
      assert forall n :: m <= n < |earlier| ==> calls[n] == earlier[n];
    }
  }

  // ---------- the checker ----------

  /** Sequential use of the checker. `calls` is the history, kept for the specification only. */
  class TimeBasedCooldownChecker {
    const cooldown: int
    const capacity: nat
    var cache: Cache
    ghost var calls: seq<Call>

    ghost predicate Valid()
      reads this
    {
      capacity > 0 && cache == CacheAfter(calls, cooldown, capacity)
    }

    constructor (cooldown: int)
      ensures Valid() && this.cooldown == cooldown && capacity == 1_000_000 && calls == []
    {
      this.cooldown := cooldown;
      capacity := 1_000_000;
      cache := EMPTY;
      calls := [];
    }

    method CanSync(key: Key, now: int) returns (ok: bool)
      requires Valid()
      modifies this
      ensures Valid() && calls == old(calls) + [Call(key, now)]
      ensures ok <==> Expected(old(calls), Answers(old(calls), cooldown, capacity), Call(key, now), cooldown, capacity)
    {
      ghost var before := cache;
      ok := Gate(key, now);
      Recorded(calls, Call(key, now), cooldown, capacity, before, cache, ok);
      calls := calls + [Call(key, now)];
    }

    /** The lookup, the comparison and the stamp. */
    method Gate(key: Key, now: int) returns (ok: bool)
      modifies this`cache
      ensures ok == Allowed(old(cache), Call(key, now))
      ensures cache == After(old(cache), Call(key, now), cooldown, capacity)
    {
      var found := key in cache.next;
      cache := Touch(cache, key);
      if !found || now > cache.next[key] {
        cache := Add(cache, key, now + cooldown, capacity);
        return true;
      }
      return false;
    }
  }
}
