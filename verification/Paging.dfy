/** The list iterators of the Cluster Service client: pages are requested one after the other and
    their items pushed to a consumer that may stop. The server is arbitrary, and so is the consumer. */
module Paging {
  import opened Options

  /** The answer to a page request. An empty page and a page without an item list are the same here. */
  datatype Response<T> = Failure | Page(total: int, items: seq<T>)

  /** `server` answers the request for a page number; `resolve` follows an item's links and may fail;
      `wants` says, given everything the consumer was called with, whether it wants more. */
  datatype World<!T> = World(server: nat -> Response<T>, resolve: T -> Option<T>, wants: seq<T> -> bool)

  datatype Status = Running | Finished | Stopped | Failed

  /** The loop's variables; `total` is unlimited until the first answer, `calls` is what the consumer got. */
  datatype State<T> = State(page: nat, count: nat, total: Option<int>, calls: seq<T>, status: Status)

  function Start<T>(): State<T> { State(0, 0, None, [], Running) }

  predicate Continues<T>(s: State<T>) { s.status.Running? && (s.total.None? || s.count < s.total.value) }

  // ---------- one page ----------

  /** The items of a page in order, until one does not resolve or the consumer has had enough. */
  function Deliver<T>(w: World<T>, items: seq<T>, calls: seq<T>): (seq<T>, Status) {
    if items == [] then (calls, Running)
    else if w.resolve(items[0]).None? then (calls, Failed)
    else
      var calls' := calls + [w.resolve(items[0]).value];
      if !w.wants(calls') then (calls', Stopped) else Deliver(w, items[1..], calls')
  }

  /** A round of the loop in the iterators that range over the item slice. */
  function Round<T>(w: World<T>, s: State<T>): State<T> {
    match w.server(s.page + 1)
    case Failure => s.(page := s.page + 1, status := Failed)
    case Page(total, items) =>
      if items == [] then s.(page := s.page + 1, total := Some(total), status := Finished)
      else
        var (calls, status) := Deliver(w, items, s.calls);
        State(s.page + 1, s.count + |items|, Some(total), calls, status)
  }

  /** The loop after at most `n` page requests. */
  function After<T>(w: World<T>, n: nat): State<T> {
    if n == 0 then Start()
    else
      var s := After(w, n - 1);
      if Continues(s) then Round(w, s) else s
  }

  // ---------- what every run keeps ----------

  /** The items of the first `n` pages in a row. */
  function Items<T>(w: World<T>, n: nat): seq<T> {
    if n == 0 then [] else Items(w, n - 1) + (if w.server(n).Page? then w.server(n).items else [])
  }

  /** The calls are the resolved items from the beginning, none skipped and none twice. */
  ghost predicate PrefixOf<T>(w: World<T>, calls: seq<T>, items: seq<T>) {
    |calls| <= |items| && forall i :: 0 <= i < |calls| ==> w.resolve(items[i]) == Some(calls[i])
  }

  /** The consumer wanted more after each call but the last. */
  ghost predicate Respected<T>(w: World<T>, calls: seq<T>) {
    forall i :: 0 < i < |calls| ==> w.wants(calls[..i])
  }

  ghost predicate Good<T>(w: World<T>, s: State<T>) {
    && PrefixOf(w, s.calls, Items(w, s.page)) && Respected(w, s.calls)
    && (s.status.Running? ==> |s.calls| == s.count == |Items(w, s.page)| && s.page <= s.count)
    && (s.status.Running? && s.calls != [] ==> w.wants(s.calls))
    && (s.status.Running? && s.page > 0 ==> s.total.Some?)
  }

  lemma {:induction false} DeliverKeeps<T>(w: World<T>, items: seq<T>, calls: seq<T>, before: seq<T>)
    requires |calls| == |before| && PrefixOf(w, calls, before) && Respected(w, calls) &&
             (calls != [] ==> w.wants(calls))
    ensures var (calls', status) := Deliver(w, items, calls);
            && PrefixOf(w, calls', before + items) && Respected(w, calls') && calls <= calls'
            && !status.Finished?
            && (status.Running? ==> |calls'| == |before + items| && (calls' != [] ==> w.wants(calls')))
    decreases |items|
  {
    if items == [] {
      assert before + items == before;
    } else if w.resolve(items[0]).Some? {
      var calls' := calls + [w.resolve(items[0]).value];
      var before' := before + [items[0]];
      assert before + items == before' + items[1..];
      forall i | 0 < i < |calls'| ensures w.wants(calls'[..i]) {
        if i == |calls| { assert calls'[..i] == calls; } else { assert calls'[..i] == calls[..i]; }
      }
      if w.wants(calls') { DeliverKeeps(w, items[1..], calls', before'); }
    }
  }

  lemma RoundKeepsGood<T>(w: World<T>, s: State<T>)
    requires Good(w, s) && s.status.Running?
    ensures Good(w, Round(w, s))
  {
    var r := w.server(s.page + 1);
    if r.Page? && r.items != [] {
      DeliverKeeps(w, r.items, s.calls, Items(w, s.page));
    } else {
      assert Items(w, s.page) + [] == Items(w, s.page);
    }
  }

  /** For every server and consumer and after any number of requests: the consumer got a prefix of the
      concatenated pages, and it was never called again once it had enough. */
  lemma {:induction false} EveryRunIsGood<T>(w: World<T>, n: nat)
    ensures Good(w, After(w, n))
  {
    if n > 0 {
      EveryRunIsGood(w, n - 1);
      var s := After(w, n - 1);
      if Continues(s) { RoundKeepsGood(w, s); }
    }
  }

  lemma {:induction false} PageCounts<T>(w: World<T>, n: nat)
    ensures After(w, n).page <= n
    ensures Continues(After(w, n)) ==> After(w, n).page == n
  {
    if n > 0 { PageCounts(w, n - 1); }
  }

  /** No answer reports a total above `bound`. */
  ghost predicate Bounded<T>(w: World<T>, bound: nat) {
    forall p: nat :: w.server(p).Page? ==> w.server(p).total <= bound
  }

  function Most(bound: nat): nat { if bound > 1 then bound else 1 }

  lemma {:induction false} TotalIsReported<T>(w: World<T>, n: nat, bound: nat)
    requires Bounded(w, bound)
    ensures After(w, n).total.Some? ==> After(w, n).total.value <= bound
  {
    if n > 0 { TotalIsReported(w, n - 1, bound); }
  }

  /** With totals of at most `bound` no run makes more than max(1, bound) requests. */
  lemma RequestsAreBounded<T>(w: World<T>, n: nat, bound: nat)
    requires Bounded(w, bound)
    ensures After(w, n).page <= Most(bound)
    ensures !Continues(After(w, Most(bound)))
  {
    var most := Most(bound);
    BoundHolds(w, n, bound);
    BoundHolds(w, most, bound);
    EveryRunIsGood(w, most);
    TotalIsReported(w, most, bound);
    PageCounts(w, most);
  }

  lemma {:induction false} BoundHolds<T>(w: World<T>, n: nat, bound: nat)
    requires Bounded(w, bound)
    ensures After(w, n).page <= Most(bound)
  {
    if n > 0 {
      BoundHolds(w, n - 1, bound);
      EveryRunIsGood(w, n - 1);
      TotalIsReported(w, n - 1, bound);
    }
  }

  method PushItems<T>(w: World<T>, items: seq<T>, start: seq<T>) returns (calls: seq<T>, status: Status)
    ensures (calls, status) == Deliver(w, items, start)
  {
    calls := start;
    for i := 0 to |items|
      invariant Deliver(w, items, start) == Deliver(w, items[i..], calls)
    {
      assert items[i..][1..] == items[i + 1..];
      var item := w.resolve(items[i]);
      if item.None? { return calls, Failed; }
      calls := calls + [item.value];
      if !w.wants(calls) { return calls, Stopped; }
    }
    status := Running;
  }

  method RequestPage<T>(w: World<T>, s: State<T>) returns (s': State<T>)
    ensures s' == Round(w, s)
  {
    var page := s.page + 1;
    var r := w.server(page);
    if r.Failure? {
      return s.(page := page, status := Failed);
    }
    if r.items == [] {
      return s.(page := page, total := Some(r.total), status := Finished);
    }
    var calls, status := PushItems(w, r.items, s.calls);
    return State(page, s.count + |r.items|, Some(r.total), calls, status);
  }

  /** The iterator itself: with bounded totals it ends, after at most `Most(bound)` requests. */
  method IterateSlices<T>(w: World<T>, ghost bound: nat) returns (s: State<T>)
    requires Bounded(w, bound)
    ensures s == After(w, s.page) && !Continues(s) && s.page <= Most(bound)
    ensures PrefixOf(w, s.calls, Items(w, s.page)) && Respected(w, s.calls)
  {
    s := Start();
    while Continues(s)
      invariant s == After(w, s.page) && s.page <= Most(bound)
      decreases Most(bound) - s.page
    {
      ghost var page := s.page;
      RequestsAreBounded(w, page + 1, bound);
      s := RequestPage(w, s);
      assert s == After(w, page + 1) && s.page == page + 1;
    }
    EveryRunIsGood(w, s.page);
  }

  // ---------- a well behaved server ----------

  /** The server splits `all` into `pages` pages, none empty, and always reports the right total. */
  ghost predicate Serves<T>(w: World<T>, all: seq<T>, pages: nat) {
    && Items(w, pages) == all
    && forall p :: 1 <= p <= pages ==> w.server(p).Page? && w.server(p).total == |all| && w.server(p).items != []
  }

  lemma {:induction false} ItemsGrow<T>(w: World<T>, all: seq<T>, pages: nat, n: nat)
    requires Serves(w, all, pages) && n <= pages
    ensures Items(w, n) <= all && (n < pages ==> |Items(w, n)| < |all|)
    decreases pages - n
  {
    if n < pages {
      ItemsGrow(w, all, pages, n + 1);
    }
  }

  /** The world in which nothing fails to resolve and the consumer takes everything. */
  ghost predicate Willing<T(!new)>(w: World<T>) {
    (forall x :: w.resolve(x) == Some(x)) && forall calls :: w.wants(calls)
  }

  lemma {:induction false} DeliverAll<T(!new)>(w: World<T>, items: seq<T>, calls: seq<T>)
    requires Willing(w)
    ensures Deliver(w, items, calls) == (calls + items, Running)
    decreases |items|
  {
    if items == [] {
      assert calls + items == calls;
    } else {
      DeliverAll(w, items[1..], calls + [items[0]]);
      assert calls + [items[0]] + items[1..] == calls + items;
    }
  }

  /** From a server that splits a list into pages, a willing consumer gets exactly the list, with one
      request per page. */
  lemma {:induction false} EverythingArrives<T(!new)>(w: World<T>, all: seq<T>, pages: nat, n: nat)
    requires Willing(w) && Serves(w, all, pages) && n <= pages
    ensures After(w, n).page == n && After(w, n).calls == Items(w, n) && After(w, n).status.Running? &&
            After(w, n).count == |Items(w, n)|
    ensures n == pages > 0 ==> After(w, n).calls == all && !Continues(After(w, n))
  {
    if n > 0 {
      EverythingArrives(w, all, pages, n - 1);
      ItemsGrow(w, all, pages, n - 1);
      var s := After(w, n - 1);
      assert Continues(s) by {
        if n > 1 { assert s == if Continues(After(w, n - 2)) then Round(w, After(w, n - 2)) else After(w, n - 2); }
        ReportedTotalIsRight(w, all, pages, n - 1);
      }
      DeliverAll(w, w.server(n).items, s.calls);
    }
  }

  lemma {:induction false} ReportedTotalIsRight<T>(w: World<T>, all: seq<T>, pages: nat, n: nat)
    requires Serves(w, all, pages) && n <= pages
    ensures After(w, n).total == None || After(w, n).total == Some(|all|)
  {
    if n > 0 {
      ReportedTotalIsRight(w, all, pages, n - 1);
      PageCounts(w, n - 1);
    }
  }

  // ---------- the iterators built on Each ----------

  /** Three iterators hand the consumer to a library loop that stops at the end of its page only. */
  function EachRound<T>(w: World<T>, s: State<T>): State<T> {
    var next := Round(w, s);
    if next.status.Stopped? then next.(status := Running) else next
  }

  function EachAfter<T>(w: World<T>, n: nat): State<T> {
    if n == 0 then Start()
    else
      var s := EachAfter(w, n - 1);
      if Continues(s) then EachRound(w, s) else s
  }

  lemma {:induction false} EachIsBounded<T>(w: World<T>, n: nat, bound: nat)
    requires Bounded(w, bound)
    ensures var s := EachAfter(w, n);
            && s.page <= Most(bound) && (Continues(s) ==> s.page == n)
            && (s.status.Running? ==> s.page <= s.count && (s.page > 0 ==> s.total.Some? && s.total.value <= bound))
  {
    if n > 0 { EachIsBounded(w, n - 1, bound); }
  }

  /** Nothing is resolved in these iterators. */
  ghost predicate Unresolved<T(!new)>(w: World<T>) { forall x :: w.resolve(x) == Some(x) }

  /** The library's loop over one page: it ends with the page or with the first refusal, and does not
      say which. */
  method PushEach<T(!new)>(w: World<T>, items: seq<T>, start: seq<T>) returns (calls: seq<T>)
    requires Unresolved(w)
    ensures calls == Deliver(w, items, start).0 &&
            (Deliver(w, items, start).1.Running? || Deliver(w, items, start).1.Stopped?)
  {
    calls := start;
    for i := 0 to |items|
      invariant Deliver(w, items, start) == Deliver(w, items[i..], calls)
    {
      assert items[i..][1..] == items[i + 1..] && w.resolve(items[i]) == Some(items[i]);
      calls := calls + [items[i]];
      if !w.wants(calls) { return; }
    }
  }

  method RequestEachPage<T(!new)>(w: World<T>, s: State<T>) returns (s': State<T>)
    requires Unresolved(w) && Continues(s)
    ensures s' == EachRound(w, s)
  {
    var page := s.page + 1;
    var r := w.server(page);
    if r.Failure? {
      return s.(page := page, status := Failed);
    }
    if r.items == [] {
      return s.(page := page, total := Some(r.total), status := Finished);
    }
    var calls := PushEach(w, r.items, s.calls);
    return State(page, s.count + |r.items|, Some(r.total), calls, Running);
  }

  lemma EachRequestsAreBounded<T>(w: World<T>, n: nat, bound: nat)
    requires Bounded(w, bound)
    ensures EachAfter(w, n).page <= Most(bound)
  {
    EachIsBounded(w, n, bound);
  }

  /** These iterators end under the same bound. Nothing is promised about a consumer that stops. */
  method IterateEach<T(!new)>(w: World<T>, ghost bound: nat) returns (s: State<T>)
    requires Unresolved(w) && Bounded(w, bound)
    ensures s == EachAfter(w, s.page) && !Continues(s) && s.page <= Most(bound)
  {
    s := Start();
    while Continues(s)
      invariant s == EachAfter(w, s.page) && s.page <= Most(bound)
      decreases Most(bound) - s.page
    {
      ghost var page := s.page;
      EachRequestsAreBounded(w, page + 1, bound);
      s := RequestEachPage(w, s);
      assert s == EachAfter(w, page + 1) && s.page == page + 1;
    }
  }

  lemma DeliverCalls<T>(w: World<T>, items: seq<T>, calls: seq<T>)
    requires items != [] && w.resolve(items[0]).Some?
    ensures |Deliver(w, items, calls).0| > |calls|
  {
    DeliverExtends(w, items[1..], calls + [w.resolve(items[0]).value]);
  }

  lemma {:induction false} DeliverExtends<T>(w: World<T>, items: seq<T>, calls: seq<T>)
    ensures calls <= Deliver(w, items, calls).0
    decreases |items|
  {
    if items != [] && w.resolve(items[0]).Some? {
      var calls' := calls + [w.resolve(items[0]).value];
      if w.wants(calls') { DeliverExtends(w, items[1..], calls'); }
    }
  }

  /** The consumer has had enough, and the next page, if it is requested, has nothing for it. */
  predicate Harmless<T>(w: World<T>, s: State<T>) {
    || !Continues(s) || s.calls == [] || w.wants(s.calls)
    || w.server(s.page + 1).Failure? || w.server(s.page + 1).items == []
  }

  lemma {:induction false} DeliverRespects<T>(w: World<T>, items: seq<T>, calls: seq<T>)
    requires Respected(w, calls) && (calls != [] ==> w.wants(calls))
    ensures Respected(w, Deliver(w, items, calls).0)
    decreases |items|
  {
    if items != [] && w.resolve(items[0]).Some? {
      var calls' := calls + [w.resolve(items[0]).value];
      forall i | 0 < i < |calls'| ensures w.wants(calls'[..i]) {
        if i == |calls| { assert calls'[..i] == calls; } else { assert calls'[..i] == calls[..i]; }
      }
      if w.wants(calls') { DeliverRespects(w, items[1..], calls'); }
    }
  }

  /** Calls made after the consumer had enough cannot be taken back. */
  lemma ExtensionsStayDisrespectful<T>(w: World<T>, calls: seq<T>, longer: seq<T>)
    requires calls <= longer && Respected(w, longer)
    ensures Respected(w, calls) && (0 < |calls| < |longer| ==> w.wants(calls))
  {
    forall i | 0 < i < |calls| ensures w.wants(calls[..i]) { assert longer[..i] == calls[..i]; }
    if 0 < |calls| < |longer| { assert longer[..|calls|] == calls; }
  }

  lemma EachRoundRespectsExactlyWhen<T(!new)>(w: World<T>, s: State<T>)
    requires Unresolved(w) && Continues(s)
    ensures Respected(w, EachRound(w, s).calls) <==> Respected(w, s.calls) && Harmless(w, s)
  {
    var r := w.server(s.page + 1);
    if r.Page? && r.items != [] {
      DeliverExtends(w, r.items, s.calls);
      DeliverCalls(w, r.items, s.calls);
      if Respected(w, EachRound(w, s).calls) { ExtensionsStayDisrespectful(w, s.calls, EachRound(w, s).calls); }
      if Respected(w, s.calls) && Harmless(w, s) { DeliverRespects(w, r.items, s.calls); }
    }
  }

  lemma {:induction false} StoppedMeansEnough<T>(w: World<T>, items: seq<T>, calls: seq<T>)
    requires Deliver(w, items, calls).1.Stopped?
    ensures Deliver(w, items, calls).0 != [] && !w.wants(Deliver(w, items, calls).0)
    decreases |items|
  {
    var calls' := calls + [w.resolve(items[0]).value];
    if w.wants(calls') { StoppedMeansEnough(w, items[1..], calls'); }
  }

  /** After the page on which the consumer stopped there is nothing to request, or nothing comes. */
  predicate NothingFollows<T>(w: World<T>, s: State<T>) {
    || s.total.None? || s.count >= s.total.value
    || w.server(s.page + 1).Failure? || w.server(s.page + 1).items == []
  }

  /** How these iterators relate to those over slices, after the same number of requests. */
  ghost predicate Follows<T>(w: World<T>, n: nat, s: State<T>, e: State<T>) {
    if !s.status.Stopped? then e == s
    else
      && s.total.Some? && s.calls != [] && !w.wants(s.calls)
      && if s.page == n then e == s.(status := Running)
         else if NothingFollows(w, s) then e.calls == s.calls && !Continues(e)
         else !Respected(w, e.calls)
  }

  lemma OneMoreFollows<T(!new)>(w: World<T>, n: nat, s: State<T>, e: State<T>)
    requires Unresolved(w) && Follows(w, n, s, e) && s.page <= n && (Continues(s) ==> s.page == n)
    ensures Follows(w, n + 1, if Continues(s) then Round(w, s) else s, if Continues(e) then EachRound(w, e) else e)
  {
    var r := w.server(s.page + 1);
    if Continues(s) {
      if r.Page? && r.items != [] && Round(w, s).status.Stopped? { StoppedMeansEnough(w, r.items, s.calls); }
    } else if s.status.Stopped? && s.page == n {
      if Continues(e) { EachRoundRespectsExactlyWhen(w, e); }
    } else if s.status.Stopped? && !NothingFollows(w, s) && Continues(e) {
      EachRoundRespectsExactlyWhen(w, e);
    }
  }

  lemma {:induction false} EachFollows<T(!new)>(w: World<T>, n: nat)
    requires Unresolved(w)
    ensures Follows(w, n, After(w, n), EachAfter(w, n))
  {
    if n > 0 {
      EachFollows(w, n - 1);
      PageCounts(w, n - 1);
      OneMoreFollows(w, n - 1, After(w, n - 1), EachAfter(w, n - 1));
    }
  }

  /** These iterators never call a consumer that has had enough exactly when the iterator over slices
      does not stop, or stops on the last page requested, or nothing follows the page it stops on. */
  lemma {:induction false} EachRespectsExactlyWhen<T(!new)>(w: World<T>, n: nat)
    requires Unresolved(w)
    ensures var s := After(w, n);
            Respected(w, EachAfter(w, n).calls) <==> !s.status.Stopped? || s.page == n || NothingFollows(w, s)
  {
    EachFollows(w, n);
    EveryRunIsGood(w, n);
  }

  /** Two pages of one item and a consumer that takes one item: it is called for the second page too,
      where the iterators over slices stop. */
  lemma EachDisrespectsAStop()
    ensures var w := World(p => if p == 1 then Page(2, [10]) else Page(2, [20]), (x: int) => Some(x), calls => false);
            EachAfter(w, 2).calls == [10, 20] && !Respected(w, EachAfter(w, 2).calls) && After(w, 2).calls == [10]
  {
    var w := World(p => if p == 1 then Page(2, [10]) else Page(2, [20]), (x: int) => Some(x), calls => false);
    var none: seq<int> := [];
    assert none + [10] == [10] && [10] + [20] == [10, 20];
    assert Deliver(w, [10], none) == ([10], Stopped);
    assert Deliver(w, [20], [10]) == ([10, 20], Stopped);
    assert After(w, 1) == State(1, 1, Some(2), [10], Stopped);
    assert EachAfter(w, 1) == State(1, 1, Some(2), [10], Running);
    assert EachAfter(w, 2) == State(2, 2, Some(2), [10, 20], Running);
    assert !w.wants(EachAfter(w, 2).calls[..1]);
  }

  /** As long as the consumer takes everything the two kinds of iterator do the same. */
  lemma {:induction false} SameForWillingConsumers<T(!new)>(w: World<T>, n: nat)
    requires Willing(w)
    ensures EachAfter(w, n) == After(w, n)
  {
    if n > 0 {
      SameForWillingConsumers(w, n - 1);
      var s := After(w, n - 1);
      if w.server(s.page + 1).Page? { DeliverAll(w, w.server(s.page + 1).items, s.calls); }
    }
  }
}
