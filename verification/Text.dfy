/** Strings as the service uses them: case folding, byte order, sorting and decimal text.
    Case folding is the ASCII part of Go's `strings.ToLower` and `strings.EqualFold`;
    Azure resource IDs and Cluster Service tier names are ASCII. */
module Text {

  function LowerChar(c: char): char {
    if 'A' <= c <= 'Z' then c - 'A' + 'a' else c
  }

  function Lower(s: string): (r: string)
    ensures |r| == |s|
  {
    seq(|s|, i requires 0 <= i < |s| => LowerChar(s[i]))
  }

  predicate EqualFold(a: string, b: string) {
    |a| == |b| && forall i :: 0 <= i < |a| ==> LowerChar(a[i]) == LowerChar(b[i])
  }

  predicate IsLower(s: string) {
    forall i :: 0 <= i < |s| ==> !('A' <= s[i] <= 'Z')
  }

  lemma EqualFoldIsEqualLower(a: string, b: string)
    ensures EqualFold(a, b) <==> Lower(a) == Lower(b)
  {
    if Lower(a) == Lower(b) {
      assert |a| == |Lower(a)| == |b|;
      forall i | 0 <= i < |a| ensures LowerChar(a[i]) == LowerChar(b[i]) {
        assert Lower(a)[i] == Lower(b)[i];
      }
    }
  }

  /** The fixed points of lowering are the strings without capitals, and lowering reaches one. */
  lemma LowerFixesExactlyLower(s: string)
    ensures Lower(s) == s <==> IsLower(s)
    ensures IsLower(Lower(s)) && Lower(Lower(s)) == Lower(s)
  {
    if Lower(s) == s {
      forall i | 0 <= i < |s| ensures !('A' <= s[i] <= 'Z') {
        assert Lower(s)[i] == LowerChar(s[i]);
      }
    }
  }

  // ---------- byte order and sorting ----------

  predicate Less(a: string, b: string) {
    b != [] && (a == [] || a[0] < b[0] || (a[0] == b[0] && Less(a[1..], b[1..])))
  }

  lemma {:induction false} LessIrreflexive(a: string)
    ensures !Less(a, a)
  {
    if a != [] { LessIrreflexive(a[1..]); }
  }

  lemma {:induction false} LessTransitive(a: string, b: string, c: string)
    requires Less(a, b) && Less(b, c)
    ensures Less(a, c)
  {
    if a != [] && a[0] == b[0] == c[0] {
      LessTransitive(a[1..], b[1..], c[1..]);
    }
  }

  lemma {:induction false} LessTotal(a: string, b: string)
    ensures a == b || Less(a, b) || Less(b, a)
  {
    if a != [] && b != [] && a[0] == b[0] {
      LessTotal(a[1..], b[1..]);
      assert a == [a[0]] + a[1..] && b == [b[0]] + b[1..];
    }
  }

  predicate StrictlySorted(s: seq<string>) {
    forall i, j :: 0 <= i < j < |s| ==> Less(s[i], s[j])
  }

  function Elements(s: seq<string>): (r: set<string>) {
    set x | x in s
  }

  lemma ElementsCons(x: string, s: seq<string>)
    ensures Elements([x] + s) == {x} + Elements(s)
  {
    forall y | y in Elements(s) ensures y in [x] + s {
      var i :| 0 <= i < |s| && s[i] == y;
      assert ([x] + s)[i + 1] == y;
    }
  }

  function Insert(x: string, s: seq<string>): (r: seq<string>)
    ensures Elements(r) == Elements(s) + {x}
  {
    if s == [] then [x]
    else if Less(x, s[0]) then [x] + s
    else if x == s[0] then s
    else
      assert s == [s[0]] + s[1..];
      ElementsCons(s[0], s[1..]);
      ElementsCons(s[0], Insert(x, s[1..]));
      [s[0]] + Insert(x, s[1..])
  }

  lemma {:induction false} InsertSorted(x: string, s: seq<string>)
    requires StrictlySorted(s)
    ensures StrictlySorted(Insert(x, s))
  {
    if s != [] {
      if Less(x, s[0]) {
        forall j | 0 <= j < |s| ensures Less(x, s[j]) {
          if j > 0 { LessTransitive(x, s[0], s[j]); }
        }
      } else if x != s[0] {
        var rest := Insert(x, s[1..]);
        LessTotal(x, s[0]);
        InsertSorted(x, s[1..]);
        forall j | 0 <= j < |rest| ensures Less(s[0], rest[j]) {
          assert rest[j] in Elements(rest);
        }
      }
    }
  }

  /** `slices.Sort` applied to distinct strings. */
  function Sort(s: seq<string>): (r: seq<string>)
    ensures Elements(r) == Elements(s)
    ensures StrictlySorted(r)
  {
    if s == [] then [] else
      var rest := Sort(s[1..]);
      InsertSorted(s[0], rest);
      assert s == [s[0]] + s[1..];
      Insert(s[0], rest)
  }

  /** The keys of a map in the order an encoder that sorts them meets them. */
  ghost function SortedKeys(keys: set<string>): (r: seq<string>)
    ensures Elements(r) == keys && StrictlySorted(r)
  {
    if keys == {} then [] else
      var k :| k in keys;
      InsertSorted(k, SortedKeys(keys - {k}));
      Insert(k, SortedKeys(keys - {k}))
  }

  /** A strictly sorted list is determined by its elements. */
  lemma {:induction false} StrictlySortedUnique(s: seq<string>, t: seq<string>)
    requires StrictlySorted(s) && StrictlySorted(t) && Elements(s) == Elements(t)
    ensures s == t
  {
    assert s == [] <==> Elements(s) == {} by { if s != [] { assert s[0] in Elements(s); } }
    assert t == [] <==> Elements(t) == {} by { if t != [] { assert t[0] in Elements(t); } }
    if s != [] {
      HeadIsLeast(s, t[0]);
      HeadIsLeast(t, s[0]);
      assert s[0] == t[0] by {
        if Less(s[0], t[0]) { LessAsymmetric(s[0], t[0]); }
      }
      TailElements(s);
      TailElements(t);
      StrictlySortedUnique(s[1..], t[1..]);
      assert s == [s[0]] + s[1..] && t == [t[0]] + t[1..];
    }
  }

  lemma LessAsymmetric(a: string, b: string)
    requires Less(a, b)
    ensures !Less(b, a)
  {
    if Less(b, a) {
      LessTransitive(a, b, a);
      LessIrreflexive(a);
    }
  }

  lemma HeadIsLeast(s: seq<string>, x: string)
    requires s != [] && StrictlySorted(s) && x in Elements(s)
    ensures x == s[0] || Less(s[0], x)
  {
    var i :| 0 <= i < |s| && s[i] == x;
  }

  lemma TailElements(s: seq<string>)
    requires s != [] && StrictlySorted(s)
    ensures Elements(s[1..]) == Elements(s) - {s[0]}
  {
    forall x | x in s[1..] ensures x != s[0] {
      var j :| 0 <= j < |s[1..]| && s[1..][j] == x;
      assert Less(s[0], s[j + 1]);
      LessIrreflexive(s[0]);
    }
    assert s == [s[0]] + s[1..];
  }

  // ---------- walking a map ----------

  /** The list names every key of the map and nothing else. */
  ghost predicate Enumerates<T>(order: seq<string>, m: map<string, T>) {
    forall k :: k in order <==> k in m
  }

  /** The keys of a map, in the order some iteration meets them. */
  method KeysInSomeOrder<T>(m: map<string, T>) returns (names: seq<string>)
    ensures Elements(names) == m.Keys
  {
    names := [];
    var left := m.Keys;
    while left != {}
      invariant left <= m.Keys && Elements(names) == m.Keys - left
    {
      var name :| name in left;
      ElementsSnoc(names, name);
      names, left := names + [name], left - {name};
    }
  }

  /** The keys of a map, collected in some order and sorted. */
  method SortedNames<T>(m: map<string, T>) returns (names: seq<string>)
    ensures names == SortedKeys(m.Keys)
  {
    var keys := KeysInSomeOrder(m);
    names := Sort(keys);
    StrictlySortedUnique(names, SortedKeys(m.Keys));
  }

  // ---------- lists without repetition ----------

  predicate NoRepeats(s: seq<string>) { forall i, j :: 0 <= i < j < |s| ==> s[i] != s[j] }

  lemma NoRepeatsCons(x: string, s: seq<string>)
    ensures NoRepeats([x] + s) <==> NoRepeats(s) && x !in Elements(s)
  {
    var all := [x] + s;
    if NoRepeats(all) {
      forall i, j | 0 <= i < j < |s| ensures s[i] != s[j] { assert all[i + 1] == s[i] && all[j + 1] == s[j]; }
      forall i | 0 <= i < |s| ensures s[i] != x { assert all[0] == x && all[i + 1] == s[i]; }
    }
  }

  lemma ElementsSnoc(s: seq<string>, x: string)
    ensures Elements(s + [x]) == Elements(s) + {x}
  {
  }

  lemma NoRepeatsSnoc(s: seq<string>, x: string)
    ensures NoRepeats(s + [x]) <==> NoRepeats(s) && x !in s
  {
    if NoRepeats(s + [x]) {
      forall i, j | 0 <= i < j < |s| ensures s[i] != s[j] { assert (s + [x])[i] == s[i] && (s + [x])[j] == s[j]; }
      forall i | 0 <= i < |s| ensures s[i] != x { assert (s + [x])[i] == s[i] && (s + [x])[|s|] == x; }
    }
  }

  lemma {:induction false} ElementsSize(s: seq<string>)
    requires NoRepeats(s)
    ensures |Elements(s)| == |s|
  {
    if s != [] {
      var init, last := s[..|s| - 1], s[|s| - 1];
      assert s == init + [last];
      NoRepeatsSnoc(init, last);
      ElementsSnoc(init, last);
      ElementsSize(init);
    }
  }

  ghost predicate OnceEach(s: seq<string>) { forall k :: k in s ==> multiset(s)[k] == 1 }

  lemma OnceEachSnoc(s: seq<string>, x: string)
    ensures OnceEach(s + [x]) <==> OnceEach(s) && x !in s
  {
    assert multiset(s + [x]) == multiset(s) + multiset{x};
    assert forall k :: k in s <==> multiset(s)[k] > 0;
    if OnceEach(s + [x]) {
      assert x in s + [x];
      forall k | k in s ensures multiset(s)[k] == 1 { assert k in s + [x]; }
    }
  }

  lemma {:induction false} NoRepeatsIsOnceEach(s: seq<string>)
    ensures NoRepeats(s) <==> OnceEach(s)
  {
    if s != [] {
      var init, last := s[..|s| - 1], s[|s| - 1];
      assert s == init + [last];
      NoRepeatsIsOnceEach(init);
      NoRepeatsSnoc(init, last);
      OnceEachSnoc(init, last);
    }
  }

  /** Lists without repetition that have the same elements are permutations of each other. */
  lemma SameElementsOnce(s: seq<string>, t: seq<string>)
    requires NoRepeats(s) && NoRepeats(t) && forall k :: k in s <==> k in t
    ensures multiset(s) == multiset(t)
  {
    NoRepeatsIsOnceEach(s);
    NoRepeatsIsOnceEach(t);
    forall k ensures multiset(s)[k] == multiset(t)[k] {
      assert k in s <==> multiset(s)[k] > 0;
      assert k in t <==> multiset(t)[k] > 0;
    }
  }

  lemma RepeatsOfPermutation(s: seq<string>, t: seq<string>)
    requires multiset(s) == multiset(t)
    ensures NoRepeats(s) <==> NoRepeats(t)
    ensures Elements(s) == Elements(t)
  {
    NoRepeatsIsOnceEach(s);
    NoRepeatsIsOnceEach(t);
    assert forall k :: k in s <==> k in multiset(s);
    assert forall k :: k in t <==> k in multiset(t);
  }

  /** The strings each element contributes, in a row. */
  function Flat<T>(s: seq<T>, f: T -> seq<string>): seq<string> {
    if s == [] then [] else Flat(s[..|s| - 1], f) + f(s[|s| - 1])
  }

  lemma FlatSnoc<T>(s: seq<T>, x: T, f: T -> seq<string>)
    ensures Flat(s + [x], f) == Flat(s, f) + f(x)
    ensures multiset(Flat(s + [x], f)) == multiset(Flat(s, f)) + multiset(f(x))
  {
    assert (s + [x])[..|s|] == s;
  }

  lemma {:induction false} FlatMiddle<T>(a: seq<T>, x: T, b: seq<T>, f: T -> seq<string>)
    ensures multiset(Flat(a + [x] + b, f)) == multiset(Flat(a + b, f)) + multiset(f(x))
    decreases |b|
  {
    if b == [] {
      assert a + [x] + b == a + [x] && a + b == a;
      FlatSnoc(a, x, f);
    } else {
      var init, last := b[..|b| - 1], b[|b| - 1];
      FlatMiddle(a, x, init, f);
      assert a + [x] + b == (a + [x] + init) + [last] && a + b == (a + init) + [last];
      FlatSnoc(a + [x] + init, last, f);
      FlatSnoc(a + init, last, f);
    }
  }

  lemma TakeOut<T>(s: seq<T>, k: nat)
    requires k < |s|
    ensures s == s[..k] + [s[k]] + s[k + 1..]
    ensures multiset(s[..k] + s[k + 1..]) == multiset(s) - multiset{s[k]}
  {
    assert s == s[..k] + [s[k]] + s[k + 1..];
  }

  /** A permutation contributes the same strings equally often. */
  lemma {:induction false} FlatOfPermutation<T>(s: seq<T>, t: seq<T>, f: T -> seq<string>)
    requires multiset(s) == multiset(t)
    ensures multiset(Flat(s, f)) == multiset(Flat(t, f))
    decreases |s|
  {
    assert |s| == |multiset(s)| == |multiset(t)| == |t|;
    if s != [] {
      var n := |s| - 1;
      assert s[n] in multiset(t);
      var k :| 0 <= k < |t| && t[k] == s[n];
      TakeOut(s, n);
      TakeOut(t, k);
      FlatMiddle(s[..n], s[n], s[n + 1..], f);
      FlatMiddle(t[..k], t[k], t[k + 1..], f);
      FlatOfPermutation(s[..n] + s[n + 1..], t[..k] + t[k + 1..], f);
    }
  }

  // ---------- decimal text ----------

  function Digit(d: nat): (c: char)
    requires d < 10
    ensures '0' <= c <= '9'
  {
    '0' + d as char
  }

  predicate IsDigit(c: char) { '0' <= c <= '9' }

  function NatText(n: nat): (s: string)
    ensures s != [] && forall i :: 0 <= i < |s| ==> IsDigit(s[i])
  {
    if n < 10 then [Digit(n)] else NatText(n / 10) + [Digit(n % 10)]
  }

  function IntText(n: int): (s: string)
    ensures s != [] && (s[0] == '-' || IsDigit(s[0]))
  {
    if n < 0 then "-" + NatText(-n) else NatText(n)
  }

  function ParseNat(s: string): (n: nat)
    requires forall i :: 0 <= i < |s| ==> IsDigit(s[i])
  {
    if s == [] then 0 else
      assert IsDigit(s[|s| - 1]);
      10 * ParseNat(s[..|s| - 1]) + (s[|s| - 1] as int - '0' as int)
  }

  lemma {:induction false} ParseNatText(n: nat)
    ensures ParseNat(NatText(n)) == n
  {
    if n >= 10 {
      ParseNatText(n / 10);
      assert NatText(n)[..|NatText(n)| - 1] == NatText(n / 10);
    }
  }

  /** How many digits a text starts with. */
  function DigitRun(s: string): (n: nat)
    ensures n <= |s|
  {
    if s == [] || !IsDigit(s[0]) then 0 else 1 + DigitRun(s[1..])
  }

  predicate NoDigitFirst(s: string) { s == [] || !IsDigit(s[0]) }

  lemma {:induction false} DigitRunOfText(u: string, r: string)
    requires (forall i :: 0 <= i < |u| ==> IsDigit(u[i])) && NoDigitFirst(r)
    ensures DigitRun(u + r) == |u|
  {
    if u == [] {
      assert u + r == r;
    } else {
      assert (u + r)[1..] == u[1..] + r;
      DigitRunOfText(u[1..], r);
    }
  }

  /** Decimal texts followed by something that is not a digit split in one way only. */
  lemma NatTextSplits(a: nat, b: nat, r: string, s: string)
    requires NatText(a) + r == NatText(b) + s
    requires NoDigitFirst(r) && NoDigitFirst(s)
    ensures a == b && r == s
  {
    var u, v := NatText(a), NatText(b);
    DigitRunOfText(u, r);
    DigitRunOfText(v, s);
    assert u == (u + r)[..|u|] && v == (v + s)[..|v|];
    assert r == (u + r)[|u|..] && s == (v + s)[|v|..];
    ParseNatText(a);
    ParseNatText(b);
  }

  lemma IntTextSplits(a: int, b: int, r: string, s: string)
    requires IntText(a) + r == IntText(b) + s
    requires NoDigitFirst(r) && NoDigitFirst(s)
    ensures a == b && r == s
  {
    IntTextHead(a, r);
    IntTextHead(b, s);
    NatTextSplits(Abs(a), Abs(b), r, s);
  }

  function Abs(n: int): nat { if n < 0 then -n else n }

  lemma IntTextHead(a: int, r: string)
    ensures |IntText(a)| > 0 && ((IntText(a) + r)[0] == '-' <==> a < 0)
    ensures NatText(Abs(a)) + r == if a < 0 then (IntText(a) + r)[1..] else IntText(a) + r
  {
    assert (IntText(a) + r)[0] == IntText(a)[0];
    if a < 0 {
      assert (("-" + NatText(-a)) + r)[1..] == NatText(-a) + r;
    } else {
      assert IsDigit(NatText(a)[0]);
    }
  }
}
