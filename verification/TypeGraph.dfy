/** The search for struct types behind pointers, arrays, slices and maps, with one `seen` set that
    all branches share and fill, on type graphs that may have cycles. */
module TypeGraph {
  import opened Options

  type Node = nat

  /** The underlying type; `None` is a nil element type. */
  datatype Shape =
    | StructType
    | Pointer(elem: Option<Node>)
    | Array(elem: Option<Node>)
    | Slice(elem: Option<Node>)
    | MapType(key: Option<Node>, elem: Option<Node>)
    | OtherType

  type Graph = map<Node, Shape>

  predicate Edge(g: Graph, a: Node, b: Node) {
    a in g && match g[a] {
      case StructType => false
      case OtherType => false
      case MapType(key, elem) => key == Some(b) || elem == Some(b)
      case Pointer(elem) => elem == Some(b)
      case Array(elem) => elem == Some(b)
      case Slice(elem) => elem == Some(b)
    }
  }

  ghost predicate Closed(g: Graph) { forall a, b :: Edge(g, a, b) ==> b in g }

  ghost predicate Path(g: Graph, p: seq<Node>) {
    && p != [] && (forall i :: 0 <= i < |p| ==> p[i] in g)
    && (forall i :: 0 <= i < |p| - 1 ==> Edge(g, p[i], p[i + 1]))
  }

  /** A path from `t` to a struct type that stays outside `avoid`. */
  ghost predicate LeadsToStruct(g: Graph, t: Node, avoid: set<Node>, p: seq<Node>) {
    && Path(g, p) && p[0] == t && g[p[|p| - 1]] == StructType
    && forall i :: 0 <= i < |p| ==> p[i] !in avoid
  }

  ghost predicate Reaches(g: Graph, t: Option<Node>, avoid: set<Node>) {
    t.Some? && exists p :: LeadsToStruct(g, t.value, avoid, p)
  }

  lemma StructReaches(g: Graph, t: Node, avoid: set<Node>)
    requires t in g && g[t] == StructType && t !in avoid
    ensures Reaches(g, Some(t), avoid)
  {
    assert LeadsToStruct(g, t, avoid, [t]);
  }

  lemma StepReaches(g: Graph, t: Node, next: Option<Node>, avoid: set<Node>, later: set<Node>)
    requires t in g && t !in avoid && avoid <= later
    requires Reaches(g, next, later) && Edge(g, t, next.value)
    ensures Reaches(g, Some(t), avoid)
  {
    var p :| LeadsToStruct(g, next.value, later, p);
    var q := [t] + p;
    forall i | 0 <= i < |q| - 1 ensures Edge(g, q[i], q[i + 1]) {
      if i > 0 { assert Edge(g, p[i - 1], p[i]); }
    }
    assert LeadsToStruct(g, t, avoid, q);
  }

  /** Between `before` and `after` the search saw no struct, and what it saw leads nowhere else. */
  ghost predicate Exhausted(g: Graph, before: set<Node>, after: set<Node>) {
    && before <= after
    && (forall x :: x in after - before ==> x in g && g[x] != StructType)
    && (forall x, y :: x in after - before && Edge(g, x, y) ==> y in after)
  }

  lemma ExhaustedMeansUnreachable(g: Graph, t: Option<Node>, before: set<Node>, after: set<Node>)
    requires Exhausted(g, before, after) && (t.Some? ==> t.value in after)
    ensures !Reaches(g, t, before)
  {
    if t.Some? {
      forall p ensures !LeadsToStruct(g, t.value, before, p) {
        if Path(g, p) && p[0] == t.value && forall i :: 0 <= i < |p| ==> p[i] !in before {
          StaysInside(g, before, after, p, |p| - 1);
        }
      }
    }
  }

  lemma {:induction false} StaysInside(g: Graph, before: set<Node>, after: set<Node>, p: seq<Node>, n: nat)
    requires Exhausted(g, before, after) && Path(g, p) && p[0] in after && n < |p|
    requires forall i :: 0 <= i < |p| ==> p[i] !in before
    ensures p[n] in after - before
  {
    if n > 0 {
      StaysInside(g, before, after, p, n - 1);
      assert Edge(g, p[n - 1], p[n]);
    }
  }

  /** The set shared by reference between the recursive calls. */
  class Seen {
    var members: set<Node>

    constructor ()
      ensures members == {}
    {
      members := {};
    }
  }

  /** On every finite graph the search ends, and it returns true exactly when a struct type is
      reachable without passing through a type that was already seen. */
  method ContainsStruct(g: Graph, t: Option<Node>, seen: Seen) returns (found: bool)
    requires Closed(g) && (t.Some? ==> t.value in g)
    modifies seen
    ensures found <==> Reaches(g, t, old(seen.members))
    ensures old(seen.members) <= seen.members
    ensures !found ==> Exhausted(g, old(seen.members), seen.members) && (t.Some? ==> t.value in seen.members)
    decreases g.Keys - seen.members, 0
  {
    ghost var before := seen.members;
    if t.None? || t.value in seen.members {
      if t.Some? { ExhaustedMeansUnreachable(g, t, before, before); }
      return false;
    }
    seen.members := seen.members + {t.value};
    match g[t.value] {
      case StructType =>
        StructReaches(g, t.value, before);
        return true;
      case Pointer(elem) =>
        found := Descend(g, t.value, elem, seen, before);
      case Array(elem) =>
        found := Descend(g, t.value, elem, seen, before);
      case Slice(elem) =>
        found := Descend(g, t.value, elem, seen, before);
      case MapType(key, elem) =>
        found := Descend(g, t.value, key, seen, before);
        if !found {
          found := Descend(g, t.value, elem, seen, before);
        }
      case OtherType =>
        found := false;
    }
    if !found {
      ExhaustedMeansUnreachable(g, t, before, seen.members);
    }
  }

  /** One recursive call on an element type of `t`, which has just been seen. */
  method Descend(g: Graph, ghost t: Node, next: Option<Node>, seen: Seen, ghost before: set<Node>) returns (found: bool)
    requires Closed(g) && t in g && t !in before && before + {t} <= seen.members
    requires next.Some? ==> Edge(g, t, next.value)
    requires Exhausted(g, before + {t}, seen.members)
    modifies seen
    ensures found ==> Reaches(g, Some(t), before)
    ensures old(seen.members) <= seen.members
    ensures !found ==> Exhausted(g, before + {t}, seen.members) && (next.Some? ==> next.value in seen.members)
    decreases g.Keys - seen.members, 1
  {
    found := ContainsStruct(g, next, seen);
    if found {
      StepReaches(g, t, next, before, old(seen.members));
    }
  }

  /** The check as it is called, with nothing seen yet. */
  method ContainsStructFromScratch(g: Graph, t: Option<Node>) returns (found: bool)
    requires Closed(g) && (t.Some? ==> t.value in g)
    ensures found <==> t.Some? && exists p :: Path(g, p) && p[0] == t.value && g[p[|p| - 1]] == StructType
  {
    var seen := new Seen();
    found := ContainsStruct(g, t, seen);
    if found {
      ghost var p :| LeadsToStruct(g, t.value, {}, p);
    } else if t.Some? {
      forall p | Path(g, p) && p[0] == t.value ensures g[p[|p| - 1]] != StructType {
        assert !LeadsToStruct(g, t.value, {}, p);
      }
    }
  }
}
