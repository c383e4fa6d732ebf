/**
  Finite paths over a set of edges. The resolver uses them on node indices,
  the scheduler and the specification of the resolver on units.
 */
module Paths {

  /** A nonempty walk: each node is joined to the next by an edge. */
  ghost predicate IsPath<T(!new)>(edges: set<(T, T)>, p: seq<T>) {
    |p| >= 1 && forall i, j :: 0 <= i && j == i + 1 && j < |p| ==> (p[i], p[j]) in edges
  }

  ghost predicate PathFrom<T(!new)>(edges: set<(T, T)>, p: seq<T>, a: T, b: T) {
    IsPath(edges, p) && p[0] == a && p[|p| - 1] == b
  }

  /** `b` can be reached from `a` in zero or more steps. */
  ghost predicate Star<T(!new)>(edges: set<(T, T)>, a: T, b: T) {
    exists p: seq<T> :: PathFrom(edges, p, a, b)
  }

  /** `b` can be reached from `a` in one or more steps. */
  ghost predicate Plus<T(!new)>(edges: set<(T, T)>, a: T, b: T) {
    exists p: seq<T> :: PathFrom(edges, p, a, b) && |p| >= 2
  }

  ghost predicate Acyclic<T(!new)>(edges: set<(T, T)>) {
    forall a: T :: !Plus(edges, a, a)
  }

  ghost predicate Closed<T(!new)>(edges: set<(T, T)>, nodes: set<T>) {
    forall a, b :: (a, b) in edges && a in nodes ==> b in nodes
  }

  lemma NoCycleAt<T(!new)>(edges: set<(T, T)>, a: T)
    requires Acyclic(edges)
    ensures !Plus(edges, a, a)
  {
  }

  lemma StarRefl<T(!new)>(edges: set<(T, T)>, a: T)
    ensures Star(edges, a, a)
  {
    assert PathFrom(edges, [a], a, a);
  }

  lemma EdgePlus<T(!new)>(edges: set<(T, T)>, a: T, b: T)
    requires (a, b) in edges
    ensures Plus(edges, a, b)
  {
    assert PathFrom(edges, [a, b], a, b);
  }

  lemma JoinPaths<T(!new)>(edges: set<(T, T)>, p: seq<T>, q: seq<T>, a: T, b: T, c: T)
    requires PathFrom(edges, p, a, b) && PathFrom(edges, q, b, c)
    ensures PathFrom(edges, p + q[1..], a, c)
  {
    var r := p + q[1..];
    forall i, j | 0 <= i && j == i + 1 && j < |r| ensures (r[i], r[j]) in edges {
      if i >= |p| - 1 {
        assert r[i] == q[i - |p| + 1] && r[j] == q[j - |p| + 1];
      } else {
        assert r[i] == p[i] && r[j] == p[j];
      }
    }
    assert r[|r| - 1] == c;
  }

  lemma StarTrans<T(!new)>(edges: set<(T, T)>, a: T, b: T, c: T)
    requires Star(edges, a, b) && Star(edges, b, c)
    ensures Star(edges, a, c)
  {
    var p :| PathFrom(edges, p, a, b);
    var q :| PathFrom(edges, q, b, c);
    JoinPaths(edges, p, q, a, b, c);
  }

  lemma PlusIsStar<T(!new)>(edges: set<(T, T)>, a: T, b: T)
    requires Plus(edges, a, b)
    ensures Star(edges, a, b)
  {
  }

  lemma StarThenEdge<T(!new)>(edges: set<(T, T)>, a: T, b: T, c: T)
    requires Star(edges, a, b) && (b, c) in edges
    ensures Plus(edges, a, c)
  {
    var p :| PathFrom(edges, p, a, b);
    assert PathFrom(edges, [b, c], b, c);
    JoinPaths(edges, p, [b, c], a, b, c);
    assert |p + [b, c][1..]| >= 2;
  }

  lemma EdgeThenStar<T(!new)>(edges: set<(T, T)>, a: T, b: T, c: T)
    requires (a, b) in edges && Star(edges, b, c)
    ensures Plus(edges, a, c)
  {
    var q :| PathFrom(edges, q, b, c);
    assert PathFrom(edges, [a, b], a, b);
    JoinPaths(edges, [a, b], q, a, b, c);
    assert |[a, b] + q[1..]| >= 2;
  }

  /** A path of one or more steps has a first and a last edge. */
  lemma PlusEnds<T(!new)>(edges: set<(T, T)>, a: T, c: T) returns (first: T, last: T)
    requires Plus(edges, a, c)
    ensures (a, first) in edges && Star(edges, first, c)
    ensures Star(edges, a, last) && (last, c) in edges
  {
    var p :| PathFrom(edges, p, a, c) && |p| >= 2;
    first, last := p[1], p[|p| - 2];
    assert PathFrom(edges, p[1..], first, c);
    assert PathFrom(edges, p[..|p| - 1], a, last);
  }

  lemma StarMonotone<T(!new)>(small: set<(T, T)>, large: set<(T, T)>, a: T, b: T)
    requires small <= large
    ensures Star(small, a, b) ==> Star(large, a, b)
    ensures Plus(small, a, b) ==> Plus(large, a, b)
  {
    if Star(small, a, b) {
      var p :| PathFrom(small, p, a, b);
      assert PathFrom(large, p, a, b);
    }
    if Plus(small, a, b) {
      var p :| PathFrom(small, p, a, b) && |p| >= 2;
      assert PathFrom(large, p, a, b);
    }
  }

  /** A set closed under the edges keeps every path that starts inside it. */
  lemma {:induction false} ClosedKeepsPath<T(!new)>(edges: set<(T, T)>, nodes: set<T>, p: seq<T>, k: nat)
    requires IsPath(edges, p) && Closed(edges, nodes) && p[0] in nodes && k < |p|
    ensures p[k] in nodes
  {
    if k > 0 {
      ClosedKeepsPath(edges, nodes, p, k - 1);
      assert (p[k - 1], p[k]) in edges;
    }
  }

  lemma ClosedKeepsStar<T(!new)>(edges: set<(T, T)>, nodes: set<T>, a: T, b: T)
    requires Closed(edges, nodes) && a in nodes && Star(edges, a, b)
    ensures b in nodes
  {
    var p :| PathFrom(edges, p, a, b);
    ClosedKeepsPath(edges, nodes, p, |p| - 1);
  }

  /** The edges that leave a node of the given set. */
  ghost function Within<T(!new)>(edges: set<(T, T)>, nodes: set<T>): set<(T, T)> {
    set e | e in edges && e.0 in nodes
  }

  /** Paths that start inside a closed set use only edges inside it. */
  lemma PathWithin<T(!new)>(edges: set<(T, T)>, nodes: set<T>, a: T, b: T)
    requires Closed(edges, nodes) && a in nodes
    ensures Star(edges, a, b) ==> Star(Within(edges, nodes), a, b)
    ensures Plus(edges, a, b) ==> Plus(Within(edges, nodes), a, b)
  {
    forall p: seq<T> | PathFrom(edges, p, a, b) ensures PathFrom(Within(edges, nodes), p, a, b) {
      forall i, j | 0 <= i && j == i + 1 && j < |p| ensures (p[i], p[j]) in Within(edges, nodes) {
        ClosedKeepsPath(edges, nodes, p, i);
      }
    }
  }

  /** What one additional edge adds to reachability. */
  lemma {:induction false} SplitAtNewEdge<T(!new)>(edges: set<(T, T)>, a: T, b: T, p: seq<T>)
    requires IsPath(edges + {(a, b)}, p)
    ensures Star(edges, p[0], p[|p| - 1]) || (Star(edges, p[0], a) && Star(edges, b, p[|p| - 1]))
    decreases |p|
  {
    var c := p[|p| - 1];
    if |p| == 1 {
      StarRefl(edges, c);
    } else {
      var q := p[..|p| - 1];
      SplitAtNewEdge(edges, a, b, q);
      var d := q[|q| - 1];
      assert d == p[|p| - 2] && (d, c) in edges + {(a, b)};
      if (d, c) in edges {
        if Star(edges, p[0], d) {
          StarThenEdge(edges, p[0], d, c);
        } else {
          StarThenEdge(edges, b, d, c);
        }
      } else {
        StarRefl(edges, b);
      }
    }
  }

  /** An edge that closes no path keeps an acyclic graph acyclic. */
  lemma AddEdgeAcyclic<T(!new)>(edges: set<(T, T)>, a: T, b: T)
    requires Acyclic(edges) && !Star(edges, b, a)
    ensures Acyclic(edges + {(a, b)})
  {
    var more := edges + {(a, b)};
    forall x: T ensures !Plus(more, x, x) {
      if Plus(more, x, x) {
        var first, _ := PlusEnds(more, x, x);
        var p :| PathFrom(more, p, first, x);
        SplitAtNewEdge(edges, a, b, p);
        if (x, first) in edges {
          if Star(edges, first, x) {
            EdgeThenStar(edges, x, first, x);
          } else {
            EdgeThenStar(edges, x, first, a);
            StarTrans(edges, b, x, a);
          }
        }
      }
    }
  }

  /** The nodes of a path in an acyclic graph are pairwise distinct. */
  lemma PathDistinct<T(!new)>(edges: set<(T, T)>, p: seq<T>)
    requires IsPath(edges, p) && Acyclic(edges)
    ensures forall i, j :: 0 <= i < j < |p| ==> p[i] != p[j]
  {
    forall i, j | 0 <= i < j < |p| ensures p[i] != p[j] {
      var q := p[i..j + 1];
      assert q[|q| - 1] == p[j];
      assert PathFrom(edges, q, p[i], p[j]) && |q| >= 2;
      assert !Plus(edges, p[i], p[i]);
    }
  }

  lemma {:induction false} DistinctBound<T(!new)>(p: seq<T>, nodes: set<T>)
    requires forall i, j :: 0 <= i < j < |p| ==> p[i] != p[j]
    requires forall x :: x in p ==> x in nodes
    ensures |p| <= |nodes|
    decreases |p|
  {
    if p != [] {
      DistinctBound(p[1..], nodes - {p[0]});
    }
  }

  function EdgeSet(edges: seq<(nat, nat)>): set<(nat, nat)> {
    set e | e in edges
  }

  /** Graph search over an edge list: does `a` reach `b`? */
  method HasPathConnecting(edges: seq<(nat, nat)>, a: nat, b: nat) returns (found: bool)
    ensures found <==> Star(EdgeSet(edges), a, b)
  {
    var all := EdgeSet(edges);
    var targets := {a} + set e | e in all :: e.1;
    var seen, frontier := {a}, {a};
    StarRefl(all, a);
    while frontier != {}
      invariant frontier <= seen <= targets && a in seen
      invariant forall v :: v in seen ==> Star(all, a, v)
      invariant forall x, y :: (x, y) in all && x in seen - frontier ==> y in seen
      decreases targets - (seen - frontier)
    {
      var v :| v in frontier;
      var next := set e | e in all && e.0 == v && e.1 !in seen :: e.1;
      forall w | w in next ensures Star(all, a, w) {
        StarThenEdge(all, a, v, w);
        PlusIsStar(all, a, w);
      }
      ghost var done := seen - frontier;
      seen, frontier := seen + next, (frontier - {v}) + next;
      assert seen - frontier == done + {v};
    }
    found := b in seen;
    if Star(all, a, b) {
      ClosedKeepsStar(all, seen, a, b);
    }
  }
}
