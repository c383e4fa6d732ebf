/**
  The dependency graph the solver hands to the builder (the `UnitDag` of
  src/eval.rs): units in insertion order and index pairs `(dependent, dependency)`.
 */
module Graphs {
  import opened Common
  import opened Units
  import opened Paths

  datatype UnitDag = UnitDag(nodes: seq<Unit>, edges: seq<(nat, nat)>)

  ghost predicate InRange(g: UnitDag) {
    forall e :: e in g.edges ==> e.0 < |g.nodes| && e.1 < |g.nodes|
  }

  ghost predicate DistinctNodes(g: UnitDag) {
    NoDuplicates(g.nodes)
  }

  function All(g: UnitDag): set<Unit> {
    set u | u in g.nodes
  }

  /** The edges read as pairs of units. */
  ghost function Rel(g: UnitDag): set<(Unit, Unit)>
    requires InRange(g)
  {
    set e | e in g.edges :: (g.nodes[e.0], g.nodes[e.1])
  }

  /**
    What the scheduler relies on: no two nodes share an output path, no cycles,
    and the edges out of a unit are its recorded dependencies.
   */
  ghost predicate GoodGraph(g: UnitDag) {
    && |g.nodes| > 0
    && InRange(g)
    && (forall i, j :: 0 <= i < j < |g.nodes| ==> g.nodes[i].Result() != g.nodes[j].Result())
    && Acyclic(Rel(g))
    && (forall u :: u in g.nodes ==> u.Deps() == DepResults(g, u))
  }

  ghost function DepResults(g: UnitDag, u: Unit): set<MiqResult>
    requires InRange(g)
  {
    set e | e in Rel(g) && e.0 == u :: e.1.Result()
  }

  lemma SameResultSameUnit(g: UnitDag, u: Unit, v: Unit)
    requires GoodGraph(g) && u in g.nodes && v in g.nodes
    ensures u.Result() == v.Result() ==> u == v
    ensures u.StorePath() == v.StorePath() ==> u == v
  {
    var i :| 0 <= i < |g.nodes| && g.nodes[i] == u;
    var j :| 0 <= j < |g.nodes| && g.nodes[j] == v;
    PathsInjective(u.Result(), v.Result());
  }

  ghost function IndexOf(g: UnitDag, u: Unit): (i: nat)
    requires u in g.nodes
    ensures i < |g.nodes| && g.nodes[i] == u
  {
    var i: nat :| i < |g.nodes| && g.nodes[i] == u;
    i
  }

  /** With distinct nodes, a path between units is a path between their indices. */
  lemma PathToIndices(g: UnitDag, p: seq<Unit>, u: Unit, v: Unit)
    requires InRange(g) && DistinctNodes(g) && PathFrom(Rel(g), p, u, v) && |p| >= 2
    ensures u in g.nodes && v in g.nodes && Plus(EdgeSet(g.edges), IndexOf(g, u), IndexOf(g, v))
  {
    forall k | 0 <= k < |p| ensures p[k] in g.nodes {
      assert k + 1 < |p| ==> (p[k], p[k + 1]) in Rel(g);
      assert k > 0 ==> (p[k - 1], p[k]) in Rel(g);
    }
    var q: seq<nat> := seq(|p|, k requires 0 <= k < |p| => IndexOf(g, p[k]));
    forall i, j | 0 <= i && j == i + 1 && j < |q| ensures (q[i], q[j]) in EdgeSet(g.edges) {
      assert (p[i], p[j]) in Rel(g);
      var e :| e in g.edges && g.nodes[e.0] == p[i] && g.nodes[e.1] == p[j];
      assert e == (q[i], q[j]);
    }
    assert PathFrom(EdgeSet(g.edges), q, IndexOf(g, u), IndexOf(g, v));
  }

  lemma AcyclicRel(g: UnitDag)
    requires InRange(g) && DistinctNodes(g) && Acyclic(EdgeSet(g.edges))
    ensures Acyclic(Rel(g))
  {
    forall u: Unit ensures !Plus(Rel(g), u, u) {
      if Plus(Rel(g), u, u) {
        var p :| PathFrom(Rel(g), p, u, u) && |p| >= 2;
        PathToIndices(g, p, u, u);
      }
    }
  }
}
