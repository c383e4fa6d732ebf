/**
  The dependency solver of src/eval.rs: a depth-first walk over the evaluation
  store that grows a graph while it recurses.
 */
module Resolver {
  import opened Common
  import opened Units
  import opened Paths
  import opened Graphs

  /** The readable files of /miq/eval: `Unit::from_result` is a lookup here. */
  type EvalStore = map<MiqResult, Unit>

  datatype ResolveError = MissingUnit(dep: MiqResult) | WouldCycle | MaxCyclesReached

  const MAX_DAG_CYCLES: nat := 20

  // ---------------------------------------------------------------- meaning

  ghost function Universe(store: EvalStore, root: Unit): set<Unit> {
    {root} + store.Values
  }

  /** `(u, v)` when some dependency recorded in `u` is stored as `v`. */
  ghost function DepRel(store: EvalStore, root: Unit): set<(Unit, Unit)> {
    set u, d | u in Universe(store, root) && d in u.Deps() && d in store :: (u, store[d])
  }

  ghost predicate Reachable(store: EvalStore, root: Unit, u: Unit) {
    Star(DepRel(store, root), root, u)
  }

  /** Everything below the root is present and nothing below it is on a cycle. */
  ghost predicate Resolvable(store: EvalStore, root: Unit) {
    forall u :: Reachable(store, root, u) ==>
      u.Deps() <= store.Keys && !Plus(DepRel(store, root), u, u)
  }

  /** Every file holds the unit whose identifier names it. */
  ghost predicate WellFormedStore(store: EvalStore) {
    forall r :: r in store ==> store[r].Result() == r
  }

  /** `g` is the part of the store below `root`, each unit and each edge once. */
  ghost predicate Exact(store: EvalStore, root: Unit, g: UnitDag) {
    && |g.nodes| > 0 && g.nodes[0] == root
    && DistinctNodes(g)
    && InRange(g)
    && (forall u :: u in g.nodes <==> Reachable(store, root, u))
    && Rel(g) == Within(DepRel(store, root), All(g))
    && Acyclic(Rel(g))
    && (WellFormedStore(store) ==> NoDuplicates(g.edges))
  }

  // --------------------------------------------------------- the daggy graph

  datatype Weight = Weight(inner: Unit, visited: bool)

  /** daggy's `Dag<Weight<Unit>, ()>`. */
  class UnitNodeDag {
    var nodes: seq<Weight>
    var edges: seq<(nat, nat)>

    constructor ()
      ensures nodes == [] && edges == []
    {
      nodes, edges := [], [];
    }

    method AddNode(w: Weight) returns (index: nat)
      modifies this
      ensures index == |old(nodes)| && nodes == old(nodes) + [w] && edges == old(edges)
    {
      index := |nodes|;
      nodes := nodes + [w];
    }

    /** Appends a node and the edge that leads to it. */
    method AddChild(parent: nat, w: Weight) returns (child: nat)
      modifies this
      ensures child == |old(nodes)|
      ensures nodes == old(nodes) + [w] && edges == old(edges) + [(parent, child)]
    {
      child := |nodes|;
      nodes, edges := nodes + [w], edges + [(parent, child)];
    }

    /** Refuses the edge, and changes nothing, exactly when it would close a cycle. */
    method AddEdge(a: nat, b: nat) returns (added: bool)
      modifies this
      ensures added <==> !Star(EdgeSet(old(edges)), b, a)
      ensures nodes == old(nodes)
      ensures edges == if added then old(edges) + [(a, b)] else old(edges)
    {
      var closes := HasPathConnecting(edges, b, a);
      added := !closes;
      if added {
        edges := edges + [(a, b)];
      }
    }

    /** The first node holding this unit, compared by value. */
    method Find(u: Unit) returns (found: Option<nat>)
      ensures found.Some? ==> found.value < |nodes| && nodes[found.value].inner == u
      ensures found.None? ==> forall i :: 0 <= i < |nodes| ==> nodes[i].inner != u
    {
      for i := 0 to |nodes|
        invariant forall k :: 0 <= k < i ==> nodes[k].inner != u
      {
        if nodes[i].inner == u {
          return Some(i);
        }
      }
      return None;
    }

    method AllVisited() returns (all: bool)
      ensures all <==> forall i :: 0 <= i < |nodes| ==> nodes[i].visited
    {
      for i := 0 to |nodes|
        invariant forall k :: 0 <= k < i ==> nodes[k].visited
      {
        if !nodes[i].visited {
          return false;
        }
      }
      return true;
    }
  }

  // ------------------------------------------------- invariants of the walk

  /** Dependency `d` of node `i` has been followed to its end. */
  ghost predicate Followed(store: EvalStore, ns: seq<Weight>, es: seq<(nat, nat)>, i: nat, d: MiqResult) {
    d in store && exists j: nat :: j < |ns| && ns[j].inner == store[d] && ns[j].visited && (i, j) in es
  }

  ghost predicate Sound(store: EvalStore, root: Unit, ns: seq<Weight>, es: seq<(nat, nat)>) {
    && |ns| > 0 && ns[0].inner == root
    && (forall i, j :: 0 <= i < j < |ns| ==> ns[i].inner != ns[j].inner)
    && (forall i :: 0 <= i < |ns| ==> ns[i].inner in Universe(store, root))
    && (forall e :: e in es ==> e.0 < |ns| && e.1 < |ns| && (ns[e.0].inner, ns[e.1].inner) in DepRel(store, root))
    && (WellFormedStore(store) ==> NoDuplicates(es))
  }

  /** Visited nodes are closed under dependencies. */
  ghost predicate VisitedClosed(store: EvalStore, ns: seq<Weight>, es: seq<(nat, nat)>) {
    forall i: nat, d :: i < |ns| && ns[i].visited && d in ns[i].inner.Deps() ==> Followed(store, ns, es, i, d)
  }

  ghost predicate Rooted(ns: seq<Weight>, es: seq<(nat, nat)>) {
    forall i: nat :: i < |ns| ==> Star(EdgeSet(es), 0, i)
  }

  ghost predicate WalkInv(store: EvalStore, root: Unit, ns: seq<Weight>, es: seq<(nat, nat)>) {
    && Sound(store, root, ns, es)
    && VisitedClosed(store, ns, es)
    && Rooted(ns, es)
    && Acyclic(EdgeSet(es))
  }

  /** The callers of the current call all lead to it. */
  ghost predicate StackReaches(ns: seq<Weight>, es: seq<(nat, nat)>, stack: set<Unit>, index: nat) {
    forall u :: u in stack ==> exists i: nat :: i < |ns| && ns[i].inner == u && Plus(EdgeSet(es), i, index)
  }

  /**
    On the way down the unvisited nodes are exactly those on the call stack;
    on re-entry of a visited node they are all on the stack.
   */
  ghost predicate OnStack(ns: seq<Weight>, stack: set<Unit>, index: nat)
    requires index < |ns|
  {
    && (forall i: nat :: i < |ns| && !ns[i].visited ==> i == index || ns[i].inner in stack)
    && (!ns[index].visited ==> forall i: nat :: i < |ns| && ns[i].inner in stack ==> !ns[i].visited)
  }

  /** What a call on node `index` may change. */
  ghost predicate Grown(ns0: seq<Weight>, es0: seq<(nat, nat)>, ns: seq<Weight>, es: seq<(nat, nat)>, index: nat) {
    && |ns0| <= |ns| && es0 <= es
    && (forall i :: 0 <= i < |ns0| ==> ns[i].inner == ns0[i].inner)
    && (forall i :: 0 <= i < |ns0| && i != index ==> ns[i].visited == ns0[i].visited)
    && (forall i :: |ns0| <= i < |ns| ==> ns[i].visited)
    && (forall k :: |es0| <= k < |es| ==> es[k].0 == index || es[k].0 >= |ns0|)
  }

  /** In a well-formed store the edges leaving `index` belong to the dependencies handled so far. */
  ghost predicate EdgesFrom(store: EvalStore, ns: seq<Weight>, es: seq<(nat, nat)>, index: nat, done: set<MiqResult>) {
    WellFormedStore(store) ==>
      forall e :: e in es && e.0 == index ==> e.1 < |ns| && ns[e.1].inner.Result() in done
  }

  // ------------------------------------------------------------ small steps

  lemma EdgeSetSnoc(es: seq<(nat, nat)>, e: (nat, nat))
    ensures EdgeSet(es + [e]) == EdgeSet(es) + {e}
  {
  }

  lemma NoDuplicatesSnoc<T>(s: seq<T>, x: T)
    requires NoDuplicates(s) && x !in s
    ensures NoDuplicates(s + [x])
  {
  }

  /** Paths between node indices are paths between the units they hold. */
  lemma ToUnits(store: EvalStore, root: Unit, ns: seq<Weight>, es: seq<(nat, nat)>, i: nat, j: nat)
    requires Sound(store, root, ns, es) && i < |ns| && j < |ns|
    ensures Star(EdgeSet(es), i, j) ==> Star(DepRel(store, root), ns[i].inner, ns[j].inner)
    ensures Plus(EdgeSet(es), i, j) ==> Plus(DepRel(store, root), ns[i].inner, ns[j].inner)
  {
    forall p: seq<nat> | PathFrom(EdgeSet(es), p, i, j)
      ensures exists q: seq<Unit> :: |q| == |p| && PathFrom(DepRel(store, root), q, ns[i].inner, ns[j].inner)
    {
      forall k | 0 <= k < |p| ensures p[k] < |ns| {
        if k > 0 {
          assert (p[k - 1], p[k]) in EdgeSet(es);
        }
      }
      var q := seq(|p|, k requires 0 <= k < |p| => ns[p[k]].inner);
      assert PathFrom(DepRel(store, root), q, ns[i].inner, ns[j].inner);
    }
  }

  lemma AddChildKeeps(store: EvalStore, root: Unit, ns: seq<Weight>, es: seq<(nat, nat)>, i: nat, d: MiqResult)
    requires WalkInv(store, root, ns, es) && i < |ns|
    requires d in ns[i].inner.Deps() && d in store
    requires forall j :: 0 <= j < |ns| ==> ns[j].inner != store[d]
    ensures WalkInv(store, root, ns + [Weight(store[d], false)], es + [(i, |ns|)])
  {
    var c: nat := |ns|;
    var ns', es' := ns + [Weight(store[d], false)], es + [(i, c)];
    EdgeSetSnoc(es, (i, c));
    if Star(EdgeSet(es), c, i) {
      ClosedKeepsStar(EdgeSet(es), {c}, c, i);
    }
    AddEdgeAcyclic(EdgeSet(es), i, c);
    forall k: nat | k < |ns'| ensures Star(EdgeSet(es'), 0, k) {
      if k == c {
        StarMonotone(EdgeSet(es), EdgeSet(es'), 0, i);
        StarThenEdge(EdgeSet(es'), 0, i, c);
      } else {
        StarMonotone(EdgeSet(es), EdgeSet(es'), 0, k);
      }
    }
    KeepsFollowed(store, ns, es, ns', es');
    if WellFormedStore(store) {
      NoDuplicatesSnoc(es, (i, c));
    }
    assert (ns[i].inner, store[d]) in DepRel(store, root);
  }

  /** Growing the graph without clearing flags keeps visited nodes closed. */
  lemma KeepsFollowed(store: EvalStore, ns: seq<Weight>, es: seq<(nat, nat)>, ns': seq<Weight>, es': seq<(nat, nat)>)
    requires VisitedClosed(store, ns, es)
    requires |ns| <= |ns'| && es <= es'
    requires forall i :: 0 <= i < |ns| ==> ns'[i] == ns[i]
    requires forall i :: |ns| <= i < |ns'| ==> !ns'[i].visited
    ensures VisitedClosed(store, ns', es')
  {
    forall i: nat, d | i < |ns'| && ns'[i].visited && d in ns'[i].inner.Deps()
      ensures Followed(store, ns', es', i, d)
    {
      assert Followed(store, ns, es, i, d);
    }
  }

  lemma AddEdgeKeeps(store: EvalStore, root: Unit, ns: seq<Weight>, es: seq<(nat, nat)>, i: nat, j: nat)
    requires WalkInv(store, root, ns, es) && i < |ns| && j < |ns|
    requires (ns[i].inner, ns[j].inner) in DepRel(store, root)
    requires !Star(EdgeSet(es), j, i)
    requires WellFormedStore(store) ==> (i, j) !in es
    ensures WalkInv(store, root, ns, es + [(i, j)])
  {
    var es' := es + [(i, j)];
    EdgeSetSnoc(es, (i, j));
    AddEdgeAcyclic(EdgeSet(es), i, j);
    forall k: nat | k < |ns| ensures Star(EdgeSet(es'), 0, k) {
      StarMonotone(EdgeSet(es), EdgeSet(es'), 0, k);
    }
    KeepsFollowed(store, ns, es, ns, es');
    if WellFormedStore(store) {
      NoDuplicatesSnoc(es, (i, j));
    }
  }

  lemma MarkKeeps(store: EvalStore, root: Unit, ns: seq<Weight>, es: seq<(nat, nat)>, i: nat)
    requires WalkInv(store, root, ns, es) && i < |ns|
    requires forall d :: d in ns[i].inner.Deps() ==> Followed(store, ns, es, i, d)
    ensures WalkInv(store, root, ns[i := ns[i].(visited := true)], es)
  {
    var ns' := ns[i := ns[i].(visited := true)];
    forall k: nat, d | k < |ns'| && ns'[k].visited && d in ns'[k].inner.Deps()
      ensures Followed(store, ns', es, k, d)
    {
      assert Followed(store, ns, es, k, d);
    }
  }

  /** The evidence behind each error of the walk. */
  ghost predicate Explains(store: EvalStore, root: Unit, e: ResolveError) {
    match e
    case MissingUnit(d) => d !in store && exists u :: Reachable(store, root, u) && d in u.Deps()
    case WouldCycle => exists u :: Reachable(store, root, u) && Plus(DepRel(store, root), u, u)
    case MaxCyclesReached => false
  }

  lemma CycleFound(store: EvalStore, root: Unit, ns: seq<Weight>, es: seq<(nat, nat)>, i: nat, j: nat)
    requires WalkInv(store, root, ns, es) && i < |ns| && j < |ns|
    requires (ns[i].inner, ns[j].inner) in DepRel(store, root)
    requires Star(EdgeSet(es), j, i)
    ensures Explains(store, root, WouldCycle)
  {
    ToUnits(store, root, ns, es, 0, i);
    ToUnits(store, root, ns, es, j, i);
    EdgeThenStar(DepRel(store, root), ns[i].inner, ns[j].inner, ns[i].inner);
  }

  /** An unvisited node that is found again lies on the call stack, above `index`. */
  lemma UnvisitedReaches(ns: seq<Weight>, es: seq<(nat, nat)>, stack: set<Unit>, index: nat, c: nat)
    requires forall i, j :: 0 <= i < j < |ns| ==> ns[i].inner != ns[j].inner
    requires index < |ns| && c < |ns| && !ns[c].visited
    requires StackReaches(ns, es, stack, index) && OnStack(ns, stack, index)
    ensures Star(EdgeSet(es), c, index)
  {
    if c == index {
      StarRefl(EdgeSet(es), c);
    } else {
      var i: nat :| i < |ns| && ns[i].inner == ns[c].inner && Plus(EdgeSet(es), i, index);
      PlusIsStar(EdgeSet(es), i, index);
    }
  }

  lemma StackStays(store: EvalStore, root: Unit, ns: seq<Weight>, es: seq<(nat, nat)>,
                   ns': seq<Weight>, es': seq<(nat, nat)>, stack: set<Unit>, index: nat)
    requires StackReaches(ns, es, stack, index) && index < |ns| && OnStack(ns, stack, index)
    requires Sound(store, root, ns', es')
    requires Grown(ns, es, ns', es', index) && ns'[index] == ns[index]
    ensures StackReaches(ns', es', stack, index) && OnStack(ns', stack, index)
  {
    forall u | u in stack
      ensures exists i: nat :: i < |ns| && ns'[i].inner == u && Plus(EdgeSet(es'), i, index)
    {
      var i: nat :| i < |ns| && ns[i].inner == u && Plus(EdgeSet(es), i, index);
      StarMonotone(EdgeSet(es), EdgeSet(es'), i, index);
      assert ns'[i].inner == u;
    }
  }

  /** Descending along an edge keeps the stack description. */
  lemma StackPush(ns: seq<Weight>, es: seq<(nat, nat)>, stack: set<Unit>, index: nat, c: nat)
    requires index < |ns| && (index, c) in es
    requires StackReaches(ns, es, stack, index)
    ensures StackReaches(ns, es, stack + {ns[index].inner}, c)
  {
    forall u | u in stack + {ns[index].inner}
      ensures exists i: nat :: i < |ns| && ns[i].inner == u && Plus(EdgeSet(es), i, c)
    {
      if u in stack {
        var i: nat :| i < |ns| && ns[i].inner == u && Plus(EdgeSet(es), i, index);
        PlusIsStar(EdgeSet(es), i, index);
        StarThenEdge(EdgeSet(es), i, index, c);
      } else {
        EdgePlus(EdgeSet(es), index, c);
      }
    }
  }

  lemma NotOnOwnStack(ns: seq<Weight>, es: seq<(nat, nat)>, stack: set<Unit>, index: nat)
    requires forall i, j :: 0 <= i < j < |ns| ==> ns[i].inner != ns[j].inner
    requires index < |ns| && StackReaches(ns, es, stack, index) && Acyclic(EdgeSet(es))
    ensures ns[index].inner !in stack
  {
  }

  /** The state of the loop over the dependencies of node `index`; `done` have been followed. */
  ghost predicate Progress(store: EvalStore, root: Unit, ns0: seq<Weight>, es0: seq<(nat, nat)>,
                           ns: seq<Weight>, es: seq<(nat, nat)>, index: nat, done: set<MiqResult>)
    requires index < |ns0|
  {
    && WalkInv(store, root, ns, es)
    && Grown(ns0, es0, ns, es, index)
    && ns[index] == ns0[index]
    && (ns0[index].visited ==> ns == ns0 && es == es0)
    && (forall d :: d in done ==> Followed(store, ns, es, index, d))
    && (!ns0[index].visited ==> EdgesFrom(store, ns, es, index, done))
  }

  /** The effect of finding or creating the child node for `dep` and linking it. */
  ghost predicate Linked(store: EvalStore, ns: seq<Weight>, es: seq<(nat, nat)>,
                         ns': seq<Weight>, es': seq<(nat, nat)>, index: nat, child: nat, dep: MiqResult)
    requires index < |ns| && dep in store
  {
    && child < |ns'| && ns'[child].inner == store[dep] && (index, child) in es'
    && (ns[index].visited ==> ns' == ns && es' == es)
    && if child < |ns|
       then ns' == ns && ns[child].visited && (ns[index].visited || es' == es + [(index, child)])
       else child == |ns| && ns' == ns + [Weight(store[dep], false)] && es' == es + [(index, child)]
  }

  lemma DescendKeepsStack(store: EvalStore, root: Unit, ns: seq<Weight>, es: seq<(nat, nat)>,
                      ns': seq<Weight>, es': seq<(nat, nat)>, stack: set<Unit>, index: nat, child: nat, dep: MiqResult)
    requires index < |ns| && dep in store && Linked(store, ns, es, ns', es', index, child, dep)
    requires Sound(store, root, ns', es')
    requires StackReaches(ns, es, stack, index) && OnStack(ns, stack, index)
    ensures StackReaches(ns', es', stack + {ns[index].inner}, child)
    ensures OnStack(ns', stack + {ns[index].inner}, child)
  {
    forall u | u in stack
      ensures exists i: nat :: i < |ns'| && ns'[i].inner == u && Plus(EdgeSet(es'), i, index)
    {
      var i: nat :| i < |ns| && ns[i].inner == u && Plus(EdgeSet(es), i, index);
      StarMonotone(EdgeSet(es), EdgeSet(es'), i, index);
      assert ns'[i].inner == u;
    }
    StackPush(ns', es', stack, index, child);
  }

  /** A fresh child has no outgoing edges yet. */
  lemma FreshHasNoEdges(store: EvalStore, root: Unit, ns: seq<Weight>, es: seq<(nat, nat)>,
                        ns': seq<Weight>, es': seq<(nat, nat)>, index: nat, child: nat, dep: MiqResult)
    requires index < |ns| && dep in store && Linked(store, ns, es, ns', es', index, child, dep)
    requires Sound(store, root, ns, es) && !ns'[child].visited
    ensures EdgesFrom(store, ns', es', child, {})
  {
    assert forall e :: e in es' ==> e in es || e == (index, child);
  }

  /** Linking a child and walking it advances the loop by one dependency. */
  lemma AdvanceGrown(store: EvalStore, ns0: seq<Weight>, es0: seq<(nat, nat)>,
                     ns: seq<Weight>, es: seq<(nat, nat)>, ns1: seq<Weight>, es1: seq<(nat, nat)>,
                     ns2: seq<Weight>, es2: seq<(nat, nat)>, index: nat, child: nat, dep: MiqResult)
    requires index < |ns0| && Grown(ns0, es0, ns, es, index) && ns[index] == ns0[index]
    requires dep in store && Linked(store, ns, es, ns1, es1, index, child, dep)
    requires Grown(ns1, es1, ns2, es2, child) && ns2[child].visited
    requires if child < |ns| then ns2 == ns1 && es2 == es1 else child != index
    ensures Grown(ns0, es0, ns2, es2, index) && ns2[index] == ns0[index]
  {
    forall i | 0 <= i < |ns0| && i != index ensures ns2[i].visited == ns0[i].visited {
      assert ns[i].visited == ns0[i].visited;
    }
    forall i | |ns0| <= i < |ns2| ensures ns2[i].visited {
      if i < |ns| {
        assert ns1[i] == ns[i];
      }
    }
    forall k | |es0| <= k < |es2| ensures es2[k].0 == index || es2[k].0 >= |ns0| {
      if k < |es| {
        assert es2[k] == es1[k] == es[k];
      } else if k < |es1| {
        assert es2[k] == es1[k];
      }
    }
  }

  lemma AdvanceEdges(store: EvalStore, root: Unit,
                     ns: seq<Weight>, es: seq<(nat, nat)>, ns1: seq<Weight>, es1: seq<(nat, nat)>,
                     ns2: seq<Weight>, es2: seq<(nat, nat)>, index: nat, child: nat, dep: MiqResult,
                     done: set<MiqResult>)
    requires index < |ns| && dep in store && Linked(store, ns, es, ns1, es1, index, child, dep)
    requires Grown(ns1, es1, ns2, es2, child) && ns2[child].visited
    requires if child < |ns| then ns2 == ns1 && es2 == es1 else child != index
    requires forall d :: d in done ==> Followed(store, ns, es, index, d)
    requires !ns[index].visited ==> EdgesFrom(store, ns, es, index, done)
    ensures forall d :: d in done + {dep} ==> Followed(store, ns2, es2, index, d)
    ensures !ns[index].visited ==> EdgesFrom(store, ns2, es2, index, done + {dep})
  {
    forall d | d in done + {dep} ensures Followed(store, ns2, es2, index, d) {
      if d in done {
        var j: nat :| j < |ns| && ns[j].inner == store[d] && ns[j].visited && (index, j) in es;
        assert ns1[j] == ns[j] && (index, j) in es1 && (index, j) in es2;
        assert ns2[j].inner == store[d] && ns2[j].visited;
      } else {
        assert ns2[child].inner == store[dep] && (index, child) in es2;
      }
    }
    if !ns[index].visited && WellFormedStore(store) {
      forall e | e in es2 && e.0 == index
        ensures e.1 < |ns2| && ns2[e.1].inner.Result() in done + {dep}
      {
        var k :| 0 <= k < |es2| && es2[k] == e;
        assert k < |es1| && es1[k] == e;
        assert e in es || e == (index, child);
      }
    }
  }

  lemma FinishNode(store: EvalStore, root: Unit, ns0: seq<Weight>, es0: seq<(nat, nat)>,
                   ns: seq<Weight>, es: seq<(nat, nat)>, index: nat)
    requires index < |ns0| && Progress(store, root, ns0, es0, ns, es, index, ns0[index].inner.Deps())
    ensures WalkInv(store, root, ns[index := ns[index].(visited := true)], es)
    ensures Grown(ns0, es0, ns[index := ns[index].(visited := true)], es, index)
    ensures ns0[index].visited ==> ns[index := ns[index].(visited := true)] == ns0
  {
    MarkKeeps(store, root, ns, es, index);
  }

  // -------------------------------------------------------------- the walk

  /**
    `add_children_recursive`. The recursion ends because the call stack is a
    simple path of an acyclic graph; re-entering a visited node changes nothing.
   */
  method AddChildrenRecursive(store: EvalStore, ghost root: Unit, dag: UnitNodeDag, index: nat, ghost stack: set<Unit>)
    returns (r: Outcome<ResolveError>)
    requires WalkInv(store, root, dag.nodes, dag.edges) && index < |dag.nodes|
    requires StackReaches(dag.nodes, dag.edges, stack, index) && OnStack(dag.nodes, stack, index)
    requires !dag.nodes[index].visited ==> EdgesFrom(store, dag.nodes, dag.edges, index, {})
    modifies dag
    ensures r.Pass? ==> WalkInv(store, root, dag.nodes, dag.edges)
    ensures r.Pass? ==> Grown(old(dag.nodes), old(dag.edges), dag.nodes, dag.edges, index)
    ensures r.Pass? ==> dag.nodes[index].visited
    ensures old(dag.nodes[index].visited) ==>
      r.Pass? && dag.nodes == old(dag.nodes) && dag.edges == old(dag.edges)
    ensures r.Fail? ==> Explains(store, root, r.error)
    decreases Universe(store, root) - stack
  {
    var Weight(unit, visited) := dag.nodes[index];
    ghost var ns0, es0 := dag.nodes, dag.edges;
    match unit {
      case FetchUnit(_) =>
      case PackageUnit(package) =>
        NotOnOwnStack(ns0, es0, stack, index);
        var rest := package.deps;
        while rest != {}
          invariant rest <= package.deps
          invariant Progress(store, root, ns0, es0, dag.nodes, dag.edges, index, package.deps - rest)
        {
          var dep :| dep in rest;
          ghost var done := package.deps - rest;
          rest := rest - {dep};
          assert package.deps - rest == done + {dep};
          r := FollowDependency(store, root, dag, index, visited, stack, ns0, es0, dep, done);
          if r.Fail? {
            return;
          }
        }
    }
    FinishNode(store, root, ns0, es0, dag.nodes, dag.edges, index);
    dag.nodes := dag.nodes[index := dag.nodes[index].(visited := true)];
    r := Pass;
  }

  /** The loop body of `add_children_recursive`: one dependency of node `index`. */
  method FollowDependency(store: EvalStore, ghost root: Unit, dag: UnitNodeDag, index: nat, visited: bool,
                          ghost stack: set<Unit>, ghost ns0: seq<Weight>, ghost es0: seq<(nat, nat)>,
                          dep: MiqResult, ghost done: set<MiqResult>)
    returns (r: Outcome<ResolveError>)
    requires index < |ns0| && Progress(store, root, ns0, es0, dag.nodes, dag.edges, index, done)
    requires visited == ns0[index].visited
    requires StackReaches(ns0, es0, stack, index) && OnStack(ns0, stack, index)
    requires ns0[index].inner !in stack && ns0[index].inner in Universe(store, root)
    requires dep in ns0[index].inner.Deps() && dep !in done
    modifies dag
    ensures r.Pass? ==> Progress(store, root, ns0, es0, dag.nodes, dag.edges, index, done + {dep})
    ensures visited ==> r.Pass?
    ensures r.Fail? ==> Explains(store, root, r.error)
    decreases Universe(store, root) - stack, 0
  {
    ghost var ns, es := dag.nodes, dag.edges;
    StackStays(store, root, ns0, es0, ns, es, stack, index);
    var child;
    r, child := LinkChild(store, root, dag, index, visited, stack, dep, done);
    if r.Fail? {
      return;
    }
    ghost var ns1, es1 := dag.nodes, dag.edges;
    DescendKeepsStack(store, root, ns, es, ns1, es1, stack, index, child, dep);
    if !ns1[child].visited {
      FreshHasNoEdges(store, root, ns, es, ns1, es1, index, child, dep);
    }
    r := AddChildrenRecursive(store, root, dag, child, stack + {ns1[index].inner});
    if r.Pass? {
      EdgePlus(EdgeSet(es1), index, child);
      AdvanceGrown(store, ns0, es0, ns, es, ns1, es1, dag.nodes, dag.edges, index, child, dep);
      AdvanceEdges(store, root, ns, es, ns1, es1, dag.nodes, dag.edges, index, child, dep, done);
    }
  }

  /** Finds the child by full unit equality, or adds it; a cycle shows when the edge is refused. */
  method LinkChild(store: EvalStore, ghost root: Unit, dag: UnitNodeDag, index: nat, visited: bool,
                   ghost stack: set<Unit>, dep: MiqResult, ghost done: set<MiqResult>)
    returns (r: Outcome<ResolveError>, child: nat)
    requires WalkInv(store, root, dag.nodes, dag.edges) && index < |dag.nodes|
    requires visited == dag.nodes[index].visited
    requires StackReaches(dag.nodes, dag.edges, stack, index) && OnStack(dag.nodes, stack, index)
    requires dep in dag.nodes[index].inner.Deps() && dep !in done
    requires !visited ==> EdgesFrom(store, dag.nodes, dag.edges, index, done)
    modifies dag
    ensures r.Pass? ==> WalkInv(store, root, dag.nodes, dag.edges)
    ensures r.Pass? ==>
      dep in store && Linked(store, old(dag.nodes), old(dag.edges), dag.nodes, dag.edges, index, child, dep)
    ensures visited ==> r.Pass?
    ensures r.Fail? ==> Explains(store, root, r.error)
  {
    ghost var ns, es := dag.nodes, dag.edges;
    child := index;
    if dep !in store {
      ToUnits(store, root, ns, es, 0, index);
      assert !Followed(store, ns, es, index, dep);
      return Fail(MissingUnit(dep)), child;
    }
    var depUnit := store[dep];
    assert (ns[index].inner, depUnit) in DepRel(store, root);
    assert visited ==> Followed(store, ns, es, index, dep);
    var maybeChild := dag.Find(depUnit);
    match maybeChild {
      case None =>
        AddChildKeeps(store, root, ns, es, index, dep);
        child := dag.AddChild(index, Weight(depUnit, false));
      case Some(found) =>
        child := found;
        if !visited {
          if !ns[child].visited {
            UnvisitedReaches(ns, es, stack, index, child);
          }
          var added := dag.AddEdge(index, child);
          if !added {
            CycleFound(store, root, ns, es, index, child);
            return Fail(WouldCycle), child;
          }
          assert WellFormedStore(store) ==> (index, child) !in es;
          AddEdgeKeeps(store, root, ns, es, index, child);
        }
    }
    r := Pass;
  }

  // ----------------------------------------------------------- the result

  /** `dag.map`: the visited flags are dropped. */
  function Strip(ns: seq<Weight>, es: seq<(nat, nat)>): UnitDag {
    UnitDag(seq(|ns|, i requires 0 <= i < |ns| => ns[i].inner), es)
  }

  lemma StripNodes(store: EvalStore, root: Unit, ns: seq<Weight>, es: seq<(nat, nat)>)
    requires WalkInv(store, root, ns, es)
    ensures InRange(Strip(ns, es)) && DistinctNodes(Strip(ns, es)) && Acyclic(Rel(Strip(ns, es)))
  {
    AcyclicRel(Strip(ns, es));
  }

  /** Once every node is visited, the nodes are closed and their dependencies are edges. */
  lemma VisitedIsClosed(store: EvalStore, root: Unit, ns: seq<Weight>, es: seq<(nat, nat)>)
    requires WalkInv(store, root, ns, es)
    requires forall i :: 0 <= i < |ns| ==> ns[i].visited
    ensures InRange(Strip(ns, es)) && Closed(DepRel(store, root), All(Strip(ns, es)))
    ensures Rel(Strip(ns, es)) == Within(DepRel(store, root), All(Strip(ns, es)))
    ensures forall u :: u in Strip(ns, es).nodes ==> u.Deps() <= store.Keys
  {
    var g := Strip(ns, es);
    StripNodes(store, root, ns, es);
    forall u, d | u in g.nodes && d in u.Deps()
      ensures d in store && store[d] in g.nodes && (u, store[d]) in Rel(g)
    {
      var i := IndexOf(g, u);
      assert Followed(store, ns, es, i, d);
      var j: nat :| j < |ns| && ns[j].inner == store[d] && ns[j].visited && (i, j) in es;
      assert g.nodes[j] == store[d];
    }
    forall e | e in Rel(g) ensures e in DepRel(store, root) && e.0 in g.nodes {
      var k :| k in g.edges && e == (g.nodes[k.0], g.nodes[k.1]);
    }
  }

  lemma WalkComplete(store: EvalStore, root: Unit, ns: seq<Weight>, es: seq<(nat, nat)>)
    requires WalkInv(store, root, ns, es)
    requires forall i :: 0 <= i < |ns| ==> ns[i].visited
    ensures Exact(store, root, Strip(ns, es)) && Resolvable(store, root)
  {
    var g, rel := Strip(ns, es), DepRel(store, root);
    StripNodes(store, root, ns, es);
    VisitedIsClosed(store, root, ns, es);
    forall u ensures u in g.nodes <==> Reachable(store, root, u) {
      if u in g.nodes {
        ToUnits(store, root, ns, es, 0, IndexOf(g, u));
      }
      if Reachable(store, root, u) {
        assert g.nodes[0] == root;
        ClosedKeepsStar(rel, All(g), root, u);
      }
    }
    forall u | Reachable(store, root, u) ensures !Plus(rel, u, u) {
      assert u in All(g);
      PathWithin(rel, All(g), u, u);
      NoCycleAt(Rel(g), u);
    }
  }

  lemma ExplainedIsUnresolvable(store: EvalStore, root: Unit, e: ResolveError)
    requires Explains(store, root, e)
    ensures !Resolvable(store, root)
  {
  }

  /**
    `dag`: succeeds exactly when everything below the root is present and acyclic,
    and then returns exactly that graph. One pass visits every node, so the
    cycle guard never fires.
   */
  method Dag(store: EvalStore, input: Unit) returns (r: Result<UnitDag, ResolveError>)
    ensures r.Ok? <==> Resolvable(store, input)
    ensures r.Ok? ==> Exact(store, input, r.value)
    ensures r.Err? ==> Explains(store, input, r.error)
  {
    var dag := new UnitNodeDag();
    var rootIndex := dag.AddNode(Weight(input, false));
    StarRefl(EdgeSet(dag.edges), 0);
    EmptyAcyclic();
    var cycle := 0;
    var all := false;
    while !all
      invariant rootIndex == 0 && WalkInv(store, input, dag.nodes, dag.edges)
      invariant cycle <= 1 && (cycle == 0 ==> !all && dag.nodes == [Weight(input, false)] && dag.edges == [])
      invariant cycle == 1 ==> all
      invariant all ==> forall i :: 0 <= i < |dag.nodes| ==> dag.nodes[i].visited
      decreases 1 - cycle
    {
      if cycle > MAX_DAG_CYCLES {
        return Err(MaxCyclesReached);
      }
      cycle := cycle + 1;
      var pass := AddChildrenRecursive(store, input, dag, rootIndex, {});
      if pass.Fail? {
        ExplainedIsUnresolvable(store, input, pass.error);
        return Err(pass.error);
      }
      all := dag.AllVisited();
    }
    WalkComplete(store, input, dag.nodes, dag.edges);
    r := Ok(Strip(dag.nodes, dag.edges));
  }

  lemma EmptyAcyclic()
    ensures Acyclic(EdgeSet([]))
  {
    forall a: nat ensures !Plus(EdgeSet([]), a, a) {
      if Plus(EdgeSet([]), a, a) {
        var _, _ := PlusEnds(EdgeSet([]), a, a);
      }
    }
  }

  /** The root is the only unit nothing depends on, and it leads to every node. */
  lemma RootIsOnlySource(store: EvalStore, root: Unit, g: UnitDag, u: Unit)
    requires Exact(store, root, g) && u in g.nodes
    ensures Star(Rel(g), root, u)
    ensures (exists v :: (v, u) in Rel(g)) <==> u != root
  {
    var rel := DepRel(store, root);
    assert Closed(rel, All(g)) by {
      forall a, b | (a, b) in rel && a in All(g) ensures b in All(g) {
        StarThenEdge(rel, root, a, b);
        PlusIsStar(rel, root, b);
      }
    }
    PathWithin(rel, All(g), root, u);
    if v :| (v, u) in Rel(g) {
      if u == root {
        PathWithin(rel, All(g), root, v);
        StarThenEdge(Rel(g), root, v, root);
      }
    }
    if u != root {
      var p :| PathFrom(Rel(g), p, root, u);
      assert |p| >= 2 && Plus(Rel(g), root, u);
      var _, last := PlusEnds(Rel(g), root, u);
    }
  }

  /**
    On a well-formed store that agrees with the root, the graph is what the
    scheduler needs: one output path per node and the recorded dependencies as edges.
   */
  lemma ExactIsGood(store: EvalStore, root: Unit, g: UnitDag)
    requires Exact(store, root, g) && Resolvable(store, root) && WellFormedStore(store)
    requires root.Result() in store ==> store[root.Result()] == root
    ensures GoodGraph(g)
  {
    var rel := DepRel(store, root);
    forall u | u in g.nodes ensures u == root || (u.Result() in store && store[u.Result()] == u) {
      RootIsOnlySource(store, root, g, u);
      if u != root {
        var v :| (v, u) in Rel(g);
        assert (v, u) in rel;
      }
    }
    forall u | u in g.nodes ensures u.Deps() == DepResults(g, u) {
      assert Reachable(store, root, u);
      assert u in Universe(store, root) by {
        if u != root {
          assert u in store.Values;
        }
      }
      forall d | d in u.Deps() ensures d in DepResults(g, u) {
        assert (u, store[d]) in rel && (u, store[d]) in Rel(g);
      }
      forall d | d in DepResults(g, u) ensures d in u.Deps() {
        var e :| e in Rel(g) && e.0 == u && e.1.Result() == d;
        assert e in rel;
      }
    }
  }
}
