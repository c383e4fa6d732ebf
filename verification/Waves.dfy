/**
  What one scan of `_main` starts (src/build.rs:82-155) and how many scans a
  run takes when every task succeeds. A scan is followed by a full drain, so
  the set of finished units after `k` rounds is a function of the graph and
  the job limit alone.
 */
module Waves {
  import opened Units
  import opened Paths
  import opened Graphs

  ghost predicate Ready(g: UnitDag, finished: set<Unit>, u: Unit)
    requires InRange(g)
  {
    u !in finished && forall v :: (u, v) in Rel(g) ==> v in finished
  }

  ghost function Packages(s: set<Unit>): set<Unit> {
    set u | u in s && u.PackageUnit?
  }

  /** The units started by the first `i` visits of a scan. */
  ghost function Picked(g: UnitDag, maxJobs: nat, finished: set<Unit>, i: nat): set<Unit>
    requires InRange(g) && i <= |g.nodes|
  {
    if i == 0 then {} else
      var before := Picked(g, maxJobs, finished, i - 1);
      var u := g.nodes[i - 1];
      if Ready(g, finished, u) && (u.PackageUnit? ==> |Packages(before)| < maxJobs)
      then before + {u} else before
  }

  ghost function Wave(g: UnitDag, maxJobs: nat, finished: set<Unit>): set<Unit>
    requires InRange(g)
  {
    Picked(g, maxJobs, finished, |g.nodes|)
  }

  /** The units finished after `k` rounds of scan and drain. */
  ghost function After(g: UnitDag, maxJobs: nat, k: nat): set<Unit>
    requires InRange(g)
  {
    if k == 0 then {} else
      After(g, maxJobs, k - 1) + Wave(g, maxJobs, After(g, maxJobs, k - 1))
  }

  /** The number of rounds until everything is finished. */
  ghost predicate IsScanCount(g: UnitDag, maxJobs: nat, w: nat)
    requires InRange(g)
  {
    After(g, maxJobs, w) == All(g) && forall k: nat :: k < w ==> After(g, maxJobs, k) != All(g)
  }

  // ---------------------------------------------------- what a scan starts

  /** How many of the first `i` nodes are ready packages. */
  ghost function ReadyPackages(g: UnitDag, finished: set<Unit>, i: nat): nat
    requires InRange(g) && i <= |g.nodes|
  {
    if i == 0 then 0 else
      ReadyPackages(g, finished, i - 1)
      + if Ready(g, finished, g.nodes[i - 1]) && g.nodes[i - 1].PackageUnit? then 1 else 0
  }

  function Min(a: nat, b: nat): nat {
    if a < b then a else b
  }

  lemma {:induction false} PickedSound(g: UnitDag, maxJobs: nat, finished: set<Unit>, i: nat)
    requires InRange(g) && i <= |g.nodes|
    ensures forall u :: u in Picked(g, maxJobs, finished, i) ==> u in g.nodes[..i] && Ready(g, finished, u)
  {
    if i > 0 {
      PickedSound(g, maxJobs, finished, i - 1);
      assert g.nodes[..i] == g.nodes[..i - 1] + [g.nodes[i - 1]];
    }
  }

  lemma PackagesAdd(s: set<Unit>, u: Unit)
    requires u !in s
    ensures |Packages(s + {u})| == |Packages(s)| + if u.PackageUnit? then 1 else 0
  {
    if u.PackageUnit? {
      assert Packages(s + {u}) == Packages(s) + {u};
    } else {
      assert Packages(s + {u}) == Packages(s);
    }
  }

  lemma {:induction false} PickedCount(g: UnitDag, maxJobs: nat, finished: set<Unit>, i: nat)
    requires InRange(g) && DistinctNodes(g) && i <= |g.nodes|
    ensures |Packages(Picked(g, maxJobs, finished, i))| == Min(maxJobs, ReadyPackages(g, finished, i))
  {
    if i > 0 {
      PickedCount(g, maxJobs, finished, i - 1);
      PickedSound(g, maxJobs, finished, i - 1);
      PackagesAdd(Picked(g, maxJobs, finished, i - 1), g.nodes[i - 1]);
    }
  }

  lemma {:induction false} ReadyPackagesMonotone(g: UnitDag, finished: set<Unit>, i: nat, j: nat)
    requires InRange(g) && i <= j <= |g.nodes|
    ensures ReadyPackages(g, finished, i) <= ReadyPackages(g, finished, j)
    decreases j
  {
    if i < j {
      ReadyPackagesMonotone(g, finished, i, j - 1);
    }
  }

  lemma {:induction false} SubsetSize<T>(a: set<T>, b: set<T>)
    requires a <= b
    ensures |a| <= |b|
    ensures |a| == |b| ==> a == b
  {
    assert b == a + (b - a);
  }

  /**
    A scan starts every ready fetch and the first `maxJobs` ready packages in
    index order, nothing else.
   */
  lemma {:induction false} PickedExact(g: UnitDag, maxJobs: nat, finished: set<Unit>, i: nat, j: nat)
    requires InRange(g) && DistinctNodes(g) && j < i <= |g.nodes|
    ensures g.nodes[j] in Picked(g, maxJobs, finished, i) <==>
      Ready(g, finished, g.nodes[j])
      && (g.nodes[j].PackageUnit? ==> ReadyPackages(g, finished, j) < maxJobs)
    decreases i
  {
    hide Ready, Rel, ReadyPackages;
    PickedCount(g, maxJobs, finished, i - 1);
    PickedSound(g, maxJobs, finished, i - 1);
    if j < i - 1 {
      PickedExact(g, maxJobs, finished, i - 1, j);
    } else {
      assert g.nodes[j] !in g.nodes[..j];
    }
  }

  /** A scan that stays below the job limit has started everything that was ready. */
  lemma BelowLimitTakesAll(g: UnitDag, maxJobs: nat, finished: set<Unit>, u: Unit)
    requires InRange(g) && DistinctNodes(g) && u in g.nodes && Ready(g, finished, u)
    requires |Packages(Wave(g, maxJobs, finished))| < maxJobs || u.FetchUnit?
    ensures u in Wave(g, maxJobs, finished)
  {
    var n, j := |g.nodes|, IndexOf(g, u);
    PickedExact(g, maxJobs, finished, n, j);
    PickedCount(g, maxJobs, finished, n);
    ReadyPackagesMonotone(g, finished, j, n);
  }

  lemma WaveSound(g: UnitDag, maxJobs: nat, finished: set<Unit>)
    requires InRange(g) && DistinctNodes(g)
    ensures Wave(g, maxJobs, finished) <= All(g) && Wave(g, maxJobs, finished) !! finished
    ensures forall u, v :: u in Wave(g, maxJobs, finished) && (u, v) in Rel(g) ==> v in finished
    ensures |Packages(Wave(g, maxJobs, finished))| <= maxJobs
  {
    PickedCount(g, maxJobs, finished, |g.nodes|);
    PickedSound(g, maxJobs, finished, |g.nodes|);
  }

  /** The finished units always contain all their dependencies. */
  lemma {:induction false} AfterClosed(g: UnitDag, maxJobs: nat, k: nat)
    requires InRange(g) && DistinctNodes(g)
    ensures After(g, maxJobs, k) <= All(g) && Closed(Rel(g), After(g, maxJobs, k))
  {
    if k > 0 {
      AfterClosed(g, maxJobs, k - 1);
      WaveSound(g, maxJobs, After(g, maxJobs, k - 1));
    }
  }

  lemma {:induction false} AfterMonotone(g: UnitDag, maxJobs: nat, j: nat, k: nat)
    requires InRange(g) && j <= k
    ensures After(g, maxJobs, j) <= After(g, maxJobs, k)
    decreases k
  {
    if j < k {
      AfterMonotone(g, maxJobs, j, k - 1);
    }
  }

  // ---------------------------------------------------------------- chains

  /** A dependency chain among the unfinished units, dependents first. */
  ghost predicate Chain(g: UnitDag, finished: set<Unit>, p: seq<Unit>)
    requires InRange(g)
  {
    IsPath(Rel(g), p) && forall x :: x in p ==> x in All(g) && x !in finished
  }

  ghost predicate ChainsWithin(g: UnitDag, finished: set<Unit>, h: nat)
    requires InRange(g)
  {
    forall p :: Chain(g, finished, p) ==> |p| <= h
  }

  ghost predicate LongestChain(g: UnitDag, h: nat)
    requires InRange(g)
  {
    ChainsWithin(g, {}, h) && exists p :: Chain(g, {}, p) && |p| == h
  }

  /** Finishing ready units shortens a chain by at most its last link. */
  lemma ChainShrinks(g: UnitDag, finished: set<Unit>, more: set<Unit>, p: seq<Unit>)
    requires InRange(g) && Chain(g, finished, p) && |p| >= 2
    requires forall u :: u in more ==> Ready(g, finished, u)
    ensures Chain(g, finished + more, p[..|p| - 1])
  {
    var q := p[..|p| - 1];
    forall x | x in q ensures x in All(g) && x !in finished + more {
      var i :| 0 <= i < |q| && q[i] == x;
      assert (p[i], p[i + 1]) in Rel(g) && p[i + 1] in p;
    }
  }

  /** If every ready unit was finished, a remaining chain can be prolonged in the past. */
  lemma ChainExtends(g: UnitDag, finished: set<Unit>, more: set<Unit>, p: seq<Unit>) returns (q: seq<Unit>)
    requires InRange(g) && Chain(g, finished + more, p)
    requires forall u :: u in All(g) && Ready(g, finished, u) ==> u in more
    ensures Chain(g, finished, q) && |q| == |p| + 1
  {
    var last := p[|p| - 1];
    assert last in p && !Ready(g, finished, last);
    var v :| (last, v) in Rel(g) && v !in finished;
    q := p + [v];
  }

  lemma ChainBound(g: UnitDag, finished: set<Unit>)
    requires InRange(g) && Acyclic(Rel(g))
    ensures ChainsWithin(g, finished, |All(g)|)
  {
    forall p | Chain(g, finished, p) ensures |p| <= |All(g)| {
      PathDistinct(Rel(g), p);
      DistinctBound(p, All(g));
    }
  }

  /** Without a ready unit, unfinished chains would grow for ever. */
  lemma {:induction false} StuckChain(g: UnitDag, finished: set<Unit>, u: Unit, n: nat) returns (p: seq<Unit>)
    requires InRange(g) && u in All(g) && u !in finished
    requires forall v :: v in All(g) ==> !Ready(g, finished, v)
    ensures Chain(g, finished, p) && |p| == n + 1
  {
    if n == 0 {
      p := [u];
    } else {
      p := StuckChain(g, finished, u, n - 1);
      assert finished + {} == finished;
      p := ChainExtends(g, finished, {}, p);
    }
  }

  lemma SomethingReady(g: UnitDag, finished: set<Unit>, u: Unit) returns (v: Unit)
    requires InRange(g) && Acyclic(Rel(g)) && u in All(g) && u !in finished
    ensures v in All(g) && Ready(g, finished, v)
  {
    if forall w :: w in All(g) ==> !Ready(g, finished, w) {
      var p := StuckChain(g, finished, u, |All(g)|);
      ChainBound(g, finished);
      assert false;
    }
    v :| v in All(g) && Ready(g, finished, v);
  }

  /** With at least one job every round finishes something new. */
  lemma WaveProgress(g: UnitDag, maxJobs: nat, finished: set<Unit>)
    requires InRange(g) && DistinctNodes(g) && Acyclic(Rel(g)) && maxJobs >= 1
    requires finished <= All(g) && finished != All(g)
    ensures Wave(g, maxJobs, finished) != {}
  {
    var u :| u in All(g) && u !in finished;
    var v := SomethingReady(g, finished, u);
    if |Packages(Wave(g, maxJobs, finished))| < maxJobs {
      BelowLimitTakesAll(g, maxJobs, finished, v);
    }
  }

  // ------------------------------------------------------ number of rounds

  lemma RoundGrows(g: UnitDag, maxJobs: nat, f: set<Unit>, next: set<Unit>)
    requires InRange(g) && DistinctNodes(g) && Acyclic(Rel(g)) && maxJobs >= 1 && f <= All(g)
    requires next == f + Wave(g, maxJobs, f)
    ensures |next| >= Min(|f| + 1, |All(g)|)
  {
    WaveSound(g, maxJobs, f);
    if f == All(g) {
      SubsetSize(f, next);
    } else {
      WaveProgress(g, maxJobs, f);
      var u :| u in Wave(g, maxJobs, f);
      SubsetSize(f + {u}, next);
    }
  }

  lemma AfterStep(g: UnitDag, maxJobs: nat, k: nat)
    requires InRange(g)
    ensures After(g, maxJobs, k + 1) == After(g, maxJobs, k) + Wave(g, maxJobs, After(g, maxJobs, k))
  {
  }

  lemma {:induction false} AfterGrows(g: UnitDag, maxJobs: nat, k: nat)
    requires InRange(g) && DistinctNodes(g) && Acyclic(Rel(g)) && maxJobs >= 1
    ensures |After(g, maxJobs, k)| >= Min(k, |All(g)|)
  {
    hide After, Wave, All, Rel, DistinctNodes, InRange, Acyclic;
    if k > 0 {
      AfterGrows(g, maxJobs, k - 1);
      AfterClosed(g, maxJobs, k - 1);
      AfterStep(g, maxJobs, k - 1);
      RoundGrows(g, maxJobs, After(g, maxJobs, k - 1), After(g, maxJobs, k));
    }
  }

  /** The least round at which everything is finished, when there is one by round `k`. */
  lemma {:induction false} LeastRound(g: UnitDag, maxJobs: nat, k: nat) returns (w: nat)
    requires InRange(g) && After(g, maxJobs, k) == All(g)
    ensures w <= k && IsScanCount(g, maxJobs, w)
  {
    if j: nat :| j < k && After(g, maxJobs, j) == All(g) {
      w := LeastRound(g, maxJobs, j);
    } else {
      w := k;
    }
  }

  /** With at least one job an acyclic graph of `n` units takes at most `n` rounds. */
  lemma ScanCountExists(g: UnitDag, maxJobs: nat) returns (w: nat)
    requires InRange(g) && DistinctNodes(g) && Acyclic(Rel(g)) && maxJobs >= 1
    ensures w <= |g.nodes| && IsScanCount(g, maxJobs, w)
  {
    var n := |All(g)|;
    AllSize(g);
    AfterGrows(g, maxJobs, n);
    AfterClosed(g, maxJobs, n);
    SubsetSize(After(g, maxJobs, n), All(g));
    w := LeastRound(g, maxJobs, n);
  }

  lemma AllSize(g: UnitDag)
    requires DistinctNodes(g)
    ensures |All(g)| == |g.nodes|
  {
    SeqSetSize(g.nodes);
    assert All(g) == set u | u in g.nodes;
  }

  lemma {:induction false} SeqSetSize<T>(s: seq<T>)
    requires forall i, j :: 0 <= i < j < |s| ==> s[i] != s[j]
    ensures |set x | x in s| == |s|
    decreases |s|
  {
    if s != [] {
      SeqSetSize(s[1..]);
      assert (set x | x in s) == {s[0]} + set x | x in s[1..];
    }
  }

  lemma ScanCountUnique(g: UnitDag, maxJobs: nat, v: nat, w: nat)
    requires InRange(g) && IsScanCount(g, maxJobs, v) && IsScanCount(g, maxJobs, w)
    ensures v == w
  {
  }

  /** With no jobs at all no package ever finishes. */
  lemma {:induction false} NoJobsNoPackages(g: UnitDag, k: nat)
    requires InRange(g) && DistinctNodes(g)
    ensures Packages(After(g, 0, k)) == {}
  {
    if k > 0 {
      NoJobsNoPackages(g, k - 1);
      WaveSound(g, 0, After(g, 0, k - 1));
      assert Packages(After(g, 0, k)) ==
        Packages(After(g, 0, k - 1)) + Packages(Wave(g, 0, After(g, 0, k - 1)));
    }
  }

  ghost function Left(g: UnitDag, maxJobs: nat, k: nat): nat
    requires InRange(g)
  {
    |Packages(All(g) - After(g, maxJobs, k))|
  }

  lemma LeftStep(g: UnitDag, maxJobs: nat, k: nat)
    requires InRange(g) && DistinctNodes(g)
    ensures Left(g, maxJobs, k) == Left(g, maxJobs, k + 1) + |Packages(Wave(g, maxJobs, After(g, maxJobs, k)))|
  {
    var f := After(g, maxJobs, k);
    var wave := Wave(g, maxJobs, f);
    WaveSound(g, maxJobs, f);
    assert Packages(All(g) - f) == Packages(All(g) - (f + wave)) + Packages(wave);
  }

  /** A round below the job limit shortens every chain. */
  lemma BelowLimitShortens(g: UnitDag, maxJobs: nat, f: set<Unit>, h: nat)
    requires InRange(g) && DistinctNodes(g) && f <= All(g) && f != All(g) && ChainsWithin(g, f, h)
    requires |Packages(Wave(g, maxJobs, f))| < maxJobs
    ensures h >= 1 && ChainsWithin(g, f + Wave(g, maxJobs, f), h - 1)
  {
    var u :| u in All(g) && u !in f;
    assert Chain(g, f, [u]);
    forall v | v in All(g) && Ready(g, f, v) ensures v in Wave(g, maxJobs, f) {
      BelowLimitTakesAll(g, maxJobs, f, v);
    }
    forall p | Chain(g, f + Wave(g, maxJobs, f), p) ensures |p| <= h - 1 {
      var q := ChainExtends(g, f, Wave(g, maxJobs, f), p);
    }
  }

  lemma ChainsMonotone(g: UnitDag, f: set<Unit>, more: set<Unit>, h: nat)
    requires InRange(g) && ChainsWithin(g, f, h)
    ensures ChainsWithin(g, f + more, h)
  {
    forall p | Chain(g, f + more, p) ensures |p| <= h {
      assert Chain(g, f, p);
    }
  }

  /** The rounds from `k` up to `w` that start as many packages as allowed. */
  ghost function FullRounds(g: UnitDag, maxJobs: nat, k: nat, w: nat): nat
    requires InRange(g) && k <= w
    decreases w - k
  {
    if k == w then 0 else FullRounds(g, maxJobs, k + 1, w) + FullRound(g, maxJobs, k)
  }

  ghost function FullRound(g: UnitDag, maxJobs: nat, k: nat): nat
    requires InRange(g)
  {
    if |Packages(Wave(g, maxJobs, After(g, maxJobs, k)))| < maxJobs then 0 else 1
  }

  /** A round that is not full shortens every chain. */
  lemma RoundPays(g: UnitDag, maxJobs: nat, k: nat, h: nat)
    requires InRange(g) && DistinctNodes(g)
    requires After(g, maxJobs, k) != All(g) && ChainsWithin(g, After(g, maxJobs, k), h)
    ensures var shorter := 1 - FullRound(g, maxJobs, k);
      h >= shorter && ChainsWithin(g, After(g, maxJobs, k + 1), h - shorter)
  {
    var f := After(g, maxJobs, k);
    AfterClosed(g, maxJobs, k);
    AfterStep(g, maxJobs, k);
    if FullRound(g, maxJobs, k) == 0 {
      BelowLimitShortens(g, maxJobs, f, h);
    } else {
      ChainsMonotone(g, f, Wave(g, maxJobs, f), h);
    }
  }

  lemma {:induction false} UpperBound(g: UnitDag, maxJobs: nat, k: nat, w: nat, h: nat)
    requires InRange(g) && DistinctNodes(g)
    requires forall j: nat :: k <= j < w ==> After(g, maxJobs, j) != All(g)
    requires k <= w && ChainsWithin(g, After(g, maxJobs, k), h)
    ensures w - k <= h + FullRounds(g, maxJobs, k, w)
    decreases w - k
  {
    if k < w {
      RoundPays(g, maxJobs, k, h);
      UpperBound(g, maxJobs, k + 1, w, h - 1 + FullRound(g, maxJobs, k));
    }
  }

  /** A full round consumes `maxJobs` packages. */
  lemma {:induction false} FullRoundsBound(g: UnitDag, maxJobs: nat, k: nat, w: nat)
    requires InRange(g) && DistinctNodes(g) && k <= w
    ensures maxJobs * FullRounds(g, maxJobs, k, w) <= Left(g, maxJobs, k)
    decreases w - k
  {
    if k < w {
      FullRoundsBound(g, maxJobs, k + 1, w);
      LeftStep(g, maxJobs, k);
      Distribute(maxJobs, FullRounds(g, maxJobs, k + 1, w));
    }
  }

  lemma Distribute(m: nat, x: int)
    ensures m * (x + 1) == m * x + m
  {
  }

  lemma DivBound(m: nat, x: int, a: nat)
    requires m >= 1 && m * x <= a
    ensures x <= a / m
  {
    var q := a / m;
    Distribute(m, q);
    if x > q {
      MulMonotone(m, q + 1, x);
    }
  }

  lemma MulMonotone(m: nat, x: int, y: int)
    requires x <= y
    ensures m * x <= m * y
  {
  }

  lemma WaveShrinks(g: UnitDag, maxJobs: nat, f: set<Unit>, p: seq<Unit>)
    requires InRange(g) && Chain(g, f, p) && |p| >= 2
    ensures Chain(g, f + Wave(g, maxJobs, f), p[..|p| - 1])
  {
    PickedSound(g, maxJobs, f, |g.nodes|);
    ChainShrinks(g, f, Wave(g, maxJobs, f), p);
  }

  /** Every round removes at most one link of a chain and at most `maxJobs` packages. */
  lemma {:induction false} LowerBound(g: UnitDag, maxJobs: nat, k: nat, w: nat, p: seq<Unit>)
    requires InRange(g)
    requires After(g, maxJobs, w) == All(g) && k <= w && Chain(g, After(g, maxJobs, k), p)
    ensures |p| <= w - k
    decreases w - k
  {
    assert p[0] in p;
    if |p| >= 2 {
      WaveShrinks(g, maxJobs, After(g, maxJobs, k), p);
      LowerBound(g, maxJobs, k + 1, w, p[..|p| - 1]);
    }
  }

  lemma {:induction false} LowerBoundPackages(g: UnitDag, maxJobs: nat, k: nat, w: nat)
    requires InRange(g) && DistinctNodes(g)
    requires After(g, maxJobs, w) == All(g) && k <= w
    ensures Left(g, maxJobs, k) <= maxJobs * (w - k)
    decreases w - k
  {
    if k == w {
      assert All(g) - After(g, maxJobs, k) == {};
    } else {
      LowerBoundPackages(g, maxJobs, k + 1, w);
      LeftStep(g, maxJobs, k);
      WaveSound(g, maxJobs, After(g, maxJobs, k));
      Distribute(maxJobs, w - k - 1);
    }
  }

  /**
    The list-scheduling bound: with `h` the longest chain, P packages and
    m jobs, the number of rounds lies between max(h, ceil(P/m)) and h + floor(P/m).
   */
  lemma ListSchedulingBound(g: UnitDag, maxJobs: nat, w: nat, h: nat)
    requires InRange(g) && DistinctNodes(g) && Acyclic(Rel(g)) && maxJobs >= 1
    requires IsScanCount(g, maxJobs, w) && LongestChain(g, h)
    ensures h <= w <= h + |Packages(All(g))| / maxJobs
    ensures |Packages(All(g))| <= maxJobs * w && (|Packages(All(g))| + maxJobs - 1) / maxJobs <= w
  {
    assert All(g) - After(g, maxJobs, 0) == All(g);
    UpperBound(g, maxJobs, 0, w, h);
    FullRoundsBound(g, maxJobs, 0, w);
    DivBound(maxJobs, FullRounds(g, maxJobs, 0, w), |Packages(All(g))|);
    var p :| Chain(g, {}, p) && |p| == h;
    LowerBound(g, maxJobs, 0, w, p);
    LowerBoundPackages(g, maxJobs, 0, w);
    CeilingBound(maxJobs, w, |Packages(All(g))|);
  }

  lemma CeilingBound(m: nat, w: nat, a: nat)
    requires m >= 1 && a <= m * w
    ensures (a + m - 1) / m <= w
  {
    var q := (a + m - 1) / m;
    Distribute(m, w);
    if q > w {
      MulMonotone(m, w + 1, q);
    }
  }

  /** An acyclic graph with a node has a longest chain, of at most as many links as it has nodes. */
  lemma LongestChainExists(g: UnitDag) returns (h: nat)
    requires InRange(g) && Acyclic(Rel(g)) && |g.nodes| > 0
    ensures 1 <= h <= |All(g)| && LongestChain(g, h)
  {
    ChainBound(g, {});
    assert Chain(g, {}, [g.nodes[0]]);
    h := LongestUpTo(g, |All(g)|, [g.nodes[0]]);
  }

  lemma {:induction false} LongestUpTo(g: UnitDag, bound: nat, p: seq<Unit>) returns (h: nat)
    requires InRange(g) && Chain(g, {}, p) && ChainsWithin(g, {}, bound)
    ensures |p| <= h <= bound && LongestChain(g, h)
    decreases bound - |p|
  {
    if q :| Chain(g, {}, q) && |q| > |p| {
      h := LongestUpTo(g, bound, q);
    } else {
      h := |p|;
    }
  }

  // --------------------------------------------------------- enough jobs

  ghost predicate ChainsFromWithin(g: UnitDag, u: Unit, h: nat)
    requires InRange(g)
  {
    forall p :: Chain(g, {}, p) && p[0] == u ==> |p| <= h
  }

  /** A unit's chains are one longer than those of its dependencies. */
  lemma HeightStep(g: UnitDag, f: set<Unit>, u: Unit, k: nat)
    requires InRange(g) && u in g.nodes
    requires forall v :: (u, v) in Rel(g) ==> (v in f <==> ChainsFromWithin(g, v, k))
    ensures (forall v :: (u, v) in Rel(g) ==> v in f) <==> ChainsFromWithin(g, u, k + 1)
  {
    if forall v :: (u, v) in Rel(g) ==> v in f {
      forall p | Chain(g, {}, p) && p[0] == u ensures |p| <= k + 1 {
        if |p| >= 2 {
          assert (p[0], p[1]) in Rel(g) && Chain(g, {}, p[1..]);
        }
      }
    } else {
      var v :| (u, v) in Rel(g) && v !in f;
      var p :| Chain(g, {}, p) && p[0] == v && |p| > k;
      var q := [u] + p;
      assert Chain(g, {}, q) && q[0] == u;
    }
  }

  /** `finished` holds exactly the units whose longest chain has at most `k` links. */
  ghost predicate IsLevel(g: UnitDag, finished: set<Unit>, k: nat)
    requires InRange(g)
  {
    forall u :: u in g.nodes ==> (u in finished <==> ChainsFromWithin(g, u, k))
  }

  lemma LevelZero(g: UnitDag)
    requires InRange(g)
    ensures IsLevel(g, {}, 0)
  {
    forall u | u in g.nodes ensures !ChainsFromWithin(g, u, 0) {
      assert Chain(g, {}, [u]);
    }
  }

  lemma EnoughJobsStep(g: UnitDag, maxJobs: nat, f: set<Unit>, next: set<Unit>, k: nat)
    requires InRange(g) && DistinctNodes(g) && |Packages(All(g))| <= maxJobs
    requires Closed(Rel(g), f) && next == f + Wave(g, maxJobs, f) && IsLevel(g, f, k)
    ensures IsLevel(g, next, k + 1)
  {
    WaveSound(g, maxJobs, f);
    forall u | u in g.nodes ensures u in next <==> ChainsFromWithin(g, u, k + 1) {
      EnoughJobsTakesAll(g, maxJobs, f, u);
      HeightStep(g, f, u, k);
    }
  }

  /** With a job per package, round `k` completes exactly the units of height at most `k`. */
  lemma {:induction false} EnoughJobsByHeight(g: UnitDag, maxJobs: nat, k: nat)
    requires InRange(g) && DistinctNodes(g) && |Packages(All(g))| <= maxJobs
    ensures IsLevel(g, After(g, maxJobs, k), k)
    decreases k
  {
    hide Wave;
    if k == 0 {
      LevelZero(g);
    } else {
      EnoughJobsByHeight(g, maxJobs, k - 1);
      AfterClosed(g, maxJobs, k - 1);
      AfterStep(g, maxJobs, k - 1);
      EnoughJobsStep(g, maxJobs, After(g, maxJobs, k - 1), After(g, maxJobs, k), k - 1);
    }
  }

  lemma EnoughJobsTakesAll(g: UnitDag, maxJobs: nat, finished: set<Unit>, u: Unit)
    requires InRange(g) && DistinctNodes(g) && u in g.nodes && |Packages(All(g))| <= maxJobs
    ensures Ready(g, finished, u) ==> u in Wave(g, maxJobs, finished)
  {
    if Ready(g, finished, u) {
      var i := IndexOf(g, u);
      PickedExact(g, maxJobs, finished, |g.nodes|, i);
      if u.PackageUnit? {
        var before := Picked(g, maxJobs, finished, i);
        PickedSound(g, maxJobs, finished, i);
        PickedCount(g, maxJobs, finished, i);
        assert u !in before && Packages(before) + {u} <= Packages(All(g));
        SubsetSize(Packages(before) + {u}, Packages(All(g)));
      }
    }
  }

  /** With a job per package the number of rounds is the longest chain. */
  lemma EnoughJobsRounds(g: UnitDag, maxJobs: nat, h: nat)
    requires InRange(g) && DistinctNodes(g) && |Packages(All(g))| <= maxJobs && LongestChain(g, h)
    ensures IsScanCount(g, maxJobs, h)
  {
    AfterClosed(g, maxJobs, h);
    EnoughJobsByHeight(g, maxJobs, h);
    var p :| Chain(g, {}, p) && |p| == h;
    forall k: nat | k < h ensures After(g, maxJobs, k) != All(g) {
      assert p[0] in p;
      EnoughJobsByHeight(g, maxJobs, k);
    }
  }
}
