/**
  What every run of the builder guarantees: for all acyclic graphs, flags, job
  limits, starting stores and interleavings, finished or cut short.
 */
module Guarantees {
  import opened Common
  import opened Units
  import opened Paths
  import opened Graphs
  import opened Waves
  import opened Database
  import opened Tasks
  import opened Protocol
  import opened Scheduler
  import opened Contents
  import opened Progress

  // ------------------------------------------------------------- scheduling

  /** A finished scan has started every ready fetch and the first `maxJobs` ready packages. */
  lemma ScanStartsExactly(cfg: Config, w0: World, s: Sys, j: nat)
    requires GoodConfig(cfg) && RunsTo(cfg, w0, s)
    requires s.phase == Scanning(|cfg.g.nodes|) && j < |cfg.g.nodes|
    ensures cfg.g.nodes[j] in s.futs <==>
      && Ready(cfg.g, WithStatus(s.tasks, Finished), cfg.g.nodes[j])
      && (cfg.g.nodes[j].PackageUnit? ==>
            ReadyPackages(cfg.g, WithStatus(s.tasks, Finished), j) < cfg.maxJobs)
  {
    hide GoodGraph, Ready, Picked, ReadyPackages, After;
    SchedReachable(cfg, w0, s);
    PickedExact(cfg.g, cfg.maxJobs, After(cfg.g, cfg.maxJobs, s.scans), |cfg.g.nodes|, j);
  }

  /** A drain has just ended: another round begins, or the run is over. */
  predicate BetweenRounds(s: Sys) {
    s.scans > 0 && (s.phase == Scanning(0) || s.phase == Returned(Success))
  }

  /** Never more than `maxJobs` packages are being built, and a drain that is over leaves none. */
  lemma JobsBounded(cfg: Config, w0: World, s: Sys)
    requires GoodConfig(cfg) && RunsTo(cfg, w0, s)
    ensures |PackagesBuilding(s.tasks)| <= cfg.maxJobs
    ensures BetweenRounds(s) ==>
      s.futs == map[] && s.tasks.Keys == All(cfg.g) && forall u :: u in s.tasks ==> s.tasks[u] != Building
  {
    hide GoodGraph, After;
    SchedReachable(cfg, w0, s);
    JobCap(cfg, s);
    if BetweenRounds(s) {
      forall u | u in s.tasks ensures s.tasks[u] != Building {
        StatusMeans(s.tasks, u, Building);
      }
    }
  }

  /** A run succeeds after exactly the rounds the graph and the job limit ask for. */
  lemma SuccessRounds(cfg: Config, w0: World, s: Sys)
    requires GoodConfig(cfg) && RunsTo(cfg, w0, s) && s.phase == Returned(Success)
    ensures IsScanCount(cfg.g, cfg.maxJobs, s.scans)
    ensures |cfg.g.nodes| * s.scans <= 1001
  {
    hide GoodGraph, Wave, Rel;
    SchedReachable(cfg, w0, s);
    forall k: nat | k < s.scans ensures After(cfg.g, cfg.maxJobs, k) != All(cfg.g) {
      AfterMonotone(cfg.g, cfg.maxJobs, k, s.scans - 1);
      AfterClosed(cfg.g, cfg.maxJobs, s.scans - 1);
    }
  }

  lemma LastScanDoesNotFit(n: nat, scans: nat, index: nat, w: nat)
    requires index < n && scans < w
    ensures n * w > n * scans + index
  {
    MulMonotone(n, scans + 1, w);
    Distribute(n, scans);
  }

  /** The sentry stops a run only if the rounds it needs do not fit. */
  lemma SentryRounds(cfg: Config, w0: World, s: Sys, index: nat, w: nat)
    requires GoodConfig(cfg) && RunsTo(cfg, w0, s) && s.phase == Returned(SentryReached(index))
    requires IsScanCount(cfg.g, cfg.maxJobs, w)
    ensures |cfg.g.nodes| * w > 1001
  {
    hide GoodGraph, Wave, Rel, After, ScanState, TasksInv;
    SchedReachable(cfg, w0, s);
    if w <= s.scans {
      AfterMonotone(cfg.g, cfg.maxJobs, w, s.scans);
      AfterClosed(cfg.g, cfg.maxJobs, s.scans);
    } else {
      LastScanDoesNotFit(|cfg.g.nodes|, s.scans, index, w);
    }
  }

  /** Without a failed task the outcome is decided by the rounds. */
  lemma OutcomeWithoutFailure(cfg: Config, w0: World, s: Sys, w: nat)
    requires GoodConfig(cfg) && RunsTo(cfg, w0, s)
    requires s.phase.Returned? && !s.phase.result.TaskFailed?
    requires IsScanCount(cfg.g, cfg.maxJobs, w)
    ensures s.phase.result == Success <==> |cfg.g.nodes| * w <= 1001
  {
    hide GoodGraph, Wave, Rel, IsScanCount;
    match s.phase.result
    case Success =>
      SuccessRounds(cfg, w0, s);
      ScanCountUnique(cfg.g, cfg.maxJobs, s.scans, w);
    case SentryReached(index) => SentryRounds(cfg, w0, s, index, w);
  }

  /**
    When all tasks succeed the outcome depends on two numbers alone: a graph of
    `n` units that needs `w` rounds is built if and only if `n * w <= 1001`.
   */
  lemma OutcomeIffRoundsFit(cfg: Config, w0: World, s: Sys, w: nat)
    requires GoodConfig(cfg) && RunsSmoothlyTo(cfg, w0, s) && s.phase.Returned?
    requires IsScanCount(cfg.g, cfg.maxJobs, w)
    ensures s.phase.result == Success <==> |cfg.g.nodes| * w <= 1001
  {
    hide GoodGraph, IsScanCount, SchedInv, RunsSmoothlyTo;
    SmoothNeverFails(cfg, w0, s);
    SmoothIsRun(cfg, w0, s);
    OutcomeWithoutFailure(cfg, w0, s, w);
  }

  /** A graph whose rounds fit is built by some run from every store, packages included. */
  lemma SuccessIsReachable(cfg: Config, w0: World, w: nat) returns (s: Sys)
    requires GoodConfig(cfg) && IsScanCount(cfg.g, cfg.maxJobs, w)
    requires |cfg.g.nodes| * w <= 1001
    ensures RunsSmoothlyTo(cfg, w0, s) && s.phase == Returned(Success)
  {
    hide GoodGraph, IsScanCount, RunsSmoothlyTo;
    SmoothStart(cfg, w0);
    s := RunCompletes(cfg, w0, Init(cfg, w0));
    OutcomeIffRoundsFit(cfg, w0, s, w);
  }

  /** A successful run is a list schedule: it takes between max(h, ceil(P/m)) and h + floor(P/m) rounds. */
  lemma SuccessfulRunLength(cfg: Config, w0: World, s: Sys, h: nat)
    requires GoodConfig(cfg) && RunsTo(cfg, w0, s) && s.phase == Returned(Success)
    requires cfg.maxJobs >= 1 && LongestChain(cfg.g, h)
    ensures h <= s.scans <= h + |Packages(All(cfg.g))| / cfg.maxJobs
    ensures (|Packages(All(cfg.g))| + cfg.maxJobs - 1) / cfg.maxJobs <= s.scans
  {
    hide Wave, Rel, IsScanCount;
    SuccessRounds(cfg, w0, s);
    ListSchedulingBound(cfg.g, cfg.maxJobs, s.scans, h);
  }

  /** With a job per package, scan `k` starts exactly the units whose longest chain has `k` links. */
  lemma ScanStartsByHeight(cfg: Config, w0: World, s: Sys, u: Unit)
    requires GoodConfig(cfg) && RunsTo(cfg, w0, s) && s.phase == Scanning(|cfg.g.nodes|)
    requires |Packages(All(cfg.g))| <= cfg.maxJobs && u in cfg.g.nodes
    ensures u in s.futs <==>
      ChainsFromWithin(cfg.g, u, s.scans + 1) && !ChainsFromWithin(cfg.g, u, s.scans)
  {
    hide GoodGraph, Wave, Rel, After, ChainsFromWithin;
    SchedReachable(cfg, w0, s);
    AfterStep(cfg.g, cfg.maxJobs, s.scans);
    RunningInWave(cfg, s);
    WaveSound(cfg.g, cfg.maxJobs, After(cfg.g, cfg.maxJobs, s.scans));
    WaveIsPicked(cfg);
    EnoughJobsByHeight(cfg.g, cfg.maxJobs, s.scans);
    EnoughJobsByHeight(cfg.g, cfg.maxJobs, s.scans + 1);
  }

  lemma WaveIsPicked(cfg: Config)
    requires InRange(cfg.g)
    ensures forall a :: Wave(cfg.g, cfg.maxJobs, a) == Picked(cfg.g, cfg.maxJobs, a, |cfg.g.nodes|)
  {
  }

  /** Up to 31 units always fit, with any number of jobs but zero. */
  lemma SmallGraphsFit(cfg: Config, w0: World, s: Sys)
    requires GoodConfig(cfg) && RunsSmoothlyTo(cfg, w0, s) && s.phase.Returned?
    requires |cfg.g.nodes| <= 31 && cfg.maxJobs >= 1
    ensures s.phase.result == Success
  {
    var n := |cfg.g.nodes|;
    var w := ScanCountExists(cfg.g, cfg.maxJobs);
    MulMonotone(n, w, 31);
    OutcomeIffRoundsFit(cfg, w0, s, w);
  }

  /** A chain of 32 units never fits: its rounds cost at least 32 * 32 visits. */
  lemma LongChainsDoNotFit(cfg: Config, w0: World, s: Sys, p: seq<Unit>)
    requires GoodConfig(cfg) && RunsTo(cfg, w0, s) && Chain(cfg.g, {}, p) && |p| >= 32
    ensures s.phase != Returned(Success)
  {
    hide Wave, Rel;
    if s.phase == Returned(Success) {
      SuccessRounds(cfg, w0, s);
      LowerBound(cfg.g, cfg.maxJobs, 0, s.scans, p);
      ChainBound(cfg.g, {});
      AllSize(cfg.g);
      MulMonotone(|cfg.g.nodes|, 32, s.scans);
    }
  }

  /** Without jobs a graph that contains a package is never built. */
  lemma NoJobsNoSuccess(cfg: Config, w0: World, s: Sys, u: Unit)
    requires GoodConfig(cfg) && RunsTo(cfg, w0, s) && cfg.maxJobs == 0
    requires u in cfg.g.nodes && u.PackageUnit?
    ensures s.phase != Returned(Success)
  {
    hide GoodGraph, Wave, Rel;
    SchedReachable(cfg, w0, s);
    NoJobsNoPackages(cfg.g, s.scans);
    assert u in Packages(All(cfg.g));
  }

  /** If nothing else goes wrong such a run ends with the error of the sentry. */
  lemma NoJobsHitsSentry(cfg: Config, w0: World, s: Sys, u: Unit)
    requires GoodConfig(cfg) && RunsSmoothlyTo(cfg, w0, s) && s.phase.Returned? && cfg.maxJobs == 0
    requires u in cfg.g.nodes && u.PackageUnit?
    ensures s.phase.result.SentryReached?
  {
    hide GoodGraph, SchedInv, RunsSmoothlyTo;
    SmoothNeverFails(cfg, w0, s);
    SmoothIsRun(cfg, w0, s);
    NoJobsNoSuccess(cfg, w0, s, u);
  }

  // ----------------------------------------------------------------- safety

  lemma FinishedClosed(cfg: Config, s: Sys)
    requires GoodConfig(cfg) && SchedInv(cfg, s)
    ensures Closed(Rel(cfg.g), WithStatus(s.tasks, Finished))
  {
    hide GoodGraph, SchedInv, Rel;
    forall a, b | (a, b) in Rel(cfg.g) && a in WithStatus(s.tasks, Finished)
      ensures b in WithStatus(s.tasks, Finished)
    {
      StartedAfterDeps(cfg, s, a, b);
    }
  }

  /**
    While a unit is being built every transitive dependency is finished and
    registered with its expected content, complete unless it was incomplete
    and kept from the start.
   */
  lemma DependenciesFirst(cfg: Config, w0: World, s: Sys, u: Unit, v: Unit)
    requires GoodConfig(cfg) && RunsTo(cfg, w0, s)
    requires (u in s.futs || (u in s.tasks && s.tasks[u] == Finished)) && Plus(Rel(cfg.g), u, v)
    ensures v in s.tasks && s.tasks[v] == Finished
    ensures v in cfg.g.nodes && Meets(cfg, w0, s.world, v) && At(s.world, v.StorePath()).registered
    ensures SoundSlot(At(w0, v.StorePath())) ==> SoundSlot(At(s.world, v.StorePath()))
  {
    hide GoodGraph, SchedInv, StoreInv, Rel, ExpectedOutput;
    InvReachable(cfg, w0, s);
    FinishedClosed(cfg, s);
    var first, _ := PlusEnds(Rel(cfg.g), u, v);
    StartedAfterDeps(cfg, s, u, first);
    ClosedKeepsStar(Rel(cfg.g), WithStatus(s.tasks, Finished), first, v);
    FinishedMeets(cfg, w0, s, v);
  }

  lemma {:induction false} KindsInRun(cfg: Config, w0: World, run: seq<Sys>, k: nat)
    requires InRange(cfg.g) && IsRun(cfg, w0, run) && k < |run|
    ensures forall u :: u in run[k].futs ==> FitsKind(u, run[k].futs[u])
  {
    hide Do, FitsKind;
    if k > 0 {
      KindsInRun(cfg, w0, run, k - 1);
      assert Next(cfg, run[k - 1], run[k]);
      var a :| run[k] == Do(cfg, run[k - 1], a);
      KindsNext(cfg, run[k - 1], a);
    }
  }

  lemma KindsNext(cfg: Config, s: Sys, a: Action)
    requires InRange(cfg.g) && forall u :: u in s.futs ==> FitsKind(u, s.futs[u])
    ensures forall u :: u in Do(cfg, s, a).futs ==> FitsKind(u, Do(cfg, s, a).futs[u])
  {
    hide AllDepsBuilt, PackagesBuilding, StepTask, Put, At, Inputs;
    if a.Step? && a.unit in s.futs {
      var output := cfg.produce(a.unit, Inputs(s.world, a.unit));
      StepFitsKind(a.unit, RebuildFlag(cfg, a.unit), output, s.futs[a.unit], a.event,
                   At(s.world, a.unit.StorePath()));
    }
  }

  /** In every run packages are built by scripts and only fetches are downloaded. */
  lemma KindsAreKept(cfg: Config, w0: World, s: Sys, u: Unit)
    requires InRange(cfg.g) && RunsTo(cfg, w0, s) && u in s.futs
    ensures s.futs[u].pc.Run? || s.futs[u].pc.Inspect? ==> u.PackageUnit?
    ensures s.futs[u].pc.Request? || s.futs[u].pc.Download? ==> u.FetchUnit?
  {
    hide Do;
    var run :| IsRun(cfg, w0, run) && run[|run| - 1] == s;
    KindsInRun(cfg, w0, run, |run| - 1);
  }

  /** Tasks that run together do not depend on one another and work on different paths. */
  lemma RunningAreIndependent(cfg: Config, w0: World, s: Sys, u: Unit, v: Unit)
    requires GoodConfig(cfg) && RunsTo(cfg, w0, s) && u in s.futs && v in s.futs && u != v
    ensures !Plus(Rel(cfg.g), u, v) && u.StorePath() != v.StorePath()
  {
    hide GoodGraph, PhaseInv, Rel;
    SchedReachable(cfg, w0, s);
    assert u in All(cfg.g) && v in All(cfg.g);
    SameResultSameUnit(cfg.g, u, v);
    if Plus(Rel(cfg.g), u, v) {
      FinishedClosed(cfg, s);
      var first, _ := PlusEnds(Rel(cfg.g), u, v);
      StartedAfterDeps(cfg, s, u, first);
      ClosedKeepsStar(Rel(cfg.g), WithStatus(s.tasks, Finished), first, v);
    }
  }

  lemma FinishedStep(cfg: Config, s: Sys, a: Action, u: Unit)
    requires InRange(cfg.g) && u in s.tasks && s.tasks[u] == Finished
    ensures var s' := Do(cfg, s, a); u in s'.tasks && s'.tasks[u] == Finished
  {
    hide AllDepsBuilt, PackagesBuilding, StepTask, Put, At, Inputs;
  }

  lemma {:induction false} FinishedStays(cfg: Config, w0: World, run: seq<Sys>, i: nat, j: nat, u: Unit)
    requires InRange(cfg.g) && IsRun(cfg, w0, run) && i <= j < |run|
    requires u in run[i].tasks && run[i].tasks[u] == Finished
    ensures u in run[j].tasks && run[j].tasks[u] == Finished
    decreases j
  {
    hide Do;
    if i < j {
      FinishedStays(cfg, w0, run, i, j - 1, u);
      assert Next(cfg, run[j - 1], run[j]);
      var a :| run[j] == Do(cfg, run[j - 1], a);
      FinishedStep(cfg, run[j - 1], a, u);
    }
  }

  /** Once finished, a unit stays finished and registered with the same content for the rest of the run. */
  lemma FinishedForGood(cfg: Config, w0: World, run: seq<Sys>, i: nat, j: nat, u: Unit)
    requires GoodConfig(cfg) && IsRun(cfg, w0, run) && i <= j < |run|
    requires u in run[i].tasks && run[i].tasks[u] == Finished
    ensures u in run[j].tasks && run[j].tasks[u] == Finished
    ensures u in cfg.g.nodes && Meets(cfg, w0, run[j].world, u) && At(run[j].world, u.StorePath()).registered
    ensures SoundSlot(At(w0, u.StorePath())) ==> SoundSlot(At(run[j].world, u.StorePath()))
  {
    hide GoodGraph, Inv, Next, ExpectedOutput;
    FinishedStays(cfg, w0, run, i, j, u);
    InvRun(cfg, w0, run, j);
    FinishedMeets(cfg, w0, run[j], u);
  }

  /** Some task has failed after damaging the registered output of this path. */
  ghost predicate TornAt(s: Sys, path: string) {
    exists u :: u in s.futs && u.StorePath() == path && s.futs[u].pc.Torn?
  }

  /**
    At every moment of every run, cut short anywhere, a registered path has a
    complete output, with one exception: the removal of an old output failed
    after it had begun, and the path is still registered.
   */
  lemma SoundUnlessTorn(cfg: Config, w0: World, s: Sys, path: string)
    requires GoodConfig(cfg) && RunsTo(cfg, w0, s) && SoundSlot(At(w0, path))
    ensures SoundSlot(At(s.world, path)) <==> !TornAt(s, path)
  {
    hide GoodGraph, ExpectedOutput, At, SchedInv, UnitsInv;
    InvReachable(cfg, w0, s);
    forall v | v in s.futs && v.StorePath() == path ensures IsUnitPath(cfg.g, path) {
      StartedIsNode(cfg, w0, s, v);
    }
    if u :| u in cfg.g.nodes && u.StorePath() == path {
      UnitAt(cfg, w0, s, u);
      forall v | v in s.futs && v.StorePath() == path ensures v == u {
        StartedIsNode(cfg, w0, s, v);
        SameResultSameUnit(cfg.g, u, v);
      }
    }
  }

  /** The same for the content: right where registered, unless a removal was torn. */
  lemma RightUnlessTorn(cfg: Config, w0: World, s: Sys, u: Unit)
    requires GoodConfig(cfg) && RunsTo(cfg, w0, s) && RightWhereRegistered(cfg, w0) && u in cfg.g.nodes
    ensures At(s.world, u.StorePath()).registered ==>
      (Holds(cfg, s.world, u) <==> !(u in s.futs && s.futs[u].pc.Torn?))
  {
    hide GoodGraph, ExpectedOutput, Scratch, At, SchedInv, UnitsInv;
    InvReachable(cfg, w0, s);
    UnitAt(cfg, w0, s, u);
    assert RightWhereKept(cfg, w0);
    ExpectedIsScratch(cfg, w0, u);
  }

  /** After a failure nothing that depends on the failed unit has been started. */
  lemma FailureIsolated(cfg: Config, w0: World, s: Sys, u: Unit, v: Unit)
    requires GoodConfig(cfg) && RunsTo(cfg, w0, s)
    requires s.phase == Returned(TaskFailed(u)) && Plus(Rel(cfg.g), v, u)
    ensures v !in s.futs && !(v in s.tasks && s.tasks[v] == Finished)
  {
    hide GoodGraph, Rel, After, Wave;
    SchedReachable(cfg, w0, s);
    StatusMeans(s.tasks, u, Building);
    StatusMeans(s.tasks, u, Finished);
    if v in s.futs || v in WithStatus(s.tasks, Finished) {
      FinishedClosed(cfg, s);
      var first, _ := PlusEnds(Rel(cfg.g), v, u);
      StartedAfterDeps(cfg, s, v, first);
      ClosedKeepsStar(Rel(cfg.g), WithStatus(s.tasks, Finished), first, u);
    }
  }

  // ---------------------------------------------------------------- results

  /** `w` is `w0` with the units in `done` as a run is expected to leave them, and nothing else changed. */
  ghost predicate Settled(cfg: Config, w0: World, done: set<Unit>, w: World)
    requires GoodConfig(cfg)
  {
    && (forall u :: u in done && u in cfg.g.nodes ==> Meets(cfg, w0, w, u))
    && (forall p :: (forall u :: u in done ==> u.StorePath() != p) ==> At(w, p) == At(w0, p))
  }

  /** That description leaves no choice. */
  lemma SettledIsUnique(cfg: Config, w0: World, done: set<Unit>, v: World, w: World)
    requires GoodConfig(cfg) && done <= All(cfg.g)
    requires Settled(cfg, w0, done, v) && Settled(cfg, w0, done, w)
    ensures v == w
  {
    hide At, Expected, GoodGraph;
    forall p ensures At(v, p) == At(w, p) {
      if u :| u in done && u.StorePath() == p {
        assert Meets(cfg, w0, v, u) && Meets(cfg, w0, w, u);
      }
    }
    SameSlots(v, w);
  }

  lemma IdleRestSettled(cfg: Config, w0: World, s: Sys, done: set<Unit>)
    requires Inv(cfg, w0, s) && s.futs == map[] && done == WithStatus(s.tasks, Finished)
    ensures Settled(cfg, w0, done, s.world)
    ensures forall u :: u in cfg.g.nodes ==>
      s.made[u] == if u in done && Needed(RebuildFlag(cfg, u), At(w0, u.StorePath())) then 1 else 0
  {
    hide At, ExpectedOutput, GoodGraph, SchedInv, UnitsInv;
    forall u | u in cfg.g.nodes
      ensures u in done ==> Meets(cfg, w0, s.world, u)
      ensures u !in done ==> At(s.world, u.StorePath()) == At(w0, u.StorePath())
      ensures s.made[u] == if u in done && Needed(RebuildFlag(cfg, u), At(w0, u.StorePath())) then 1 else 0
    {
      UnitAt(cfg, w0, s, u);
    }
    forall p | forall u :: u in done ==> u.StorePath() != p ensures At(s.world, p) == At(w0, p) {
      if u :| u in cfg.g.nodes && u.StorePath() == p {
      }
    }
  }

  /**
    From any store, a successful run leaves every unit as expected and changes
    nothing else. Each unit was produced once if it was unregistered or
    selected for rebuild, otherwise never.
   */
  lemma SuccessSettles(cfg: Config, w0: World, s: Sys)
    requires GoodConfig(cfg) && RunsTo(cfg, w0, s) && s.phase == Returned(Success)
    ensures Settled(cfg, w0, All(cfg.g), s.world)
    ensures forall u :: u in cfg.g.nodes ==>
      s.made[u] == if Needed(RebuildFlag(cfg, u), At(w0, u.StorePath())) then 1 else 0
    ensures forall u :: u in s.made ==> u in cfg.g.nodes
  {
    hide At, Expected, GoodGraph, UnitsInv, After, Rel;
    InvReachable(cfg, w0, s);
    IdleRestSettled(cfg, w0, s, All(cfg.g));
  }

  /** `w` is `w0` with exactly the from-scratch content of every unit registered. */
  ghost predicate BuiltOver(cfg: Config, w0: World, w: World)
    requires GoodConfig(cfg)
  {
    && (forall u :: u in cfg.g.nodes ==> Holds(cfg, w, u))
    && (forall p :: !IsUnitPath(cfg.g, p) ==> At(w, p) == At(w0, p))
  }

  lemma BuiltOverUnique(cfg: Config, w0: World, v: World, w: World)
    requires GoodConfig(cfg) && BuiltOver(cfg, w0, v) && BuiltOver(cfg, w0, w)
    ensures v == w
  {
    hide At, Scratch, GoodGraph;
    forall p ensures At(v, p) == At(w, p) {
      if u :| u in cfg.g.nodes && u.StorePath() == p {
        assert Holds(cfg, v, u) && Holds(cfg, w, u);
      }
    }
    SameSlots(v, w);
  }

  lemma SettledIsBuiltIff(cfg: Config, w0: World, w: World)
    requires GoodConfig(cfg) && Settled(cfg, w0, All(cfg.g), w)
    ensures BuiltOver(cfg, w0, w) <==> RightWhereKept(cfg, w0)
  {
    hide At, Scratch, ExpectedOutput, GoodGraph;
    if RightWhereKept(cfg, w0) {
      forall u | u in cfg.g.nodes ensures Holds(cfg, w, u) {
        ExpectedIsScratch(cfg, w0, u);
        assert Meets(cfg, w0, w, u);
      }
    }
    if BuiltOver(cfg, w0, w) {
      forall u | u in cfg.g.nodes && !Needed(RebuildFlag(cfg, u), At(w0, u.StorePath()))
        ensures Holds(cfg, w0, u)
      {
        assert Holds(cfg, w, u) && Meets(cfg, w0, w, u);
      }
    }
  }

  /**
    A successful run leaves under the path of every unit exactly the content of
    the plain recursive build if and only if every unit that it kept, being
    registered and not selected for rebuild, had that content at the start.
   */
  lemma SuccessIsScratchBuildIff(cfg: Config, w0: World, s: Sys)
    requires GoodConfig(cfg) && RunsTo(cfg, w0, s) && s.phase == Returned(Success)
    ensures BuiltOver(cfg, w0, s.world) <==> RightWhereKept(cfg, w0)
  {
    hide GoodGraph, Settled, BuiltOver, RightWhereKept;
    SuccessSettles(cfg, w0, s);
    SettledIsBuiltIff(cfg, w0, s.world);
  }

  /**
    Which units a successful run produces: always the unregistered ones; with
    `--rebuild` also the root, alone even if `--rebuild-all` is given; with
    `--rebuild-all` otherwise also every package.
   */
  lemma ProducedExactly(cfg: Config, w0: World, s: Sys, u: Unit)
    requires GoodConfig(cfg) && RunsTo(cfg, w0, s)
    requires s.phase == Returned(Success) && u in cfg.g.nodes
    ensures s.made[u] <= 1
    ensures u.StorePath() !in w0.table ==> s.made[u] == 1
    ensures u.StorePath() in w0.table && cfg.rebuild ==> (s.made[u] == 1 <==> u == cfg.g.nodes[0])
    ensures u.StorePath() in w0.table && !cfg.rebuild && cfg.rebuildAll ==> (s.made[u] == 1 <==> u.PackageUnit?)
    ensures u.StorePath() in w0.table && !cfg.rebuild && !cfg.rebuildAll ==> s.made[u] == 0
  {
    hide GoodGraph, Settled, RunsTo;
    SuccessSettles(cfg, w0, s);
  }

  /** At every moment of every run, failed or cut short: no unit was produced twice, or without need. */
  lemma ProducedAtMostOnce(cfg: Config, w0: World, s: Sys, u: Unit)
    requires GoodConfig(cfg) && RunsTo(cfg, w0, s)
    ensures s.made[u] <= 1
    ensures s.made[u] == 1 ==> u in cfg.g.nodes && Needed(RebuildFlag(cfg, u), At(w0, u.StorePath()))
  {
    hide At, ExpectedOutput, GoodGraph, SchedInv, UnitsInv;
    InvReachable(cfg, w0, s);
    if u in cfg.g.nodes {
      UnitAt(cfg, w0, s, u);
    } else {
      assert u !in s.made;
    }
  }

  /** Whenever a drain has ended the whole state is the same in all runs, whatever the interleaving. */
  lemma RoundsAreConfluent(cfg: Config, w0: World, s: Sys, t: Sys)
    requires GoodConfig(cfg) && RunsTo(cfg, w0, s) && RunsTo(cfg, w0, t)
    requires BetweenRounds(s) && BetweenRounds(t) && s.phase == t.phase
    requires s.phase == Scanning(0) ==> s.scans == t.scans
    ensures s == t
  {
    hide At, Expected, GoodGraph, UnitsInv, Rel, Wave;
    if s.phase == Returned(Success) {
      SuccessRounds(cfg, w0, s);
      SuccessRounds(cfg, w0, t);
      ScanCountUnique(cfg.g, cfg.maxJobs, s.scans, t.scans);
    }
    InvReachable(cfg, w0, s);
    InvReachable(cfg, w0, t);
    SameRoundSameState(cfg, w0, s, t);
  }

  lemma BetweenRoundsMeans(cfg: Config, s: Sys)
    requires GoodConfig(cfg) && SchedInv(cfg, s) && BetweenRounds(s)
    ensures s.futs == map[] && s.sentry == |cfg.g.nodes| * s.scans
    ensures WithStatus(s.tasks, Finished) == After(cfg.g, cfg.maxJobs, s.scans)
    ensures WithStatus(s.tasks, Building) == {} && s.tasks.Keys == All(cfg.g)
  {
    hide GoodGraph, After, Rel, Wave;
    assert s.futs.Keys == {};
  }

  lemma SameRoundSameState(cfg: Config, w0: World, s: Sys, t: Sys)
    requires Inv(cfg, w0, s) && Inv(cfg, w0, t)
    requires BetweenRounds(s) && BetweenRounds(t) && s.phase == t.phase && s.scans == t.scans
    ensures s == t
  {
    hide At, Expected, GoodGraph, UnitsInv, SchedInv, BetweenRounds, After, Rel, WithStatus, Settled;
    var done := After(cfg.g, cfg.maxJobs, s.scans);
    BetweenRoundsMeans(cfg, s);
    BetweenRoundsMeans(cfg, t);
    IdleRestSettled(cfg, w0, s, done);
    IdleRestSettled(cfg, w0, t, done);
    AfterClosed(cfg.g, cfg.maxJobs, s.scans);
    SettledIsUnique(cfg, w0, done, s.world, t.world);
    SameTasks(s.tasks, t.tasks);
    forall u ensures s.made[u] == t.made[u] {
      if u !in cfg.g.nodes {
        assert u !in s.made && u !in t.made;
      }
    }
    assert s.made == t.made;
  }

  lemma SameTasks(s: map<Unit, BuildTask>, t: map<Unit, BuildTask>)
    requires s.Keys == t.Keys
    requires forall status :: WithStatus(s, status) == WithStatus(t, status) || status == Waiting
    ensures s == t
  {
    forall u | u in s ensures s[u] == t[u] {
      StatusMeans(s, u, Finished);
      StatusMeans(t, u, Finished);
      StatusMeans(s, u, Building);
      StatusMeans(t, u, Building);
    }
  }

  // ------------------------------------------------- reruns and resumption

  /** The same build with other flags or another job limit. */
  ghost predicate SameBuild(cfg: Config, other: Config) {
    other == cfg.(rebuild := other.rebuild, rebuildAll := other.rebuildAll, maxJobs := other.maxJobs)
  }

  /** The from-scratch content does not depend on flags or job limits. */
  lemma {:induction false} ScratchIgnoresFlags(cfg: Config, other: Config, u: Unit)
    requires GoodConfig(cfg) && u in cfg.g.nodes && SameBuild(cfg, other)
    ensures GoodConfig(other) && Scratch(other, u) == Scratch(cfg, u)
    decreases Below(cfg.g, u)
  {
    hide GoodGraph, Rel, DistinctNodes;
    forall d | d in u.Deps() ensures Scratch(other, DepNode(cfg.g, u, d)) == Scratch(cfg, DepNode(cfg.g, u, d)) {
      var v := DepNode(cfg.g, u, d);
      AcyclicOfGood(cfg.g);
      BelowShrinks(cfg.g, u, v);
      ScratchIgnoresFlags(cfg, other, v);
    }
    var mine := map d | d in u.Deps() :: Complete(Scratch(cfg, DepNode(cfg.g, u, d)));
    var theirs := map d | d in u.Deps() :: Complete(Scratch(other, DepNode(cfg.g, u, d)));
    assert mine == theirs;
  }

  lemma BuiltOverIgnoresFlags(cfg: Config, other: Config, w0: World, w: World)
    requires GoodConfig(cfg) && SameBuild(cfg, other)
    ensures GoodConfig(other)
    ensures BuiltOver(other, w0, w) <==> BuiltOver(cfg, w0, w)
  {
    hide At, Scratch, GoodGraph;
    forall u | u in cfg.g.nodes ensures Scratch(other, u) == Scratch(cfg, u) {
      ScratchIgnoresFlags(cfg, other, u);
    }
  }

  /** Runs touch unit paths only, so a store cut off in the middle is as good a base as the start. */
  lemma BuiltFromCut(cfg: Config, w0: World, s: Sys, w: World)
    requires Inv(cfg, w0, s)
    ensures BuiltOver(cfg, s.world, w) <==> BuiltOver(cfg, w0, w)
  {
    hide At, Scratch, GoodGraph, SchedInv, UnitsInv;
  }

  /**
    Resumption: a run is cut short in any state (by a failure, the sentry or a
    cancellation) and a later run, with any flags and job limit, succeeds. It
    ends in the store of an uninterrupted from-scratch build if and only if
    what it kept of the cut store was right.
   */
  lemma ResumedEqualsUninterruptedIff(cfg: Config, w0: World, cut: Sys, again: Config, s: Sys, other: Config, t: Sys)
    requires GoodConfig(cfg) && RunsTo(cfg, w0, cut) && SameBuild(cfg, again) && SameBuild(cfg, other)
    requires GoodConfig(other) && RightWhereKept(other, w0)
    requires RunsTo(other, w0, t) && t.phase == Returned(Success)
    requires GoodConfig(again) && RunsTo(again, cut.world, s) && s.phase == Returned(Success)
    ensures s.world == t.world <==> RightWhereKept(again, cut.world)
  {
    hide GoodGraph, GoodConfig, RightWhereKept, BuiltOver, Inv;
    InvReachable(cfg, w0, cut);
    SuccessIsScratchBuildIff(other, w0, t);
    SuccessIsScratchBuildIff(again, cut.world, s);
    BuiltOverIgnoresFlags(cfg, other, w0, t.world);
    BuiltOverIgnoresFlags(cfg, again, cut.world, s.world);
    BuiltFromCut(cfg, w0, cut, s.world);
    if BuiltOver(cfg, w0, s.world) {
      BuiltOverUnique(cfg, w0, s.world, t.world);
    }
  }

  /**
    From a store that was right, what a later run keeps of the cut store is
    wrong only where a removal was torn and the unit is not selected again.
   */
  lemma CutIsRightIff(cfg: Config, w0: World, cut: Sys, again: Config)
    requires GoodConfig(cfg) && RunsTo(cfg, w0, cut) && RightWhereRegistered(cfg, w0)
    requires GoodConfig(again) && SameBuild(cfg, again)
    ensures RightWhereKept(again, cut.world) <==>
      forall u :: u in cut.futs && cut.futs[u].pc.Torn? ==> RebuildFlag(again, u)
  {
    hide GoodGraph, Scratch, At, RunsTo, RightWhereRegistered;
    forall u | u in cut.futs && cut.futs[u].pc.Torn?
      ensures u in cfg.g.nodes && At(cut.world, u.StorePath()).registered && !Holds(again, cut.world, u)
    {
      TornIsRegistered(cfg, w0, cut, u);
      RightUnlessTorn(cfg, w0, cut, u);
      ScratchIgnoresFlags(cfg, again, u);
    }
    forall u | u in cfg.g.nodes && At(cut.world, u.StorePath()).registered
      ensures Holds(again, cut.world, u) || (u in cut.futs && cut.futs[u].pc.Torn?)
    {
      RightUnlessTorn(cfg, w0, cut, u);
      ScratchIgnoresFlags(cfg, again, u);
    }
  }

  lemma TornIsRegistered(cfg: Config, w0: World, s: Sys, u: Unit)
    requires GoodConfig(cfg) && RunsTo(cfg, w0, s) && u in s.futs && s.futs[u].pc.Torn?
    ensures u in cfg.g.nodes && At(s.world, u.StorePath()).registered
  {
    hide GoodGraph, SchedInv, UnitsInv, ExpectedOutput, At;
    InvReachable(cfg, w0, s);
    StartedIsNode(cfg, w0, s, u);
    UnitAt(cfg, w0, s, u);
  }

  /** With everything registered and nothing selected for rebuild, no state of a run differs from the start. */
  lemma NothingToDo(cfg: Config, w0: World, s: Sys)
    requires GoodConfig(cfg) && RunsTo(cfg, w0, s)
    requires forall u :: u in cfg.g.nodes ==> !Needed(RebuildFlag(cfg, u), At(w0, u.StorePath()))
    ensures s.world == w0 && s.made == multiset{}
  {
    hide At, ExpectedOutput, GoodGraph, SchedInv, UnitsInv;
    InvReachable(cfg, w0, s);
    forall u | u in cfg.g.nodes
      ensures At(s.world, u.StorePath()) == At(w0, u.StorePath()) && s.made[u] == 0
    {
      UnitAt(cfg, w0, s, u);
    }
    forall p ensures At(s.world, p) == At(w0, p) {
      if u :| u in cfg.g.nodes && u.StorePath() == p {
      }
    }
    SameSlots(s.world, w0);
    forall u ensures s.made[u] == 0 {
      assert u !in cfg.g.nodes ==> u !in s.made;
    }
    assert s.made == multiset{};
  }

  /** A second run without rebuild flags changes nothing. */
  lemma SecondRunChangesNothing(cfg: Config, w0: World, s: Sys, again: Config, t: Sys)
    requires GoodConfig(cfg) && RunsTo(cfg, w0, s) && s.phase == Returned(Success)
    requires again == cfg.(rebuild := false, rebuildAll := false, maxJobs := again.maxJobs)
    requires RunsTo(again, s.world, t)
    ensures t.world == s.world && t.made == multiset{}
  {
    hide GoodGraph, ExpectedOutput;
    SuccessSettles(cfg, w0, s);
    forall u | u in again.g.nodes ensures !Needed(RebuildFlag(again, u), At(s.world, u.StorePath())) {
      assert Meets(cfg, w0, s.world, u);
    }
    NothingToDo(again, s.world, t);
  }

  // ---------------------------------------------------- one unit at a time

  /** A whole build of `u`, alone and successful. */
  ghost function BuildAlone(cfg: Config, w: World, u: Unit): World {
    if Needed(RebuildFlag(cfg, u), At(w, u.StorePath()))
    then Put(w, u.StorePath(), Slot(true, Some(Complete(cfg.produce(u, Inputs(w, u))))))
    else w
  }

  ghost function BuildInTurn(cfg: Config, w: World, us: seq<Unit>): World {
    if us == [] then w
    else BuildAlone(cfg, BuildInTurn(cfg, w, us[..|us| - 1]), us[|us| - 1])
  }

  function Elements(us: seq<Unit>): set<Unit> {
    set u | u in us
  }

  /** Dependencies come before their dependents and nothing comes twice. */
  ghost predicate InOrder(g: UnitDag, us: seq<Unit>)
    requires InRange(g)
  {
    && (forall u :: u in us ==> u in g.nodes)
    && (forall i, j :: 0 <= i < j < |us| ==> us[i] != us[j])
    && (forall i, v :: 0 <= i < |us| && (us[i], v) in Rel(g) ==> v in us[..i])
  }

  lemma BuildAloneStep(cfg: Config, w0: World, done: set<Unit>, w: World, u: Unit)
    requires GoodConfig(cfg) && Settled(cfg, w0, done, w) && done <= All(cfg.g)
    requires u in cfg.g.nodes && u !in done
    requires forall v :: v in cfg.g.nodes && (u, v) in Rel(cfg.g) ==> v in done
    ensures Settled(cfg, w0, done + {u}, BuildAlone(cfg, w, u))
  {
    hide At, Put, ExpectedOutput, GoodGraph, Rel, Inputs;
    var path, w' := u.StorePath(), BuildAlone(cfg, w, u);
    forall v | v in cfg.g.nodes ensures v.StorePath() == path ==> v == u {
      SameResultSameUnit(cfg.g, u, v);
    }
    assert At(w, path) == At(w0, path);
    OutputIsExpected(cfg, w0, w, u);
    var slot := Expected(cfg, w0, u);
    forall p ensures At(w', p) == if p == path then slot else At(w, p) {
      PutAt(w, path, slot, p);
    }
  }

  lemma {:induction false} BuildInTurnSettles(cfg: Config, w0: World, us: seq<Unit>)
    requires GoodConfig(cfg) && InOrder(cfg.g, us)
    ensures Settled(cfg, w0, Elements(us), BuildInTurn(cfg, w0, us))
    decreases |us|
  {
    hide GoodGraph, Expected, Rel, BuildAlone;
    if us != [] {
      var front, u := us[..|us| - 1], us[|us| - 1];
      assert InOrder(cfg.g, front) by {
        forall i, v | 0 <= i < |front| && (front[i], v) in Rel(cfg.g) ensures v in front[..i] {
          assert us[..i] == front[..i];
        }
      }
      BuildInTurnSettles(cfg, w0, front);
      BuildAloneStep(cfg, w0, Elements(front), BuildInTurn(cfg, w0, front), u);
      assert Elements(us) == Elements(front) + {u};
    }
  }

  /**
    Whenever no task is running (between rounds and at the end of a successful
    run) the store is the one obtained by building the finished units one at
    a time, in any order that respects dependencies.
   */
  lemma ConcurrentEqualsInTurn(cfg: Config, w0: World, s: Sys, us: seq<Unit>)
    requires GoodConfig(cfg) && RunsTo(cfg, w0, s) && s.futs == map[]
    requires InOrder(cfg.g, us) && Elements(us) == WithStatus(s.tasks, Finished)
    ensures s.world == BuildInTurn(cfg, w0, us)
  {
    hide GoodGraph, Settled, BuildInTurn, StoreInv, SchedInv, InOrder, Rel;
    InvReachable(cfg, w0, s);
    IdleRestSettled(cfg, w0, s, Elements(us));
    BuildInTurnSettles(cfg, w0, us);
    ElementsAreNodes(cfg.g, us);
    SettledIsUnique(cfg, w0, Elements(us), s.world, BuildInTurn(cfg, w0, us));
  }

  lemma ElementsAreNodes(g: UnitDag, us: seq<Unit>)
    requires InRange(g) && InOrder(g, us)
    ensures Elements(us) <= All(g)
  {
  }

  /** Every recorded dependency of a unit under construction is a finished child, registered as expected. */
  lemma RecordedIsBuiltFirst(cfg: Config, w0: World, s: Sys, u: Unit, d: MiqResult) returns (v: Unit)
    requires GoodConfig(cfg) && RunsTo(cfg, w0, s)
    requires u in s.futs && d in u.Deps()
    ensures v in cfg.g.nodes && v.Result() == d && (u, v) in Rel(cfg.g)
    ensures v in s.tasks && s.tasks[v] == Finished
    ensures At(s.world, StorePathOf(d)) == Expected(cfg, w0, v) && At(s.world, StorePathOf(d)).registered
    ensures SoundSlot(At(w0, StorePathOf(d))) ==> SoundSlot(At(s.world, StorePathOf(d)))
    ensures RightWhereKept(cfg, w0) ==> Holds(cfg, s.world, v)
  {
    hide SchedInv, StoreInv, GoodGraph, Expected, RightWhereKept;
    InvReachable(cfg, w0, s);
    StartedIsNode(cfg, w0, s, u);
    v := DepNode(cfg.g, u, d);
    EdgePlus(Rel(cfg.g), u, v);
    DependenciesFirst(cfg, w0, s, u, v);
    if RightWhereKept(cfg, w0) {
      ExpectedIsScratch(cfg, w0, v);
    }
  }
}
