/**
  Runs in which every operation of every task goes through: no task fails, and
  wherever such a run stands it can be continued until `_main` returns.
 */
module Progress {
  import opened Units
  import opened Graphs
  import opened Waves
  import opened Database
  import opened Tasks
  import opened Scheduler

  /** The operations of tasks succeed; partial writes are part of success. */
  predicate Smooth(a: Action) {
    a.Step? ==> a.event.Go? || a.event.Wrote?
  }

  ghost predicate SmoothNext(cfg: Config, s: Sys, t: Sys)
    requires forall e :: e in cfg.g.edges ==> e.1 < |cfg.g.nodes|
  {
    exists a :: Smooth(a) && t == Do(cfg, s, a)
  }

  ghost predicate IsSmoothRun(cfg: Config, w: World, run: seq<Sys>)
    requires forall e :: e in cfg.g.edges ==> e.1 < |cfg.g.nodes|
  {
    && |run| >= 1 && run[0] == Init(cfg, w)
    && forall i, j :: 0 <= i && j == i + 1 && j < |run| ==> SmoothNext(cfg, run[i], run[j])
  }

  /** `s` occurs in a run from the store `w` in which all tasks succeed. */
  ghost predicate RunsSmoothlyTo(cfg: Config, w: World, s: Sys)
    requires forall e :: e in cfg.g.edges ==> e.1 < |cfg.g.nodes|
  {
    exists run :: IsSmoothRun(cfg, w, run) && run[|run| - 1] == s
  }

  lemma SmoothStart(cfg: Config, w: World)
    requires forall e :: e in cfg.g.edges ==> e.1 < |cfg.g.nodes|
    ensures RunsSmoothlyTo(cfg, w, Init(cfg, w))
  {
    assert IsSmoothRun(cfg, w, [Init(cfg, w)]);
  }

  lemma SmoothStep(cfg: Config, w: World, s: Sys, a: Action)
    requires forall e :: e in cfg.g.edges ==> e.1 < |cfg.g.nodes|
    requires RunsSmoothlyTo(cfg, w, s) && Smooth(a)
    ensures RunsSmoothlyTo(cfg, w, Do(cfg, s, a))
  {
    hide Do, Init, Smooth;
    var run :| IsSmoothRun(cfg, w, run) && run[|run| - 1] == s;
    assert SmoothNext(cfg, s, Do(cfg, s, a));
    assert IsSmoothRun(cfg, w, run + [Do(cfg, s, a)]);
  }

  lemma SmoothIsRun(cfg: Config, w: World, s: Sys)
    requires forall e :: e in cfg.g.edges ==> e.1 < |cfg.g.nodes|
    requires RunsSmoothlyTo(cfg, w, s)
    ensures RunsTo(cfg, w, s)
  {
    hide Do, Init, Smooth;
    var run :| IsSmoothRun(cfg, w, run) && run[|run| - 1] == s;
    forall i, j | 0 <= i && j == i + 1 && j < |run| ensures Next(cfg, run[i], run[j]) {
      assert SmoothNext(cfg, run[i], run[j]);
    }
    assert IsRun(cfg, w, run);
  }

  // ------------------------------------------------------- nothing fails

  /** No task has failed, and none is about to: a task that inspects its output will find one. */
  ghost predicate NoFailure(s: Sys) {
    && !(s.phase.Returned? && s.phase.result.TaskFailed?)
    && forall u :: u in s.futs ==>
      !s.futs[u].HasFailed() && (s.futs[u].pc.Inspect? ==> At(s.world, u.StorePath()).file.Some?)
  }

  lemma NoFailureInStep(cfg: Config, s: Sys, u: Unit, e: Event)
    requires GoodConfig(cfg) && SchedInv(cfg, s) && NoFailure(s) && u in s.futs && Smooth(Step(u, e))
    ensures NoFailure(DoStep(cfg, s, u, e))
  {
    hide GoodGraph, PhaseInv, Put, Inputs, At;
    var s' := DoStep(cfg, s, u, e);
    var path, slot := u.StorePath(), At(s.world, u.StorePath());
    var slot' := StepTask(u, RebuildFlag(cfg, u), cfg.produce(u, Inputs(s.world, u)), s.futs[u], e, slot).1;
    forall v | v in s'.futs
      ensures !s'.futs[v].HasFailed() && (s'.futs[v].pc.Inspect? ==> At(s'.world, v.StorePath()).file.Some?)
    {
      assert v in All(cfg.g) && u in All(cfg.g);
      SameResultSameUnit(cfg.g, u, v);
      PutAt(s.world, path, slot', v.StorePath());
    }
  }

  lemma NoFailureNext(cfg: Config, s: Sys, a: Action)
    requires GoodConfig(cfg) && SchedInv(cfg, s) && NoFailure(s) && Smooth(a)
    ensures NoFailure(Do(cfg, s, a))
  {
    hide SchedInv, GoodGraph, DoStep, AllDepsBuilt, PackagesBuilding, At;
    if a.Step? && a.unit in s.futs {
      NoFailureInStep(cfg, s, a.unit, a.event);
    }
  }

  lemma {:induction false} NoFailureInRun(cfg: Config, w: World, run: seq<Sys>, k: nat)
    requires GoodConfig(cfg) && IsSmoothRun(cfg, w, run) && k < |run|
    ensures SchedInv(cfg, run[k]) && NoFailure(run[k])
  {
    hide SchedInv, GoodGraph, Do, Smooth;
    if k == 0 {
      InitSched(cfg, w);
    } else {
      NoFailureInRun(cfg, w, run, k - 1);
      assert SmoothNext(cfg, run[k - 1], run[k]);
      var a :| Smooth(a) && run[k] == Do(cfg, run[k - 1], a);
      SchedStep(cfg, run[k - 1], a);
      NoFailureNext(cfg, run[k - 1], a);
    }
  }

  /** A run whose operations all go through never returns a failed task. */
  lemma SmoothNeverFails(cfg: Config, w: World, s: Sys)
    requires GoodConfig(cfg) && RunsSmoothlyTo(cfg, w, s)
    ensures SchedInv(cfg, s) && NoFailure(s)
  {
    hide SchedInv, NoFailure, GoodGraph;
    var run :| IsSmoothRun(cfg, w, run) && run[|run| - 1] == s;
    NoFailureInRun(cfg, w, run, |run| - 1);
  }

  // ---------------------------------------------------- reaching the end

  /** How far a round still is from its end, with the sentry fixed. */
  function PhaseRank(n: nat, phase: Phase): nat {
    match phase
    case Scanning(index) => if index == n then 3 else 1
    case Draining => 2
    case Returned(_) => 0
  }

  /** The move that brings a run closer to its end. */
  function Onward(cfg: Config, s: Sys, u: Unit): Action {
    match s.phase
    case Scanning(index) => if index == |cfg.g.nodes| then EndScan else Visit(0)
    case _ =>
      if s.futs == map[] then EndDrain
      else if u in s.futs && s.futs[u].Ended() then Collect(u)
      else Step(u, Go)
  }

  lemma OnwardIsCloser(cfg: Config, s: Sys, u: Unit)
    requires GoodConfig(cfg) && SchedInv(cfg, s) && NoFailure(s) && !s.phase.Returned?
    requires s.futs != map[] ==> u in s.futs
    ensures var t := Do(cfg, s, Onward(cfg, s, u)); var n := |cfg.g.nodes|;
      || t.sentry > s.sentry
      || (t.sentry == s.sentry && PhaseRank(n, t.phase) < PhaseRank(n, s.phase))
      || (t.sentry == s.sentry && t.phase == s.phase && TotalFuel(cfg.g.nodes, t.futs) < TotalFuel(cfg.g.nodes, s.futs))
  {
    hide GoodGraph, DistinctNodes, ScanState, DrainState, StepTask, Put, At, Inputs;
    hide AllDepsBuilt, PackagesBuilding, After;
    if s.phase.Draining? && s.futs != map[] {
      assert u in All(cfg.g);
      if s.futs[u].Ended() {
        FuelDrops(cfg.g.nodes, s.futs, s.futs - {u}, u);
      } else {
        var output := cfg.produce(u, Inputs(s.world, u));
        StepUsesFuel(u, RebuildFlag(cfg, u), output, s.futs[u], Go, At(s.world, u.StorePath()));
        FuelDrops(cfg.g.nodes, s.futs, DoStep(cfg, s, u, Go).futs, u);
      }
    } else if s.phase.Scanning? {
      IndexInRange(cfg, s);
    }
  }

  lemma IndexInRange(cfg: Config, s: Sys)
    requires InRange(cfg.g) && SchedInv(cfg, s) && s.phase.Scanning?
    ensures s.phase.index <= |cfg.g.nodes|
  {
  }

  /** From any state of a run without failures, the run can be completed without failures. */
  lemma {:induction false} RunCompletes(cfg: Config, w: World, s: Sys) returns (t: Sys)
    requires GoodConfig(cfg) && RunsSmoothlyTo(cfg, w, s)
    ensures RunsSmoothlyTo(cfg, w, t) && t.phase.Returned?
    decreases MAX_BUILD_ITERATIONS + 2 - s.sentry, PhaseRank(|cfg.g.nodes|, s.phase), TotalFuel(cfg.g.nodes, s.futs)
  {
    hide Do, GoodGraph, PhaseInv, RunsSmoothlyTo, NoFailure;
    if s.phase.Returned? {
      t := s;
    } else {
      SmoothNeverFails(cfg, w, s);
      var u := cfg.root;
      if s.futs != map[] {
        u :| u in s.futs;
      }
      OnwardIsCloser(cfg, s, u);
      SmoothStep(cfg, w, s, Onward(cfg, s, u));
      SmoothNeverFails(cfg, w, Do(cfg, s, Onward(cfg, s, u)));
      t := RunCompletes(cfg, w, Do(cfg, s, Onward(cfg, s, u)));
    }
  }
}
