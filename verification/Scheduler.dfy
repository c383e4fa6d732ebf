/**
  `_main` of src/build.rs as a machine: the scan over the graph, the spawned
  tasks and the drain are interleaved in any order the program allows. A run
  is any sequence of actions; an action that is not enabled changes nothing.
 */
module Scheduler {
  import opened Units
  import opened Graphs
  import opened Waves
  import opened Database
  import opened Tasks

  datatype BuildTask = Waiting | Building | Finished

  const MAX_BUILD_ITERATIONS: nat := 1000

  /** `produce` is what a build yields from what it finds of its dependencies. */
  datatype Config = Config(
    g: UnitDag,
    root: Unit,
    rebuild: bool,
    rebuildAll: bool,
    maxJobs: nat,
    produce: (Unit, map<MiqResult, File>) -> string)

  datatype RunResult = Success | SentryReached(index: nat) | TaskFailed(unit: Unit)

  datatype Phase = Scanning(index: nat) | Draining | Returned(result: RunResult)

  /** `scans` and `made` record the completed rounds and the productions; the program keeps neither. */
  datatype Sys = Sys(
    tasks: map<Unit, BuildTask>,
    futs: map<Unit, Task>,
    sentry: nat,
    scans: nat,
    phase: Phase,
    world: World,
    made: multiset<Unit>)

  /** `left` is the number of partial writes of the task, should one be spawned. */
  datatype Action =
    | Visit(left: nat)
    | EndScan
    | Step(unit: Unit, event: Event)
    | Collect(unit: Unit)
    | EndDrain

  // ------------------------------------------------------------ the machine

  /** `--rebuild` selects the root alone and wins over `--rebuild-all`, which selects packages. */
  function RebuildFlag(cfg: Config, u: Unit): bool {
    if cfg.rebuild then u == cfg.root else cfg.rebuildAll && u.PackageUnit?
  }

  /** What a build finds of the recorded dependencies. */
  function Inputs(w: World, u: Unit): map<MiqResult, File> {
    ReadSlots(map d | d in u.Deps() :: At(w, StorePathOf(d)))
  }

  /** It finds what is below their store paths, finished or not, registered or not, and nothing else. */
  lemma InputsAreFiles(w: World, u: Unit, d: MiqResult)
    ensures d in Inputs(w, u) <==> d in u.Deps() && StorePathOf(d) in w.files
    ensures d in Inputs(w, u) ==> Inputs(w, u)[d] == w.files[StorePathOf(d)]
  {
  }

  predicate AllDepsBuilt(g: UnitDag, tasks: map<Unit, BuildTask>, index: nat)
    requires forall e :: e in g.edges ==> e.1 < |g.nodes|
  {
    forall e :: e in g.edges && e.0 == index ==>
      g.nodes[e.1] in tasks && tasks[g.nodes[e.1]] == Finished
  }

  function PackagesBuilding(tasks: map<Unit, BuildTask>): set<Unit> {
    set u | u in tasks && u.PackageUnit? && tasks[u] == Building
  }

  function WithStatus(tasks: map<Unit, BuildTask>, status: BuildTask): set<Unit> {
    set u | u in tasks && tasks[u] == status
  }

  function Init(cfg: Config, w: World): Sys {
    Sys(map[cfg.root := Waiting], map[], 0, 0, Scanning(0), w, multiset{})
  }

  function DoVisit(cfg: Config, s: Sys, index: nat, left: nat): Sys
    requires index < |cfg.g.nodes| && forall e :: e in cfg.g.edges ==> e.1 < |cfg.g.nodes|
  {
    var u := cfg.g.nodes[index];
    if s.sentry > MAX_BUILD_ITERATIONS then
      s.(phase := Returned(SentryReached(index)))
    else if u in s.tasks && s.tasks[u] != Waiting then
      s.(sentry := s.sentry + 1, phase := Scanning(index + 1))
    else if AllDepsBuilt(cfg.g, s.tasks, index)
            && (u.PackageUnit? ==> |PackagesBuilding(s.tasks)| < cfg.maxJobs) then
      s.(sentry := s.sentry + 1, phase := Scanning(index + 1),
         tasks := s.tasks[u := Building], futs := s.futs[u := Spawned(left)])
    else
      s.(sentry := s.sentry + 1, phase := Scanning(index + 1), tasks := s.tasks[u := Waiting])
  }

  function DoStep(cfg: Config, s: Sys, u: Unit, e: Event): Sys
    requires u in s.futs
  {
    var output := cfg.produce(u, Inputs(s.world, u));
    var (t, slot) := StepTask(u, RebuildFlag(cfg, u), output, s.futs[u], e, At(s.world, u.StorePath()));
    s.(futs := s.futs[u := t],
       world := Put(s.world, u.StorePath(), slot),
       made := if Produces(s.futs[u], e) then s.made + multiset{u} else s.made)
  }

  function DoCollect(s: Sys, u: Unit): Sys
    requires u in s.futs
  {
    if s.futs[u].HasFailed() then
      s.(phase := Returned(TaskFailed(u)))
    else
      s.(tasks := s.tasks[u := Finished], futs := s.futs - {u})
  }

  function DoEndDrain(s: Sys): Sys {
    s.(scans := s.scans + 1,
       phase := if forall u :: u in s.tasks ==> s.tasks[u] == Finished then Returned(Success) else Scanning(0))
  }

  function Do(cfg: Config, s: Sys, a: Action): Sys
    requires forall e :: e in cfg.g.edges ==> e.1 < |cfg.g.nodes|
  {
    match a
    case Visit(left) =>
      if s.phase.Scanning? && s.phase.index < |cfg.g.nodes| then DoVisit(cfg, s, s.phase.index, left) else s
    case EndScan =>
      if s.phase == Scanning(|cfg.g.nodes|) then s.(phase := Draining) else s
    case Step(u, e) =>
      if u in s.futs then DoStep(cfg, s, u, e) else s
    case Collect(u) =>
      if s.phase.Draining? && u in s.futs && s.futs[u].Ended() then DoCollect(s, u) else s
    case EndDrain =>
      if s.phase.Draining? && s.futs == map[] then DoEndDrain(s) else s
  }

  ghost predicate Next(cfg: Config, s: Sys, t: Sys)
    requires forall e :: e in cfg.g.edges ==> e.1 < |cfg.g.nodes|
  {
    exists a :: t == Do(cfg, s, a)
  }

  /** The states of a run that starts with the store `w`, one action apart. */
  ghost predicate IsRun(cfg: Config, w: World, run: seq<Sys>)
    requires forall e :: e in cfg.g.edges ==> e.1 < |cfg.g.nodes|
  {
    && |run| >= 1 && run[0] == Init(cfg, w)
    && forall i, j :: 0 <= i && j == i + 1 && j < |run| ==> Next(cfg, run[i], run[j])
  }

  /** `s` occurs in some run that starts with the store `w`. */
  ghost predicate RunsTo(cfg: Config, w: World, s: Sys)
    requires forall e :: e in cfg.g.edges ==> e.1 < |cfg.g.nodes|
  {
    exists run :: IsRun(cfg, w, run) && run[|run| - 1] == s
  }

  lemma ReachStart(cfg: Config, w: World)
    requires forall e :: e in cfg.g.edges ==> e.1 < |cfg.g.nodes|
    ensures RunsTo(cfg, w, Init(cfg, w))
  {
    assert IsRun(cfg, w, [Init(cfg, w)]);
  }

  lemma ReachStep(cfg: Config, w: World, s: Sys, a: Action)
    requires forall e :: e in cfg.g.edges ==> e.1 < |cfg.g.nodes|
    requires RunsTo(cfg, w, s)
    ensures RunsTo(cfg, w, Do(cfg, s, a))
  {
    hide Do, Init;
    var run :| IsRun(cfg, w, run) && run[|run| - 1] == s;
    assert Next(cfg, s, Do(cfg, s, a));
    assert IsRun(cfg, w, run + [Do(cfg, s, a)]);
  }

  // --------------------------------------------------- scheduling invariant

  ghost predicate GoodConfig(cfg: Config) {
    && InRange(cfg.g) && DistinctNodes(cfg.g) && |cfg.g.nodes| > 0
    && GoodGraph(cfg.g)
    && cfg.g.nodes[0] == cfg.root
  }

  /** In a scan at node `index` over the finished units `a`: running is what the scan has picked. */
  ghost predicate ScanState(cfg: Config, tasks: map<Unit, BuildTask>, running: set<Unit>, a: set<Unit>, index: nat)
    requires InRange(cfg.g)
  {
    && index <= |cfg.g.nodes|
    && WithStatus(tasks, Finished) == a
    && running == Picked(cfg.g, cfg.maxJobs, a, index)
    && (forall j :: 0 <= j < index ==> cfg.g.nodes[j] in tasks)
  }

  /** In a drain: the wave over `a` is split into finished and running units. */
  ghost predicate DrainState(cfg: Config, tasks: map<Unit, BuildTask>, running: set<Unit>, a: set<Unit>)
    requires InRange(cfg.g)
  {
    && a <= WithStatus(tasks, Finished)
    && WithStatus(tasks, Finished) + running == a + Wave(cfg.g, cfg.maxJobs, a)
    && tasks.Keys == All(cfg.g)
  }

  ghost predicate TasksInv(cfg: Config, tasks: map<Unit, BuildTask>, running: set<Unit>) {
    tasks.Keys <= All(cfg.g) && running == WithStatus(tasks, Building)
  }

  ghost predicate PhaseInv(cfg: Config, s: Sys, running: set<Unit>, a: set<Unit>)
    requires InRange(cfg.g)
  {
    var n := |cfg.g.nodes|;
    match s.phase
    case Scanning(index) =>
      && a != All(cfg.g) && ScanState(cfg, s.tasks, running, a, index)
      && s.sentry == n * s.scans + index
      && (s.scans > 0 ==> s.tasks.Keys == All(cfg.g))
    case Draining =>
      a != All(cfg.g) && DrainState(cfg, s.tasks, running, a) && s.sentry == n * (s.scans + 1)
    case Returned(Success) =>
      && s.scans > 0 && After(cfg.g, cfg.maxJobs, s.scans - 1) != All(cfg.g)
      && a == All(cfg.g) && WithStatus(s.tasks, Finished) == a && running == {}
      && s.sentry == n * s.scans
    case Returned(SentryReached(index)) =>
      && a != All(cfg.g) && index < n && ScanState(cfg, s.tasks, running, a, index)
      && s.sentry == n * s.scans + index == MAX_BUILD_ITERATIONS + 1
    case Returned(TaskFailed(u)) =>
      && a != All(cfg.g) && DrainState(cfg, s.tasks, running, a) && s.sentry == n * (s.scans + 1)
      && u in s.futs && s.futs[u].HasFailed()
  }

  ghost predicate SchedInv(cfg: Config, s: Sys)
    requires InRange(cfg.g)
  {
    && TasksInv(cfg, s.tasks, s.futs.Keys)
    && s.sentry <= MAX_BUILD_ITERATIONS + 1
    && PhaseInv(cfg, s, s.futs.Keys, After(cfg.g, cfg.maxJobs, s.scans))
  }

  lemma InitSched(cfg: Config, w: World)
    requires GoodConfig(cfg)
    ensures SchedInv(cfg, Init(cfg, w))
  {
    assert cfg.root in All(cfg.g);
  }

  /** The children test of the scan agrees with readiness. */
  lemma DepsBuiltIsReady(g: UnitDag, tasks: map<Unit, BuildTask>, a: set<Unit>, index: nat)
    requires InRange(g) && DistinctNodes(g) && index < |g.nodes|
    requires WithStatus(tasks, Finished) == a && g.nodes[index] !in a
    ensures AllDepsBuilt(g, tasks, index) <==> Ready(g, a, g.nodes[index])
  {
    var u := g.nodes[index];
    if AllDepsBuilt(g, tasks, index) {
      forall v | (u, v) in Rel(g) ensures v in a {
        var e :| e in g.edges && g.nodes[e.0] == u && g.nodes[e.1] == v;
        assert e.0 == index;
      }
    }
    if Ready(g, a, u) {
      forall e | e in g.edges && e.0 == index ensures g.nodes[e.1] in a {
        assert (u, g.nodes[e.1]) in Rel(g);
      }
    }
  }

  lemma FinishedNotReady(g: UnitDag, a: set<Unit>, u: Unit)
    requires InRange(g) && u in a
    ensures !Ready(g, a, u)
  {
  }

  /** The unit under visit has not been started by this scan. */
  lemma NotYetPicked(g: UnitDag, maxJobs: nat, a: set<Unit>, index: nat)
    requires InRange(g) && DistinctNodes(g) && index < |g.nodes|
    ensures g.nodes[index] !in Picked(g, maxJobs, a, index)
  {
    PickedSound(g, maxJobs, a, index);
    assert g.nodes[index] !in g.nodes[..index];
  }

  lemma StatusUpdate(tasks: map<Unit, BuildTask>, u: Unit, status: BuildTask, other: BuildTask)
    ensures WithStatus(tasks[u := status], other) ==
      if status == other then WithStatus(tasks, other) + {u} else WithStatus(tasks, other) - {u}
  {
  }

  /** The program's test for starting a unit is the specification's. */
  lemma StartsExactly(cfg: Config, tasks: map<Unit, BuildTask>, running: set<Unit>, a: set<Unit>, index: nat)
    requires GoodConfig(cfg) && index < |cfg.g.nodes|
    requires TasksInv(cfg, tasks, running) && ScanState(cfg, tasks, running, a, index)
    requires cfg.g.nodes[index] !in a
    ensures var u := cfg.g.nodes[index];
      (AllDepsBuilt(cfg.g, tasks, index) && (u.PackageUnit? ==> |PackagesBuilding(tasks)| < cfg.maxJobs))
      <==> u in Picked(cfg.g, cfg.maxJobs, a, index + 1)
  {
    hide Ready, Rel, GoodGraph, AllDepsBuilt;
    NotYetPicked(cfg.g, cfg.maxJobs, a, index);
    DepsBuiltIsReady(cfg.g, tasks, a, index);
    assert PackagesBuilding(tasks) == Packages(running);
  }

  lemma StatusMeans(tasks: map<Unit, BuildTask>, u: Unit, status: BuildTask)
    ensures u in WithStatus(tasks, status) <==> u in tasks && tasks[u] == status
  {
  }

  /** The task map after a visit that decides the status of its unit. */
  lemma VisitDecides(cfg: Config, tasks: map<Unit, BuildTask>, running: set<Unit>, a: set<Unit>, index: nat,
                     status: BuildTask)
    requires GoodConfig(cfg) && index < |cfg.g.nodes|
    requires TasksInv(cfg, tasks, running) && ScanState(cfg, tasks, running, a, index)
    requires cfg.g.nodes[index] !in a && status != Finished
    requires status == Building <==> cfg.g.nodes[index] in Picked(cfg.g, cfg.maxJobs, a, index + 1)
    ensures var running' := if status == Building then running + {cfg.g.nodes[index]} else running;
      && TasksInv(cfg, tasks[cfg.g.nodes[index] := status], running')
      && ScanState(cfg, tasks[cfg.g.nodes[index] := status], running', a, index + 1)
  {
    hide Ready, Rel, GoodGraph, WithStatus, DistinctNodes;
    var u := cfg.g.nodes[index];
    NotYetPicked(cfg.g, cfg.maxJobs, a, index);
    StatusUpdate(tasks, u, status, Finished);
    StatusUpdate(tasks, u, status, Building);
  }

  /** One visit of the scan picks what the specification of a scan picks. */
  lemma VisitPicks(cfg: Config, s: Sys, a: set<Unit>, index: nat, left: nat)
    requires GoodConfig(cfg) && index < |cfg.g.nodes| && s.sentry <= MAX_BUILD_ITERATIONS
    requires TasksInv(cfg, s.tasks, s.futs.Keys) && ScanState(cfg, s.tasks, s.futs.Keys, a, index)
    ensures var s' := DoVisit(cfg, s, index, left);
      TasksInv(cfg, s'.tasks, s'.futs.Keys) && ScanState(cfg, s'.tasks, s'.futs.Keys, a, index + 1)
  {
    hide Ready, Rel, GoodGraph, AllDepsBuilt, PackagesBuilding, DistinctNodes, WithStatus;
    var u := cfg.g.nodes[index];
    NotYetPicked(cfg.g, cfg.maxJobs, a, index);
    StatusMeans(s.tasks, u, Finished);
    StatusMeans(s.tasks, u, Building);
    if u in a {
      FinishedNotReady(cfg.g, a, u);
    } else {
      hide ScanState, TasksInv;
      StartsExactly(cfg, s.tasks, s.futs.Keys, a, index);
      var status := if u in Picked(cfg.g, cfg.maxJobs, a, index + 1) then Building else Waiting;
      VisitDecides(cfg, s.tasks, s.futs.Keys, a, index, status);
      assert s.futs[u := Spawned(left)].Keys == s.futs.Keys + {u};
    }
  }

  lemma VisitSched(cfg: Config, s: Sys, left: nat)
    requires GoodConfig(cfg) && SchedInv(cfg, s)
    ensures SchedInv(cfg, Do(cfg, s, Visit(left)))
  {
    hide After, ScanState, DrainState, TasksInv, GoodGraph, AllDepsBuilt, PackagesBuilding;
    if s.phase.Scanning? && s.phase.index < |cfg.g.nodes| && s.sentry <= MAX_BUILD_ITERATIONS {
      VisitPicks(cfg, s, After(cfg.g, cfg.maxJobs, s.scans), s.phase.index, left);
    }
  }

  lemma EndScanSched(cfg: Config, s: Sys)
    requires GoodConfig(cfg) && SchedInv(cfg, s)
    ensures SchedInv(cfg, Do(cfg, s, EndScan))
  {
    hide After, Picked, Rel, GoodGraph;
    if s.phase == Scanning(|cfg.g.nodes|) {
      forall u | u in All(cfg.g) ensures u in s.tasks {
        var j := IndexOf(cfg.g, u);
      }
    }
  }

  lemma StepSched(cfg: Config, s: Sys, u: Unit, e: Event)
    requires GoodConfig(cfg) && SchedInv(cfg, s)
    ensures SchedInv(cfg, Do(cfg, s, Step(u, e)))
  {
    hide After, ScanState, DrainState, TasksInv, GoodGraph, Put, Inputs;
    if u in s.futs {
      assert DoStep(cfg, s, u, e).futs.Keys == s.futs.Keys;
    }
  }

  lemma CollectSched(cfg: Config, s: Sys, u: Unit)
    requires GoodConfig(cfg) && SchedInv(cfg, s)
    ensures SchedInv(cfg, Do(cfg, s, Collect(u)))
  {
    hide After, Wave, ScanState, GoodGraph;
    if s.phase.Draining? && u in s.futs && s.futs[u].Ended() && !s.futs[u].HasFailed() {
      var s' := DoCollect(s, u);
      assert WithStatus(s'.tasks, Finished) == WithStatus(s.tasks, Finished) + {u};
      assert WithStatus(s'.tasks, Building) == WithStatus(s.tasks, Building) - {u};
    }
  }

  lemma EndDrainSched(cfg: Config, s: Sys)
    requires GoodConfig(cfg) && SchedInv(cfg, s)
    ensures SchedInv(cfg, Do(cfg, s, EndDrain))
  {
    hide After, Wave, GoodGraph, Rel;
    if s.phase.Draining? && s.futs == map[] {
      AfterStep(cfg.g, cfg.maxJobs, s.scans);
      assert (forall u :: u in s.tasks ==> s.tasks[u] == Finished) <==>
        WithStatus(s.tasks, Finished) == All(cfg.g);
    }
  }

  lemma SchedStep(cfg: Config, s: Sys, a: Action)
    requires GoodConfig(cfg) && SchedInv(cfg, s)
    ensures SchedInv(cfg, Do(cfg, s, a))
  {
    hide SchedInv, Do;
    match a
    case Visit(left) => VisitSched(cfg, s, left);
    case EndScan => EndScanSched(cfg, s);
    case Step(u, e) => StepSched(cfg, s, u, e);
    case Collect(u) => CollectSched(cfg, s, u);
    case EndDrain => EndDrainSched(cfg, s);
  }

  /** Running units belong to the wave over the units finished before the round. */
  lemma RunningInWave(cfg: Config, s: Sys)
    requires GoodConfig(cfg) && SchedInv(cfg, s)
    ensures var a := After(cfg.g, cfg.maxJobs, s.scans);
      && a <= WithStatus(s.tasks, Finished) <= a + Wave(cfg.g, cfg.maxJobs, a)
      && s.futs.Keys <= Wave(cfg.g, cfg.maxJobs, a)
  {
    hide After, Rel, GoodGraph;
    var a := After(cfg.g, cfg.maxJobs, s.scans);
    assert s.futs.Keys !! WithStatus(s.tasks, Finished);
    match s.phase
    case Scanning(index) => PickedMonotone(cfg.g, cfg.maxJobs, a, index, |cfg.g.nodes|);
    case Returned(SentryReached(index)) => PickedMonotone(cfg.g, cfg.maxJobs, a, index, |cfg.g.nodes|);
    case _ =>
  }

  lemma {:induction false} PickedMonotone(g: UnitDag, maxJobs: nat, a: set<Unit>, i: nat, j: nat)
    requires InRange(g) && i <= j <= |g.nodes|
    ensures Picked(g, maxJobs, a, i) <= Picked(g, maxJobs, a, j)
    decreases j
  {
    if i < j {
      PickedMonotone(g, maxJobs, a, i, j - 1);
    }
  }

  /** Whatever has started has all its dependencies finished. */
  lemma StartedAfterDeps(cfg: Config, s: Sys, u: Unit, v: Unit)
    requires GoodConfig(cfg) && SchedInv(cfg, s)
    requires (u in s.futs || u in WithStatus(s.tasks, Finished)) && (u, v) in Rel(cfg.g)
    ensures v in WithStatus(s.tasks, Finished)
  {
    hide SchedInv, After, Wave, Rel, GoodGraph;
    RunningInWave(cfg, s);
    AfterClosed(cfg.g, cfg.maxJobs, s.scans);
    WaveSound(cfg.g, cfg.maxJobs, After(cfg.g, cfg.maxJobs, s.scans));
  }

  /** At most `maxJobs` packages are ever being built. */
  lemma JobCap(cfg: Config, s: Sys)
    requires GoodConfig(cfg) && SchedInv(cfg, s)
    ensures |PackagesBuilding(s.tasks)| <= cfg.maxJobs
  {
    hide PhaseInv, After, Wave, Rel, GoodGraph;
    RunningInWave(cfg, s);
    var wave := Wave(cfg.g, cfg.maxJobs, After(cfg.g, cfg.maxJobs, s.scans));
    WaveSound(cfg.g, cfg.maxJobs, After(cfg.g, cfg.maxJobs, s.scans));
    assert PackagesBuilding(s.tasks) <= Packages(wave);
    SubsetSize(PackagesBuilding(s.tasks), Packages(wave));
  }

  lemma {:induction false} SchedRun(cfg: Config, w: World, run: seq<Sys>, k: nat)
    requires GoodConfig(cfg) && IsRun(cfg, w, run) && k < |run|
    ensures SchedInv(cfg, run[k])
  {
    hide SchedInv, GoodGraph, Do;
    if k == 0 {
      InitSched(cfg, w);
    } else {
      SchedRun(cfg, w, run, k - 1);
      assert Next(cfg, run[k - 1], run[k]);
      var a :| run[k] == Do(cfg, run[k - 1], a);
      SchedStep(cfg, run[k - 1], a);
    }
  }

  /** The scheduling invariant holds in every run, whatever the store and the outcomes of the tasks. */
  lemma SchedReachable(cfg: Config, w: World, s: Sys)
    requires GoodConfig(cfg) && RunsTo(cfg, w, s)
    ensures SchedInv(cfg, s)
  {
    hide SchedInv;
    var run :| IsRun(cfg, w, run) && run[|run| - 1] == s;
    SchedRun(cfg, w, run, |run| - 1);
  }
}
