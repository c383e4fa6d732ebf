/**
  `Args::_main` of src/build.rs: resolve the graph, then alternate a scan that
  spawns tasks with a drain that waits for all of them. The tasks make progress
  at any moment; `*` and `:|` stand for the choices of the async runtime and
  of the outside world, so what is proved holds for all of them.
 */
module Build {
  import opened Common
  import opened Units
  import opened Graphs
  import opened Waves
  import opened Resolver
  import opened Database
  import opened Tasks
  import opened Scheduler
  import opened Contents
  import opened Guarantees

  datatype Args = Args(rebuild: bool, rebuildAll: bool, maxJobs: Option<nat>)

  datatype BuildError = Unresolved(error: ResolveError) | SentryFired | BuildFailed(unit: Unit)

  // --------------------------------------------------- the locals of _main

  /** The state `_main` works on, and the run it is in the middle of. */
  class BuildRun {
    const cfg: Config
    const conn: DbConnection
    ghost const start: World
    var buildTasks: map<Unit, BuildTask>
    var futs: map<Unit, Task>
    var sentry: nat
    ghost var scans: nat
    ghost var made: multiset<Unit>

    constructor (cfg: Config, conn: DbConnection)
      requires conn.Valid() && InRange(cfg.g) && cfg.root in cfg.g.nodes
      ensures this.cfg == cfg && this.conn == conn && start == conn.View()
      ensures Valid(Scanning(0)) && buildTasks == map[cfg.root := Waiting] && sentry == 0
    {
      this.cfg, this.conn, this.start := cfg, conn, conn.View();
      this.buildTasks := map[cfg.root := Waiting];
      this.futs, this.sentry := map[], 0;
      this.scans, this.made := 0, multiset{};
      new;
      ReachStart(cfg, start);
    }

    ghost function State(phase: Phase): Sys
      reads this, conn
    {
      Sys(buildTasks, futs, sentry, scans, phase, conn.View(), made)
    }

    /** The fields are a state of a run of the machine, in this phase. */
    ghost predicate Valid(phase: Phase)
      reads this, conn
    {
      && conn.Valid() && InRange(cfg.g)
      && futs.Keys <= All(cfg.g)
      && RunsTo(cfg, start, State(phase))
    }

    /** One step of one running task. */
    method StepTaskOf(u: Unit, ghost phase: Phase)
      requires Valid(phase) && u in futs && !futs[u].Ended()
      modifies this`futs, this`made, conn
      ensures Valid(phase) && futs.Keys == old(futs.Keys)
      ensures forall v :: v in futs && v != u ==> futs[v] == old(futs)[v]
      ensures TotalFuel(cfg.g.nodes, futs) < TotalFuel(cfg.g.nodes, old(futs))
    {
      hide StepTask, Put, RunsTo, Inputs;
      var event: Event := *;
      ghost var before := State(phase);
      ReachStep(cfg, start, before, Step(u, event));
      var output := cfg.produce(u, Inputs(World((set r | r in conn.rows), conn.files), u));
      var task := Advance(conn, u, RebuildFlag(cfg, u), output, futs[u], event);
      StepUsesFuel(u, RebuildFlag(cfg, u), output, futs[u], event, At(before.world, u.StorePath()));
      made := if Produces(futs[u], event) then made + multiset{u} else made;
      FuelDrops(cfg.g.nodes, futs, futs[u := task], u);
      futs := futs[u := task];
      assert u in All(cfg.g);
    }

    /** Any number of steps of any of the running tasks. */
    method LetTasksRun(ghost phase: Phase)
      requires Valid(phase)
      modifies this`futs, this`made, conn
      ensures Valid(phase) && futs.Keys == old(futs.Keys)
      ensures forall u :: u in futs && old(futs)[u].Ended() ==> futs[u] == old(futs)[u]
    {
      var more: bool := *;
      while more
        invariant Valid(phase) && futs.Keys == old(futs.Keys)
        invariant forall u :: u in futs && old(futs)[u].Ended() ==> futs[u] == old(futs)[u]
        decreases TotalFuel(cfg.g.nodes, futs), more
      {
        if u :| u in futs && !futs[u].Ended() {
          StepTaskOf(u, phase);
          more := *;
        } else {
          more := false;
        }
      }
    }

    /** The body of the scan: one visit to the node at `index`. */
    method VisitNode(index: nat) returns (ok: bool)
      requires Valid(Scanning(index)) && index < |cfg.g.nodes|
      modifies this
      ensures Valid(if ok then Scanning(index + 1) else Returned(SentryReached(index)))
      ensures ok ==> sentry == old(sentry) + 1 <= MAX_BUILD_ITERATIONS + 1
    {
      hide RunsTo, AllDepsBuilt, PackagesBuilding;
      var left: nat := *;
      ghost var before := State(Scanning(index));
      ReachStep(cfg, start, before, Visit(left));
      if sentry > MAX_BUILD_ITERATIONS {
        return false;
      }
      sentry := sentry + 1;
      var unit := cfg.g.nodes[index];
      assert unit in All(cfg.g);
      if unit in buildTasks && buildTasks[unit] != Waiting {
        return true;
      }
      var allDepsBuilt := AllDepsBuilt(cfg.g, buildTasks, index);
      var numberBuilding := |PackagesBuilding(buildTasks)|;
      var canAdd := match unit
        case PackageUnit(_) => numberBuilding < cfg.maxJobs
        case FetchUnit(_) => true;
      if allDepsBuilt && canAdd {
        futs := futs[unit := Spawned(left)];
        buildTasks := buildTasks[unit := Building];
      } else {
        buildTasks := buildTasks[unit := Waiting];
      }
      assert State(Scanning(index + 1)) == DoVisit(cfg, before, index, left);
      return true;
    }

    /** The scan over all nodes; it fails when the sentry is used up. */
    method Scan() returns (ok: bool, ghost stopped: nat)
      requires Valid(Scanning(0))
      modifies this, conn
      ensures Valid(if ok then Draining else Returned(SentryReached(stopped)))
      ensures ok ==> sentry == old(sentry) + |cfg.g.nodes|
      ensures ok && |cfg.g.nodes| > 0 ==> sentry <= MAX_BUILD_ITERATIONS + 1
    {
      hide RunsTo;
      for index := 0 to |cfg.g.nodes|
        invariant Valid(Scanning(index)) && sentry == old(sentry) + index
        invariant index > 0 ==> sentry <= MAX_BUILD_ITERATIONS + 1
      {
        LetTasksRun(Scanning(index));
        ok := VisitNode(index);
        if !ok {
          return false, index;
        }
      }
      LetTasksRun(Scanning(|cfg.g.nodes|));
      ReachStep(cfg, start, State(Scanning(|cfg.g.nodes|)), EndScan);
      return true, 0;
    }

    /** Waits for every spawned task, in whatever order they end; stops at the first failure. */
    method Drain() returns (failed: Option<Unit>)
      requires Valid(Draining)
      modifies this, conn
      ensures sentry == old(sentry)
      ensures failed.Some? ==> Valid(Returned(TaskFailed(failed.value)))
      ensures failed.Some? ==> failed.value in futs && futs[failed.value].HasFailed()
      ensures failed.None? ==> futs == map[] && Valid(Draining)
    {
      while futs != map[]
        invariant Valid(Draining) && sentry == old(sentry)
        decreases TotalFuel(cfg.g.nodes, futs)
      {
        var u :| u in futs.Keys;
        assert u in All(cfg.g);
        if !futs[u].Ended() {
          StepTaskOf(u, Draining);
        } else {
          ghost var before := State(Draining);
          ReachStep(cfg, start, before, Collect(u));
          if futs[u].HasFailed() {
            LetTasksRun(Returned(TaskFailed(u)));
            return Some(u);
          }
          FuelDrops(cfg.g.nodes, futs, futs - {u}, u);
          buildTasks := buildTasks[u := Finished];
          futs := futs - {u};
          assert State(Draining) == DoCollect(before, u);
        }
      }
      return None;
    }
  }

  function AllFinished(tasks: map<Unit, BuildTask>): bool {
    forall u :: u in tasks ==> tasks[u] == Finished
  }

  /** What the loop of `_main` tests on its next turn. */
  function NextPhase(tasks: map<Unit, BuildTask>): Phase {
    if AllFinished(tasks) then Returned(Success) else Scanning(0)
  }

  function ConfigFor(args: Args, numCpus: nat, g: UnitDag, root: Unit,
                     produce: (Unit, map<MiqResult, File>) -> string): Config {
    Config(g, root, args.rebuild, args.rebuildAll,
           if args.maxJobs.Some? then args.maxJobs.value else numCpus, produce)
  }

  /** How an outcome of `_main` shows in the last state of the machine. */
  ghost predicate Reports(r: Outcome<BuildError>, phase: Phase) {
    match r
    case Pass => phase == Returned(Success)
    case Fail(SentryFired) => phase.Returned? && phase.result.SentryReached?
    case Fail(BuildFailed(u)) => phase == Returned(TaskFailed(u))
    case Fail(Unresolved(_)) => false
  }

  /**
    `_main`. It always returns. Unless the graph cannot be resolved, its last
    state is reached by a run of the machine on exactly the resolved graph;
    on a well-formed store that run is subject to all the guarantees, of which
    the job limit, the outcome without failures, what the flags select and the
    final content are stated here.
   */
  method BuildGraph(args: Args, numCpus: nat, store: EvalStore, rootNode: Unit, conn: DbConnection,
              produce: (Unit, map<MiqResult, File>) -> string)
    returns (r: Outcome<BuildError>, ghost cfg: Config, ghost last: Sys)
    requires conn.Valid()
    modifies conn
    ensures conn.Valid()
    ensures (r.Fail? && r.error.Unresolved?) <==> !Resolvable(store, rootNode)
    ensures r.Fail? && r.error.Unresolved? ==> Explains(store, rootNode, r.error.error)
    ensures !Resolvable(store, rootNode) ==> conn.View() == old(conn.View())
    ensures Resolvable(store, rootNode) ==>
      && cfg.root == rootNode && cfg.produce == produce
      && cfg.rebuild == args.rebuild && cfg.rebuildAll == args.rebuildAll
      && (args.maxJobs.Some? ==> cfg.maxJobs == args.maxJobs.value)
      && (args.maxJobs.None? ==> cfg.maxJobs == numCpus)
      && Exact(store, rootNode, cfg.g)
      && RunsTo(cfg, old(conn.View()), last)
      && Reports(r, last.phase)
      && last.world == conn.View()
    ensures r.Fail? && r.error.BuildFailed? ==> r.error.unit in last.futs && last.futs[r.error.unit].HasFailed()
    ensures Resolvable(store, rootNode) && AgreesWith(store, rootNode) ==>
      && GoodConfig(cfg)
      && forall s :: RunsTo(cfg, old(conn.View()), s) ==>
           |PackagesBuilding(s.tasks)| <= if args.maxJobs.Some? then args.maxJobs.value else numCpus
    ensures Resolvable(store, rootNode) && AgreesWith(store, rootNode) && !(r.Fail? && r.error.BuildFailed?) ==>
      forall w: nat :: IsScanCount(cfg.g, cfg.maxJobs, w) ==>
        (r.Pass? <==> |cfg.g.nodes| * w <= 1001)
    ensures r.Pass? && AgreesWith(store, rootNode) ==>
      forall u :: u in cfg.g.nodes ==>
        (last.made[u] == 1 <==>
           || u.StorePath() !in old(conn.View()).table
           || (args.rebuild && u == rootNode)
           || (!args.rebuild && args.rebuildAll && u.PackageUnit?))
    ensures r.Pass? && AgreesWith(store, rootNode) ==>
      && Settled(cfg, old(conn.View()), All(cfg.g), conn.View())
      && (BuiltOver(cfg, old(conn.View()), conn.View()) <==> RightWhereKept(cfg, old(conn.View())))
  {
    hide GoodConfig, Exact, Resolvable, IsScanCount, RunsTo, BuiltOver, AgreesWith, Settled, RightWhereKept, Explains;
    hide PackagesBuilding;
    var resolved := Dag(store, rootNode);
    if resolved.Err? {
      cfg := ConfigFor(args, numCpus, UnitDag([rootNode], []), rootNode, produce);
      last := Init(cfg, conn.View());
      return Fail(Unresolved(resolved.error)), cfg, last;
    }
    var config := ConfigFor(args, numCpus, resolved.value, rootNode, produce);
    cfg := config;
    if AgreesWith(store, rootNode) {
      ResolvedIsGood(store, rootNode, cfg);
    }
    ExactHasRoot(store, cfg);
    if AgreesWith(store, rootNode) {
      forall s | RunsTo(cfg, conn.View(), s) ensures |PackagesBuilding(s.tasks)| <= cfg.maxJobs {
        JobsBounded(cfg, conn.View(), s);
      }
    }
    r, last := Execute(config, conn);
    if AgreesWith(store, rootNode) && !(r.Fail? && r.error.BuildFailed?) {
      forall w: nat | IsScanCount(cfg.g, cfg.maxJobs, w)
        ensures r.Pass? <==> |cfg.g.nodes| * w <= 1001
      {
        OutcomeWithoutFailure(cfg, old(conn.View()), last, w);
      }
    }
    if r.Pass? && AgreesWith(store, rootNode) {
      forall u | u in cfg.g.nodes
        ensures last.made[u] == 1 <==>
          || u.StorePath() !in old(conn.View()).table
          || (args.rebuild && u == rootNode)
          || (!args.rebuild && args.rebuildAll && u.PackageUnit?)
      {
        ProducedExactly(cfg, old(conn.View()), last, u);
        RootIsFirst(cfg);
      }
      SuccessSettles(cfg, old(conn.View()), last);
      SuccessIsScratchBuildIff(cfg, old(conn.View()), last);
    }
  }

  lemma RootIsFirst(cfg: Config)
    requires GoodConfig(cfg)
    ensures cfg.g.nodes[0] == cfg.root
  {
  }

  lemma ExactHasRoot(store: EvalStore, cfg: Config)
    requires Exact(store, cfg.root, cfg.g)
    ensures InRange(cfg.g) && cfg.root in cfg.g.nodes
  {
  }

  /** The loop of `_main`, once the graph is known. */
  method Execute(cfg: Config, conn: DbConnection) returns (r: Outcome<BuildError>, ghost last: Sys)
    requires conn.Valid() && InRange(cfg.g) && cfg.root in cfg.g.nodes
    modifies conn
    ensures conn.Valid() && RunsTo(cfg, old(conn.View()), last)
    ensures last.world == conn.View() && Reports(r, last.phase)
    ensures r.Fail? && r.error.BuildFailed? ==> r.error.unit in last.futs && last.futs[r.error.unit].HasFailed()
  {
    var run := new BuildRun(cfg, conn);
    assert run.buildTasks[cfg.root] == Waiting;
    while !AllFinished(run.buildTasks)
      invariant fresh(run) && run.cfg == cfg && run.conn == conn && run.start == old(conn.View())
      invariant run.Valid(NextPhase(run.buildTasks))
      decreases MAX_BUILD_ITERATIONS + 1 - run.sentry
    {
      ghost var stopped;
      var ok;
      ok, stopped := run.Scan();
      if !ok {
        return Fail(SentryFired), run.State(Returned(SentryReached(stopped)));
      }
      var failed := run.Drain();
      if failed.Some? {
        return Fail(BuildFailed(failed.value)), run.State(Returned(TaskFailed(failed.value)));
      }
      ReachStep(cfg, run.start, run.State(Draining), EndDrain);
      run.scans := run.scans + 1;
    }
    return Pass, run.State(Returned(Success));
  }

  /** Each file of the store holds the unit it is named after, and the root is the one it names. */
  ghost predicate AgreesWith(store: EvalStore, root: Unit) {
    WellFormedStore(store) && (root.Result() in store ==> store[root.Result()] == root)
  }

  lemma ResolvedIsGood(store: EvalStore, root: Unit, cfg: Config)
    requires AgreesWith(store, root) && Resolvable(store, root)
    requires Exact(store, root, cfg.g) && cfg.root == root
    ensures GoodConfig(cfg)
  {
    ExactIsGood(store, root, cfg.g);
  }
}
