/**
  What the store holds during and after a run, compared with the plain
  recursive build of every unit from scratch.
 */
module Contents {
  import opened Common
  import opened Units
  import opened Paths
  import opened Graphs
  import opened Database
  import opened Tasks
  import opened Scheduler

  // ------------------------------------------------ the from-scratch build

  ghost function Below(g: UnitDag, u: Unit): set<Unit>
    requires InRange(g)
  {
    set v | v in All(g) && Plus(Rel(g), u, v)
  }

  lemma BelowShrinks(g: UnitDag, u: Unit, v: Unit)
    requires InRange(g) && Acyclic(Rel(g)) && v in g.nodes && (u, v) in Rel(g)
    ensures Below(g, v) < Below(g, u)
  {
    forall w | w in Below(g, v) ensures w in Below(g, u) {
      PlusIsStar(Rel(g), v, w);
      EdgeThenStar(Rel(g), u, v, w);
    }
    EdgePlus(Rel(g), u, v);
    assert v in Below(g, u) && v !in Below(g, v);
  }

  /** The node a recorded dependency stands for. */
  ghost function DepNode(g: UnitDag, u: Unit, d: MiqResult): (v: Unit)
    requires InRange(g) && GoodGraph(g) && u in g.nodes && d in u.Deps()
    ensures v in g.nodes && (u, v) in Rel(g) && v.Result() == d
  {
    assert d in DepResults(g, u);
    var e :| e in Rel(g) && e.0 == u && e.1.Result() == d;
    e.1
  }

  /** The content of `u` when everything is built recursively, with an empty store. */
  ghost function Scratch(cfg: Config, u: Unit): string
    requires GoodConfig(cfg) && u in cfg.g.nodes
    decreases Below(cfg.g, u)
  {
    cfg.produce(u, map d | d in u.Deps() ::
      BelowShrinks(cfg.g, u, DepNode(cfg.g, u, d));
      Complete(Scratch(cfg, DepNode(cfg.g, u, d))))
  }

  /** What the path of `u` holds after a successful run from the store `w0`, whatever that store contains. */
  ghost function Expected(cfg: Config, w0: World, u: Unit): Slot
    requires GoodConfig(cfg) && u in cfg.g.nodes
    decreases Below(cfg.g, u), 1
  {
    SlotAfter(RebuildFlag(cfg, u), At(w0, u.StorePath()), ExpectedOutput(cfg, w0, u))
  }

  /** What producing `u` yields in such a run: its dependencies are built or kept before it. */
  ghost function ExpectedOutput(cfg: Config, w0: World, u: Unit): string
    requires GoodConfig(cfg) && u in cfg.g.nodes
    decreases Below(cfg.g, u), 0
  {
    cfg.produce(u, ReadSlots(map d | d in u.Deps() ::
      BelowShrinks(cfg.g, u, DepNode(cfg.g, u, d));
      Expected(cfg, w0, DepNode(cfg.g, u, d))))
  }

  ghost predicate IsUnitPath(g: UnitDag, path: string) {
    exists u :: u in g.nodes && u.StorePath() == path
  }

  ghost predicate Meets(cfg: Config, w0: World, w: World, u: Unit)
    requires GoodConfig(cfg) && u in cfg.g.nodes
  {
    At(w, u.StorePath()) == Expected(cfg, w0, u)
  }

  /** With all its dependencies in place, a build yields what is expected of it. */
  lemma OutputIsExpected(cfg: Config, w0: World, w: World, u: Unit)
    requires GoodConfig(cfg) && u in cfg.g.nodes
    requires forall v :: v in cfg.g.nodes && (u, v) in Rel(cfg.g) ==> Meets(cfg, w0, w, v)
    ensures cfg.produce(u, Inputs(w, u)) == ExpectedOutput(cfg, w0, u)
  {
    hide GoodGraph, Rel, ReadSlots, Expected, At;
    var expected := map d | d in u.Deps() :: Expected(cfg, w0, DepNode(cfg.g, u, d));
    var actual := map d | d in u.Deps() :: At(w, StorePathOf(d));
    forall d | d in u.Deps() ensures actual[d] == expected[d] {
      var v := DepNode(cfg.g, u, d);
      assert Meets(cfg, w0, w, v);
    }
    assert actual == expected;
  }

  // ------------------------------------------- the from-scratch content

  /** The path of `u` is registered with the content built from scratch. */
  ghost predicate Holds(cfg: Config, w: World, u: Unit)
    requires GoodConfig(cfg) && u in cfg.g.nodes
  {
    At(w, u.StorePath()) == Slot(true, Some(Complete(Scratch(cfg, u))))
  }

  /** Every unit the run will keep as it is holds its from-scratch content. */
  ghost predicate RightWhereKept(cfg: Config, w: World)
    requires GoodConfig(cfg)
  {
    forall u :: u in cfg.g.nodes && !Needed(RebuildFlag(cfg, u), At(w, u.StorePath())) ==> Holds(cfg, w, u)
  }

  /** Every registered unit holds its from-scratch content. */
  ghost predicate RightWhereRegistered(cfg: Config, w: World)
    requires GoodConfig(cfg)
  {
    forall u :: u in cfg.g.nodes && At(w, u.StorePath()).registered ==> Holds(cfg, w, u)
  }

  /** If what is kept is right, everything expected is the from-scratch content. */
  lemma {:induction false} ExpectedIsScratch(cfg: Config, w0: World, u: Unit)
    requires GoodConfig(cfg) && RightWhereKept(cfg, w0) && u in cfg.g.nodes
    ensures Expected(cfg, w0, u) == Slot(true, Some(Complete(Scratch(cfg, u))))
    ensures ExpectedOutput(cfg, w0, u) == Scratch(cfg, u)
    decreases Below(cfg.g, u)
  {
    hide GoodGraph, Rel, At, ReadSlots, RightWhereKept, DistinctNodes;
    AcyclicOfGood(cfg.g);
    var slots := map d | d in u.Deps() :: Expected(cfg, w0, DepNode(cfg.g, u, d));
    var scratch := map d | d in u.Deps() :: Complete(Scratch(cfg, DepNode(cfg.g, u, d)));
    forall d | d in u.Deps() ensures slots[d] == Slot(true, Some(scratch[d])) {
      BelowShrinks(cfg.g, u, DepNode(cfg.g, u, d));
      ExpectedIsScratch(cfg, w0, DepNode(cfg.g, u, d));
    }
    ReadComplete(slots, scratch);
    assert ExpectedOutput(cfg, w0, u) == Scratch(cfg, u);
    RightAt(cfg, w0, u);
    assert Expected(cfg, w0, u) == SlotAfter(RebuildFlag(cfg, u), At(w0, u.StorePath()), ExpectedOutput(cfg, w0, u));
  }

  lemma RightAt(cfg: Config, w: World, u: Unit)
    requires GoodConfig(cfg) && RightWhereKept(cfg, w) && u in cfg.g.nodes
    ensures Needed(RebuildFlag(cfg, u), At(w, u.StorePath())) || Holds(cfg, w, u)
  {
  }

  lemma AcyclicOfGood(g: UnitDag)
    requires InRange(g) && GoodGraph(g)
    ensures Acyclic(Rel(g))
  {
  }

  // ------------------------------------------------------- store invariant

  /** How far the build of a unit has come in this run. */
  datatype Stage = Idle | Active(task: Task) | Over

  function StageOf(tasks: map<Unit, BuildTask>, futs: map<Unit, Task>, u: Unit): Stage {
    if u in futs then Active(futs[u])
    else if u in tasks && tasks[u] == Finished then Over
    else Idle
  }

  /** What the path of a unit holds at each stage. */
  ghost predicate UnitInv(cfg: Config, w0: World, u: Unit, stage: Stage, slot: Slot, made: nat)
    requires GoodConfig(cfg) && u in cfg.g.nodes
  {
    var start, rebuild, output := At(w0, u.StorePath()), RebuildFlag(cfg, u), ExpectedOutput(cfg, w0, u);
    match stage
    case Idle => slot == start && made == 0
    case Active(t) => TaskInv(rebuild, start, output, t, slot, made)
    case Over => TaskDone(rebuild, start, output, slot, made)
  }

  ghost predicate UnitsInv(cfg: Config, w0: World, tasks: map<Unit, BuildTask>, futs: map<Unit, Task>,
                           world: World, made: multiset<Unit>)
    requires GoodConfig(cfg)
  {
    forall u :: u in cfg.g.nodes ==>
      UnitInv(cfg, w0, u, StageOf(tasks, futs, u), At(world, u.StorePath()), made[u])
  }

  ghost predicate StoreInv(cfg: Config, w0: World, s: Sys)
    requires GoodConfig(cfg)
  {
    && UnitsInv(cfg, w0, s.tasks, s.futs, s.world, s.made)
    && (forall p :: !IsUnitPath(cfg.g, p) ==> At(s.world, p) == At(w0, p))
    && (forall u :: u in s.made ==> u in cfg.g.nodes)
  }

  ghost predicate Inv(cfg: Config, w0: World, s: Sys) {
    GoodConfig(cfg) && SchedInv(cfg, s) && StoreInv(cfg, w0, s)
  }

  lemma InitInv(cfg: Config, w0: World)
    requires GoodConfig(cfg)
    ensures Inv(cfg, w0, Init(cfg, w0))
  {
    InitSched(cfg, w0);
  }

  lemma UnitAt(cfg: Config, w0: World, s: Sys, u: Unit)
    requires Inv(cfg, w0, s) && u in cfg.g.nodes
    ensures UnitInv(cfg, w0, u, StageOf(s.tasks, s.futs, u), At(s.world, u.StorePath()), s.made[u])
    ensures u in s.futs <==> u in s.tasks && s.tasks[u] == Building
  {
    hide GoodGraph, PhaseInv, UnitInv, At;
    StatusMeans(s.tasks, u, Building);
  }

  lemma StartedIsNode(cfg: Config, w0: World, s: Sys, u: Unit)
    requires Inv(cfg, w0, s) && (u in s.futs || u in s.tasks)
    ensures u in cfg.g.nodes
  {
    hide GoodGraph, PhaseInv, UnitsInv;
    assert u in All(cfg.g);
  }

  lemma FinishedMeets(cfg: Config, w0: World, s: Sys, u: Unit)
    requires Inv(cfg, w0, s) && u in s.tasks && s.tasks[u] == Finished
    ensures u in cfg.g.nodes && Meets(cfg, w0, s.world, u)
  {
    hide GoodGraph, Inv;
    StartedIsNode(cfg, w0, s, u);
    UnitAt(cfg, w0, s, u);
  }

  /** A running task sees the expected outputs of all its dependencies. */
  lemma RunningOutput(cfg: Config, w0: World, s: Sys, u: Unit)
    requires Inv(cfg, w0, s) && u in s.futs
    ensures u in cfg.g.nodes && cfg.produce(u, Inputs(s.world, u)) == ExpectedOutput(cfg, w0, u)
  {
    hide GoodGraph, SchedInv, StoreInv;
    StartedIsNode(cfg, w0, s, u);
    forall v | v in cfg.g.nodes && (u, v) in Rel(cfg.g) ensures Meets(cfg, w0, s.world, v) {
      StartedAfterDeps(cfg, s, u, v);
      StatusMeans(s.tasks, v, Finished);
      FinishedMeets(cfg, w0, s, v);
    }
    OutputIsExpected(cfg, w0, s.world, u);
  }

  lemma StepStore(cfg: Config, w0: World, s: Sys, u: Unit, e: Event)
    requires Inv(cfg, w0, s) && u in s.futs
    ensures StoreInv(cfg, w0, DoStep(cfg, s, u, e))
  {
    hide GoodGraph, SchedInv, Put, At, ExpectedOutput, Inputs, StepTask, TaskInv, TaskDone;
    var s' := DoStep(cfg, s, u, e);
    RunningOutput(cfg, w0, s, u);
    var path, slot := u.StorePath(), At(s.world, u.StorePath());
    var rebuild, output := RebuildFlag(cfg, u), ExpectedOutput(cfg, w0, u);
    var slot' := StepTask(u, rebuild, output, s.futs[u], e, slot).1;
    UnitAt(cfg, w0, s, u);
    TaskStepInv(u, rebuild, At(w0, path), output, s.futs[u], e, slot, s.made[u]);
    forall v | v in cfg.g.nodes
      ensures UnitInv(cfg, w0, v, StageOf(s'.tasks, s'.futs, v), At(s'.world, v.StorePath()), s'.made[v])
    {
      PutAt(s.world, path, slot', v.StorePath());
      if v != u {
        UnitAt(cfg, w0, s, v);
        SameResultSameUnit(cfg.g, u, v);
      }
    }
    forall p | !IsUnitPath(cfg.g, p) ensures At(s'.world, p) == At(w0, p) {
      PutAt(s.world, path, slot', p);
    }
  }

  /** A visit spawns at most the task of its own unit. */
  lemma VisitStages(cfg: Config, s: Sys, index: nat, left: nat, v: Unit)
    requires InRange(cfg.g) && index < |cfg.g.nodes|
    requires v in s.futs <==> v in s.tasks && s.tasks[v] == Building
    ensures var s' := DoVisit(cfg, s, index, left);
      && s'.world == s.world && s'.made == s.made
      && (StageOf(s'.tasks, s'.futs, v) == StageOf(s.tasks, s.futs, v)
          || (StageOf(s.tasks, s.futs, v) == Idle && StageOf(s'.tasks, s'.futs, v) == Active(Spawned(left))))
  {
    hide AllDepsBuilt, PackagesBuilding, InRange;
  }

  lemma VisitStore(cfg: Config, w0: World, s: Sys, left: nat)
    requires Inv(cfg, w0, s)
    ensures StoreInv(cfg, w0, Do(cfg, s, Visit(left)))
  {
    hide GoodGraph, SchedInv, DoVisit, StageOf, At, ExpectedOutput;
    if s.phase.Scanning? && s.phase.index < |cfg.g.nodes| {
      var s' := DoVisit(cfg, s, s.phase.index, left);
      forall v | v in cfg.g.nodes
        ensures s'.world == s.world && s'.made == s.made
        ensures UnitInv(cfg, w0, v, StageOf(s'.tasks, s'.futs, v), At(s'.world, v.StorePath()), s'.made[v])
      {
        UnitAt(cfg, w0, s, v);
        VisitStages(cfg, s, s.phase.index, left, v);
      }
      assert cfg.g.nodes[0] in cfg.g.nodes;
    }
  }

  lemma CollectStore(cfg: Config, w0: World, s: Sys, u: Unit)
    requires Inv(cfg, w0, s) && s.phase.Draining? && u in s.futs && s.futs[u].Ended()
    ensures StoreInv(cfg, w0, DoCollect(s, u))
  {
    hide GoodGraph, SchedInv, At, ExpectedOutput;
    var s' := DoCollect(s, u);
    forall v | v in cfg.g.nodes
      ensures UnitInv(cfg, w0, v, StageOf(s'.tasks, s'.futs, v), At(s'.world, v.StorePath()), s'.made[v])
    {
      UnitAt(cfg, w0, s, v);
    }
  }

  lemma InvStep(cfg: Config, w0: World, s: Sys, a: Action)
    requires Inv(cfg, w0, s)
    ensures Inv(cfg, w0, Do(cfg, s, a))
  {
    hide SchedInv, GoodGraph, DoVisit, DoStep, DoCollect, ExpectedOutput, UnitsInv, At;
    SchedStep(cfg, s, a);
    match a
    case Visit(left) => VisitStore(cfg, w0, s, left);
    case Step(u, e) =>
      if u in s.futs {
        StepStore(cfg, w0, s, u, e);
      }
    case Collect(u) =>
      if s.phase.Draining? && u in s.futs && s.futs[u].Ended() {
        CollectStore(cfg, w0, s, u);
      }
    case _ =>
  }

  /** Every state of every run satisfies the invariant. */
  lemma {:induction false} InvRun(cfg: Config, w0: World, run: seq<Sys>, k: nat)
    requires GoodConfig(cfg) && IsRun(cfg, w0, run) && k < |run|
    ensures Inv(cfg, w0, run[k])
  {
    hide Inv, Do, GoodGraph;
    if k == 0 {
      InitInv(cfg, w0);
    } else {
      InvRun(cfg, w0, run, k - 1);
      assert Next(cfg, run[k - 1], run[k]);
      var a :| run[k] == Do(cfg, run[k - 1], a);
      InvStep(cfg, w0, run[k - 1], a);
    }
  }

  lemma InvReachable(cfg: Config, w0: World, s: Sys)
    requires GoodConfig(cfg) && RunsTo(cfg, w0, s)
    ensures Inv(cfg, w0, s)
  {
    hide Inv, GoodGraph;
    var run :| IsRun(cfg, w0, run) && run[|run| - 1] == s;
    InvRun(cfg, w0, run, |run| - 1);
  }
}
