/**
  When a run can damage the store: which units it comes to start at all, which
  registered outputs it may therefore lose, and after which runs it is safe to
  resume. The conditions speak of the graph, the flags and the starting store.
 */
module Damage {
  import opened Common
  import opened Units
  import opened Graphs
  import opened Waves
  import opened Database
  import opened Tasks
  import opened Scheduler
  import opened Contents
  import opened Progress
  import opened Guarantees

  // ---------------------------------------------- which units are started

  /** Round `k` starts node `i`, and the sentry lets that visit pass. */
  ghost predicate StartsIn(cfg: Config, k: nat, i: nat)
    requires InRange(cfg.g)
  {
    && i < |cfg.g.nodes|
    && cfg.g.nodes[i] in Wave(cfg.g, cfg.maxJobs, After(cfg.g, cfg.maxJobs, k))
    && |cfg.g.nodes| * k + i <= 1000
  }

  /** Some round starts the unit before the sentry is used up. */
  ghost predicate Scheduled(cfg: Config, u: Unit)
    requires InRange(cfg.g)
  {
    exists k: nat, i: nat :: StartsIn(cfg, k, i) && cfg.g.nodes[i] == u
  }

  /** What a scan has picked by a visit is what the whole scan picks, up to that visit. */
  lemma PickedBy(g: UnitDag, maxJobs: nat, a: set<Unit>, index: nat, i: nat)
    requires InRange(g) && DistinctNodes(g) && i < |g.nodes| && index <= |g.nodes|
    ensures g.nodes[i] in Picked(g, maxJobs, a, index) <==> i < index && g.nodes[i] in Wave(g, maxJobs, a)
  {
    if i < index {
      PickedExact(g, maxJobs, a, index, i);
      PickedExact(g, maxJobs, a, |g.nodes|, i);
    } else {
      PickedSound(g, maxJobs, a, index);
    }
  }

  /** What is running has been scheduled. */
  lemma RunningIsScheduled(cfg: Config, s: Sys, u: Unit)
    requires GoodConfig(cfg) && SchedInv(cfg, s) && u in s.futs
    ensures Scheduled(cfg, u)
  {
    hide GoodGraph, After, Wave;
    RunningInWave(cfg, s);
    assert u in All(cfg.g);
    var i := IndexOf(cfg.g, u);
    var a := After(cfg.g, cfg.maxJobs, s.scans);
    if s.phase.Scanning? {
      PickedBy(cfg.g, cfg.maxJobs, a, s.phase.index, i);
    } else if s.phase.Returned? && s.phase.result.SentryReached? {
      PickedBy(cfg.g, cfg.maxJobs, a, s.phase.result.index, i);
    } else {
      Distribute(|cfg.g.nodes|, s.scans);
    }
    assert StartsIn(cfg, s.scans, i);
  }

  /** At the end of a run without failures everything scheduled has been started. */
  lemma ScheduledIsStarted(cfg: Config, s: Sys, u: Unit)
    requires GoodConfig(cfg) && SchedInv(cfg, s) && Scheduled(cfg, u)
    requires s.phase.Returned? && !s.phase.result.TaskFailed?
    ensures u in s.futs || u in WithStatus(s.tasks, Finished)
  {
    hide GoodGraph, Wave, After;
    var n := |cfg.g.nodes|;
    var k: nat, i: nat :| StartsIn(cfg, k, i) && cfg.g.nodes[i] == u;
    if s.phase.result.SentryReached? {
      var index := s.phase.result.index;
      if k < s.scans {
        AfterStep(cfg.g, cfg.maxJobs, k);
        AfterMonotone(cfg.g, cfg.maxJobs, k + 1, s.scans);
      } else {
        MulMonotone(n, s.scans, k);
        if k > s.scans {
          MulMonotone(n, s.scans + 1, k);
          Distribute(n, s.scans);
        }
        assert k == s.scans && i < index;
        PickedBy(cfg.g, cfg.maxJobs, After(cfg.g, cfg.maxJobs, s.scans), index, i);
      }
    } else {
      assert u in All(cfg.g);
    }
  }

  /** In one step a unit gets no further than being spawned. */
  lemma StartIsSpawn(cfg: Config, s: Sys, a: Action, u: Unit)
    requires InRange(cfg.g) && u !in s.futs && u !in WithStatus(s.tasks, Finished)
    ensures var t := Do(cfg, s, a);
      if u in t.futs then t.futs[u].pc.Check? else u !in WithStatus(t.tasks, Finished)
  {
    hide AllDepsBuilt, PackagesBuilding, StepTask, Put, At, Inputs;
  }

  /** The first state of a run in which a unit that is started later has been spawned. */
  lemma {:induction false} FirstSpawn(cfg: Config, w0: World, run: seq<Sys>, k: nat, u: Unit) returns (i: nat)
    requires InRange(cfg.g) && IsRun(cfg, w0, run) && k < |run|
    requires u in run[k].futs || u in WithStatus(run[k].tasks, Finished)
    ensures i <= k && u in run[i].futs && run[i].futs[u].pc.Check?
  {
    hide Do;
    if k > 0 && (u in run[k - 1].futs || u in WithStatus(run[k - 1].tasks, Finished)) {
      i := FirstSpawn(cfg, w0, run, k - 1, u);
    } else {
      assert k > 0;
      assert Next(cfg, run[k - 1], run[k]);
      var a :| run[k] == Do(cfg, run[k - 1], a);
      StartIsSpawn(cfg, run[k - 1], a, u);
      i := k;
    }
  }

  lemma {:induction false} PrefixIsRun(cfg: Config, w0: World, run: seq<Sys>, i: nat)
    requires InRange(cfg.g) && IsRun(cfg, w0, run) && i < |run|
    ensures RunsTo(cfg, w0, run[i])
  {
    hide Next, Init;
    assert IsRun(cfg, w0, run[..i + 1]);
  }

  /** A run that has started a unit has been at the moment of its spawning. */
  lemma SpawnBefore(cfg: Config, w0: World, t: Sys, u: Unit) returns (s: Sys)
    requires InRange(cfg.g) && RunsTo(cfg, w0, t)
    requires u in t.futs || u in WithStatus(t.tasks, Finished)
    ensures RunsTo(cfg, w0, s) && u in s.futs && s.futs[u].pc.Check?
  {
    hide Next, Init;
    var run :| IsRun(cfg, w0, run) && run[|run| - 1] == t;
    var i := FirstSpawn(cfg, w0, run, |run| - 1, u);
    PrefixIsRun(cfg, w0, run, i);
    s := run[i];
  }

  /** From every store some run comes to the moment at which a scheduled unit has just been spawned. */
  lemma ReachSpawn(cfg: Config, w0: World, u: Unit) returns (s: Sys)
    requires GoodConfig(cfg) && Scheduled(cfg, u)
    ensures RunsTo(cfg, w0, s) && u in s.futs && s.futs[u].pc.Check?
  {
    hide GoodGraph, RunsTo, SchedInv, Scheduled, RunsSmoothlyTo;
    SmoothStart(cfg, w0);
    var t := RunCompletes(cfg, w0, Init(cfg, w0));
    SmoothNeverFails(cfg, w0, t);
    SmoothIsRun(cfg, w0, t);
    ScheduledIsStarted(cfg, t, u);
    s := SpawnBefore(cfg, w0, t, u);
  }

  /** The units that are started in some run are those the graph, the job limit and the sentry admit. */
  lemma StartedIff(cfg: Config, w0: World, u: Unit)
    requires GoodConfig(cfg)
    ensures (exists s :: RunsTo(cfg, w0, s) && u in s.futs) <==> Scheduled(cfg, u)
  {
    hide GoodGraph, SchedInv, Scheduled, RunsTo;
    if Scheduled(cfg, u) {
      var s := ReachSpawn(cfg, w0, u);
    }
    if s :| RunsTo(cfg, w0, s) && u in s.futs {
      SchedReachable(cfg, w0, s);
      RunningIsScheduled(cfg, s, u);
    }
  }

  /** The rounds the graph needs fit the sentry. */
  ghost predicate RoundsFit(cfg: Config)
    requires InRange(cfg.g)
  {
    exists w: nat :: IsScanCount(cfg.g, cfg.maxJobs, w) && |cfg.g.nodes| * w <= 1001
  }

  /** When the rounds fit, every unit is scheduled. */
  lemma AllScheduledIfRoundsFit(cfg: Config, w0: World, u: Unit)
    requires GoodConfig(cfg) && RoundsFit(cfg) && u in cfg.g.nodes
    ensures Scheduled(cfg, u)
  {
    hide GoodGraph, SchedInv, Scheduled, RunsTo, RunsSmoothlyTo, IsScanCount;
    var w: nat :| IsScanCount(cfg.g, cfg.maxJobs, w) && |cfg.g.nodes| * w <= 1001;
    var t := SuccessIsReachable(cfg, w0, w);
    SmoothIsRun(cfg, w0, t);
    SuccessFinishes(cfg, w0, t, u);
    var s := SpawnBefore(cfg, w0, t, u);
    SchedReachable(cfg, w0, s);
    RunningIsScheduled(cfg, s, u);
  }

  lemma SuccessFinishes(cfg: Config, w0: World, s: Sys, u: Unit)
    requires GoodConfig(cfg) && RunsTo(cfg, w0, s) && s.phase == Returned(Success) && u in cfg.g.nodes
    ensures u in WithStatus(s.tasks, Finished)
  {
    hide GoodGraph, After, RunsTo;
    SchedReachable(cfg, w0, s);
    assert u in All(cfg.g);
  }

  // ------------------------------------------------------ torn removals

  /** Registered, and selected for rebuild: its old output is removed before the new one is made. */
  predicate Replaces(cfg: Config, w0: World, u: Unit) {
    At(w0, u.StorePath()).registered && RebuildFlag(cfg, u)
  }

  /** Only what a run replaces can be torn. */
  lemma TornWasReplaced(cfg: Config, w0: World, s: Sys, u: Unit)
    requires GoodConfig(cfg) && RunsTo(cfg, w0, s) && u in s.futs && s.futs[u].pc.Torn?
    ensures u in cfg.g.nodes && Replaces(cfg, w0, u) && Scheduled(cfg, u)
  {
    hide GoodGraph, SchedInv, UnitsInv, ExpectedOutput, At, Scheduled, RunsTo;
    InvReachable(cfg, w0, s);
    StartedIsNode(cfg, w0, s, u);
    UnitAt(cfg, w0, s, u);
    RunningIsScheduled(cfg, s, u);
  }

  /** Whatever a run would replace it can lose: the deletion breaks off and the row stays. */
  lemma ReplacedCanBeTorn(cfg: Config, w0: World, u: Unit) returns (cut: Sys)
    requires GoodConfig(cfg) && u in cfg.g.nodes && Replaces(cfg, w0, u) && Scheduled(cfg, u)
    requires At(w0, u.StorePath()).file.Some?
    ensures RunsTo(cfg, w0, cut) && At(cut.world, u.StorePath()) == Slot(true, Some(Partial("rest")))
  {
    hide GoodGraph, SchedInv, UnitsInv, ExpectedOutput, At, Put, Scheduled, RunsTo, Inputs;
    var path := u.StorePath();
    var s := ReachSpawn(cfg, w0, u);
    InvReachable(cfg, w0, s);
    UnitAt(cfg, w0, s, u);
    assert At(s.world, path) == At(w0, path);
    PutAt(s.world, path, At(s.world, path), path);
    ReachStep(cfg, w0, s, Step(u, Go));
    s := Do(cfg, s, Step(u, Go));
    PutAt(s.world, path, Slot(true, Some(Partial("rest"))), path);
    ReachStep(cfg, w0, s, Step(u, Error(Some("rest"))));
    cut := Do(cfg, s, Step(u, Error(Some("rest"))));
  }

  /**
    A path that is sound stays sound at every moment of every run if and only if
    the run does not come to replace it: it is unregistered, not selected for
    rebuild, or never scheduled.
   */
  lemma StaysSoundIff(cfg: Config, w0: World, u: Unit)
    requires GoodConfig(cfg) && u in cfg.g.nodes && SoundSlot(At(w0, u.StorePath()))
    ensures (forall s :: RunsTo(cfg, w0, s) ==> SoundSlot(At(s.world, u.StorePath()))) <==>
            !(Replaces(cfg, w0, u) && Scheduled(cfg, u))
  {
    hide GoodGraph, At, Scheduled, RunsTo;
    if Replaces(cfg, w0, u) && Scheduled(cfg, u) {
      var cut := ReplacedCanBeTorn(cfg, w0, u);
    } else {
      forall s | RunsTo(cfg, w0, s) ensures SoundSlot(At(s.world, u.StorePath())) {
        SoundUnlessTorn(cfg, w0, s, u.StorePath());
        if v :| v in s.futs && v.StorePath() == u.StorePath() && s.futs[v].pc.Torn? {
          TornWasReplaced(cfg, w0, s, v);
          SameResultSameUnit(cfg.g, u, v);
        }
      }
    }
  }

  /** When the rounds fit, a sound path stays sound if and only if the run does not replace it. */
  lemma StaysSoundIffNotReplaced(cfg: Config, w0: World, u: Unit)
    requires GoodConfig(cfg) && RoundsFit(cfg) && u in cfg.g.nodes && SoundSlot(At(w0, u.StorePath()))
    ensures (forall s :: RunsTo(cfg, w0, s) ==> SoundSlot(At(s.world, u.StorePath()))) <==> !Replaces(cfg, w0, u)
  {
    hide GoodGraph, At, Scheduled, RunsTo;
    AllScheduledIfRoundsFit(cfg, w0, u);
    StaysSoundIff(cfg, w0, u);
  }

  // --------------------------------------------------------- resumption

  /** What a run replaces, if it comes to it, was right, and the run does not come to it. */
  ghost predicate Unharmed(cfg: Config, w0: World, u: Unit)
    requires GoodConfig(cfg) && u in cfg.g.nodes
  {
    Replaces(cfg, w0, u) ==> Holds(cfg, w0, u) && !Scheduled(cfg, u)
  }

  lemma StaysRight(cfg: Config, w0: World, s: Sys, u: Unit)
    requires GoodConfig(cfg) && RunsTo(cfg, w0, s) && RightWhereKept(cfg, w0)
    requires u in cfg.g.nodes && Unharmed(cfg, w0, u) && At(s.world, u.StorePath()).registered
    ensures Holds(cfg, s.world, u)
  {
    hide GoodGraph, SchedInv, UnitsInv, ExpectedOutput, Scratch, At, Scheduled, RunsTo;
    InvReachable(cfg, w0, s);
    UnitAt(cfg, w0, s, u);
    RightAt(cfg, w0, u);
    ExpectedIsScratch(cfg, w0, u);
    if u in s.futs && s.futs[u].pc.Torn? {
      TornWasReplaced(cfg, w0, s, u);
    }
  }

  /**
    A unit is right whenever it is registered, at every moment of every run, if
    and only if the run does not come to replace it and it was right if the
    run would have replaced it.
   */
  lemma StaysRightIff(cfg: Config, w0: World, u: Unit)
    requires GoodConfig(cfg) && RightWhereKept(cfg, w0) && u in cfg.g.nodes
    ensures (forall s :: RunsTo(cfg, w0, s) && At(s.world, u.StorePath()).registered ==> Holds(cfg, s.world, u)) <==>
            Unharmed(cfg, w0, u)
  {
    hide GoodGraph, Scratch, At, Scheduled, RunsTo, RightWhereKept;
    if Unharmed(cfg, w0, u) {
      forall s | RunsTo(cfg, w0, s) && At(s.world, u.StorePath()).registered ensures Holds(cfg, s.world, u) {
        StaysRight(cfg, w0, s, u);
      }
    } else {
      ReachStart(cfg, w0);
      if Holds(cfg, w0, u) {
        var cut := ReplacedCanBeTorn(cfg, w0, u);
      }
    }
  }

  /**
    When it is safe to resume: the later run finds nothing wrong that it keeps,
    wherever the first was cut short, if and only if every unit that only the
    first run replaces was right and never scheduled.
   */
  ghost predicate SafeToResume(cfg: Config, w0: World, again: Config)
    requires GoodConfig(cfg)
  {
    forall u :: u in cfg.g.nodes && !RebuildFlag(again, u) ==> Unharmed(cfg, w0, u)
  }

  lemma CutsAreRightIff(cfg: Config, w0: World, again: Config)
    requires GoodConfig(cfg) && RightWhereKept(cfg, w0)
    requires GoodConfig(again) && SameBuild(cfg, again)
    ensures (forall cut :: RunsTo(cfg, w0, cut) ==> RightWhereKept(again, cut.world)) <==> SafeToResume(cfg, w0, again)
  {
    hide GoodGraph, Scratch, At, RunsTo, Unharmed;
    forall u | u in cfg.g.nodes ensures Scratch(again, u) == Scratch(cfg, u) {
      ScratchIgnoresFlags(cfg, again, u);
    }
    forall u | u in cfg.g.nodes
      ensures (forall s :: RunsTo(cfg, w0, s) && At(s.world, u.StorePath()).registered ==> Holds(cfg, s.world, u)) <==>
              Unharmed(cfg, w0, u)
    {
      StaysRightIff(cfg, w0, u);
    }
  }

  /**
    Resumption: a run is cut short anywhere and a later one, perhaps with other
    flags or jobs, succeeds. That always ends in the store of the build from
    scratch if and only if it is safe to resume or the later run cannot succeed.
   */
  lemma ResumptionIsRightIff(cfg: Config, w0: World, again: Config)
    requires GoodConfig(cfg) && RightWhereKept(cfg, w0)
    requires GoodConfig(again) && SameBuild(cfg, again)
    ensures (forall cut, s ::
               RunsTo(cfg, w0, cut) && RunsTo(again, cut.world, s) && s.phase == Returned(Success)
               ==> BuiltOver(cfg, w0, s.world)) <==>
            (RoundsFit(again) ==> SafeToResume(cfg, w0, again))
  {
    hide GoodGraph, RunsTo, RightWhereKept, BuiltOver, SafeToResume, IsScanCount, RunsSmoothlyTo;
    CutsAreRightIff(cfg, w0, again);
    forall cut, s | RunsTo(cfg, w0, cut) && RunsTo(again, cut.world, s) && s.phase == Returned(Success)
      ensures RoundsFit(again) && (BuiltOver(cfg, w0, s.world) <==> RightWhereKept(again, cut.world))
    {
      SuccessRounds(again, cut.world, s);
      ResumedIsBuiltIff(cfg, w0, cut, again, s);
    }
    if RoundsFit(again) && !SafeToResume(cfg, w0, again) {
      var cut :| RunsTo(cfg, w0, cut) && !RightWhereKept(again, cut.world);
      var w: nat :| IsScanCount(again.g, again.maxJobs, w) && |again.g.nodes| * w <= 1001;
      var s := SuccessIsReachable(again, cut.world, w);
      SmoothIsRun(again, cut.world, s);
    }
  }

  lemma ResumedIsBuiltIff(cfg: Config, w0: World, cut: Sys, again: Config, s: Sys)
    requires GoodConfig(cfg) && RunsTo(cfg, w0, cut) && GoodConfig(again) && SameBuild(cfg, again)
    requires RunsTo(again, cut.world, s) && s.phase == Returned(Success)
    ensures BuiltOver(cfg, w0, s.world) <==> RightWhereKept(again, cut.world)
  {
    hide GoodConfig, RunsTo, RightWhereKept, BuiltOver, Inv;
    InvReachable(cfg, w0, cut);
    SuccessIsScratchBuildIff(again, cut.world, s);
    BuiltOverIgnoresFlags(cfg, again, cut.world, s.world);
    BuiltFromCut(cfg, w0, cut, s.world);
  }

  /** It is safe to select again whatever the first run replaces; so it is after a run without flags. */
  lemma SelectingAgainIsSafe(cfg: Config, w0: World, again: Config)
    requires GoodConfig(cfg)
    requires forall u :: u in cfg.g.nodes && Replaces(cfg, w0, u) ==> RebuildFlag(again, u)
    ensures SafeToResume(cfg, w0, again)
  {
    hide GoodGraph, At, Scheduled, Scratch;
  }

  /** When the rounds of the first run fit, that is the only safe way. */
  lemma SafeToResumeIff(cfg: Config, w0: World, again: Config)
    requires GoodConfig(cfg) && RoundsFit(cfg)
    ensures SafeToResume(cfg, w0, again) <==>
            forall u :: u in cfg.g.nodes && Replaces(cfg, w0, u) ==> RebuildFlag(again, u)
  {
    hide GoodGraph, At, Scheduled, Scratch;
    forall u | u in cfg.g.nodes ensures Scheduled(cfg, u) {
      AllScheduledIfRoundsFit(cfg, w0, u);
    }
  }

  /** A first run without rebuild flags can be resumed in any way. */
  lemma PlainRunResumes(cfg: Config, w0: World, cut: Sys, again: Config, s: Sys)
    requires GoodConfig(cfg) && RightWhereRegistered(cfg, w0) && !cfg.rebuild && !cfg.rebuildAll
    requires GoodConfig(again) && SameBuild(cfg, again)
    requires RunsTo(cfg, w0, cut) && RunsTo(again, cut.world, s) && s.phase == Returned(Success)
    ensures BuiltOver(cfg, w0, s.world)
  {
    hide GoodGraph, RunsTo, BuiltOver, SafeToResume, Holds, RoundsFit;
    assert RightWhereKept(cfg, w0);
    hide RightWhereKept, GoodConfig;
    SelectingAgainIsSafe(cfg, w0, again);
    ResumptionIsRightIff(cfg, w0, again);
  }

  /** With the same flags a cut store leads to the same outcome for every unit, whatever the store held. */
  lemma {:induction false} ExpectedFromCut(cfg: Config, w0: World, cut: Sys, again: Config, u: Unit)
    requires Inv(cfg, w0, cut) && u in cfg.g.nodes
    requires again == cfg.(maxJobs := again.maxJobs) && GoodConfig(again)
    ensures Expected(again, cut.world, u) == Expected(cfg, w0, u)
    decreases Below(cfg.g, u)
  {
    hide GoodGraph, DistinctNodes, Rel, At, ReadSlots, SchedInv, StoreInv;
    AcyclicOfGood(cfg.g);
    var mine := map d | d in u.Deps() :: Expected(cfg, w0, DepNode(cfg.g, u, d));
    var theirs := map d | d in u.Deps() :: Expected(again, cut.world, DepNode(cfg.g, u, d));
    forall d | d in u.Deps() ensures mine[d] == theirs[d] {
      BelowShrinks(cfg.g, u, DepNode(cfg.g, u, d));
      ExpectedFromCut(cfg, w0, cut, again, DepNode(cfg.g, u, d));
    }
    assert mine == theirs;
    assert ExpectedOutput(again, cut.world, u) == ExpectedOutput(cfg, w0, u);
    SlotFromCut(cfg, w0, cut, u);
  }

  lemma SlotFromCut(cfg: Config, w0: World, cut: Sys, u: Unit)
    requires Inv(cfg, w0, cut) && u in cfg.g.nodes
    ensures SlotAfter(RebuildFlag(cfg, u), At(cut.world, u.StorePath()), ExpectedOutput(cfg, w0, u))
            == Expected(cfg, w0, u)
  {
    hide GoodGraph, SchedInv, UnitsInv, ExpectedOutput, At;
    UnitAt(cfg, w0, cut, u);
  }

  /**
    Resumption with the same flags: from any store, right or wrong, a run cut
    short anywhere and resumed until it succeeds ends in the same store as an
    uninterrupted run.
   */
  lemma ResumedEqualsUninterrupted(cfg: Config, w0: World, cut: Sys, again: Config, s: Sys, t: Sys)
    requires GoodConfig(cfg) && RunsTo(cfg, w0, cut)
    requires again == cfg.(maxJobs := again.maxJobs) && GoodConfig(again)
    requires RunsTo(again, cut.world, s) && s.phase == Returned(Success)
    requires RunsTo(cfg, w0, t) && t.phase == Returned(Success)
    ensures s.world == t.world
  {
    hide GoodGraph, RunsTo, Inv, At, Expected;
    InvReachable(cfg, w0, cut);
    SuccessSettles(cfg, w0, t);
    SuccessSettles(again, cut.world, s);
    forall u | u in cfg.g.nodes ensures Meets(cfg, w0, s.world, u) {
      ExpectedFromCut(cfg, w0, cut, again, u);
      assert Meets(again, cut.world, s.world, u);
    }
    OthersUntouched(cfg, w0, cut);
    SettledIsUnique(cfg, w0, All(cfg.g), s.world, t.world);
  }

  lemma OthersUntouched(cfg: Config, w0: World, s: Sys)
    requires Inv(cfg, w0, s)
    ensures forall p :: (forall u :: u in All(cfg.g) ==> u.StorePath() != p) ==> At(s.world, p) == At(w0, p)
  {
    hide GoodGraph, At, SchedInv, UnitsInv;
    forall p | forall u :: u in All(cfg.g) ==> u.StorePath() != p ensures At(s.world, p) == At(w0, p) {
      if u :| u in cfg.g.nodes && u.StorePath() == p {
      }
    }
  }
}
