/**
  Concrete inputs: chains of packages, on which the sentry can be seen to
  decide, and one package whose old output is wrong or cannot be removed.
 */
module Witnesses {
  import opened Common
  import opened Units
  import opened Paths
  import opened Graphs
  import opened Waves
  import opened Database
  import opened Tasks
  import opened Scheduler
  import opened Contents
  import opened Progress
  import opened Guarantees
  import opened Template
  import opened Evaluator
  import opened Pipeline

  // ------------------------------------------------------ chains of packages

  function LinkName(i: nat): MiqResult {
    seq(i + 1, _ => 'a')
  }

  /** Package `i` of `n`: it depends on the next one, the last on nothing. */
  function Link(n: nat, i: nat): Unit {
    PackageUnit(Package(LinkName(i), LinkName(i), None, if i + 1 < n then {LinkName(i + 1)} else {}, "", map[]))
  }

  function ChainGraph(n: nat): UnitDag
    requires n >= 1
  {
    UnitDag(seq(n, i requires 0 <= i < n => Link(n, i)), seq(n - 1, i requires 0 <= i < n - 1 => (i, i + 1)))
  }

  ghost predicate IsChainConfig(cfg: Config, n: nat) {
    n >= 1 && cfg.g == ChainGraph(n) && cfg.root == Link(n, 0)
  }

  lemma {:induction false} EdgesAscend(n: nat, p: seq<nat>)
    requires n >= 1 && IsPath(EdgeSet(ChainGraph(n).edges), p)
    ensures p[|p| - 1] == p[0] + |p| - 1
    decreases |p|
  {
    if |p| > 1 {
      EdgesAscend(n, p[..|p| - 1]);
      assert (p[|p| - 2], p[|p| - 1]) in EdgeSet(ChainGraph(n).edges);
    }
  }

  lemma ChainInRange(n: nat)
    requires n >= 1
    ensures InRange(ChainGraph(n))
  {
  }

  lemma LinkEdge(n: nat, i: nat)
    requires i + 1 < n && InRange(ChainGraph(n))
    ensures (Link(n, i), Link(n, i + 1)) in Rel(ChainGraph(n))
  {
    assert ChainGraph(n).edges[i] == (i, i + 1);
  }

  lemma EdgeIsLink(n: nat, e: (Unit, Unit)) returns (i: nat)
    requires n >= 1 && InRange(ChainGraph(n)) && e in Rel(ChainGraph(n))
    ensures i + 1 < n && e == (Link(n, i), Link(n, i + 1))
  {
    hide Link;
    var k :| k in ChainGraph(n).edges && e == (ChainGraph(n).nodes[k.0], ChainGraph(n).nodes[k.1]);
    i := k.0;
  }

  lemma ChainIsGood(cfg: Config, n: nat)
    requires IsChainConfig(cfg, n)
    ensures GoodConfig(cfg)
  {
    var g := cfg.g;
    ChainInRange(n);
    forall i, j | 0 <= i < j < n ensures g.nodes[i].Result() != g.nodes[j].Result() {
      if g.nodes[i].Result() == g.nodes[j].Result() {
        LinksDiffer(n, i, j);
      }
    }
    forall a: nat ensures !Plus(EdgeSet(g.edges), a, a) {
      if p :| PathFrom(EdgeSet(g.edges), p, a, a) && |p| >= 2 {
        EdgesAscend(n, p);
      }
    }
    AcyclicRel(g);
    forall u | u in g.nodes ensures u.Deps() == DepResults(g, u) {
      LinkDeps(n, IndexOf(g, u));
    }
  }

  lemma LinksDiffer(n: nat, i: nat, j: nat)
    requires Link(n, i).Result() == Link(n, j).Result()
    ensures i == j
  {
    assert |LinkName(i)| == i + 1 && |LinkName(j)| == j + 1;
  }

  lemma LinkDeps(n: nat, i: nat)
    requires i < n
    ensures InRange(ChainGraph(n)) && Link(n, i).Deps() == DepResults(ChainGraph(n), Link(n, i))
  {
    ChainInRange(n);
    var u, rel := Link(n, i), Rel(ChainGraph(n));
    forall e | e in rel && e.0 == u ensures i + 1 < n && e.1 == Link(n, i + 1) {
      hide Link;
      var j := EdgeIsLink(n, e);
      LinksDiffer(n, i, j);
    }
    if i + 1 < n {
      LinkEdge(n, i);
    }
  }

  lemma ChainIsChain(cfg: Config, n: nat)
    requires IsChainConfig(cfg, n)
    ensures GoodConfig(cfg) && Chain(cfg.g, {}, cfg.g.nodes)
  {
    ChainIsGood(cfg, n);
    hide Link, GoodGraph;
    forall i, j | 0 <= i && j == i + 1 && j < n ensures (cfg.g.nodes[i], cfg.g.nodes[j]) in Rel(cfg.g) {
      LinkEdge(n, i);
    }
  }

  /** With any jobs at all and nothing failing, a chain of packages is built if and only if it has at most 31 links. */
  lemma ChainIsBuiltIff(cfg: Config, n: nat, w0: World, s: Sys)
    requires IsChainConfig(cfg, n) && cfg.maxJobs >= 1
    requires RunsSmoothlyTo(cfg, w0, s) && s.phase.Returned?
    ensures GoodConfig(cfg)
    ensures s.phase.result == Success <==> n <= 31
  {
    hide Link, GoodGraph, RunsSmoothlyTo, RunsTo, Chain;
    ChainIsChain(cfg, n);
    if n <= 31 {
      SmallGraphsFit(cfg, w0, s);
    } else {
      SmoothIsRun(cfg, w0, s);
      LongChainsDoNotFit(cfg, w0, s, cfg.g.nodes);
    }
  }

  /**
    The sentry stops real builds: from every store, with any flags and jobs,
    32 packages in a chain are never built, and a run in which all tasks
    succeed returns the error of the sentry.
   */
  lemma LongChainIsRefused(cfg: Config, n: nat, w0: World) returns (s: Sys)
    requires IsChainConfig(cfg, n) && n >= 32
    ensures GoodConfig(cfg)
    ensures forall t :: RunsTo(cfg, w0, t) ==> t.phase != Returned(Success)
    ensures RunsSmoothlyTo(cfg, w0, s) && s.phase.Returned? && s.phase.result.SentryReached?
  {
    hide Link, GoodGraph, RunsSmoothlyTo, RunsTo, Chain, NoFailure;
    ChainIsChain(cfg, n);
    forall t | RunsTo(cfg, w0, t) ensures t.phase != Returned(Success) {
      LongChainsDoNotFit(cfg, w0, t, cfg.g.nodes);
    }
    SmoothStart(cfg, w0);
    s := RunCompletes(cfg, w0, Init(cfg, w0));
    SmoothIsRun(cfg, w0, s);
    NeverFailed(cfg, w0, s);
  }

  lemma NeverFailed(cfg: Config, w0: World, s: Sys)
    requires GoodConfig(cfg) && RunsSmoothlyTo(cfg, w0, s) && s.phase.Returned?
    ensures !s.phase.result.TaskFailed?
  {
    hide SchedInv;
    SmoothNeverFails(cfg, w0, s);
  }

  // ------------------------------------------------------------- one package

  /** The only unit of the one-link chain. */
  const LONE: Unit := Link(1, 0)

  /** A plain run over the lone package, once registered, succeeds and looks no further. */
  lemma RegisteredIsKept(cfg: Config, w0: World) returns (s: Sys)
    requires IsChainConfig(cfg, 1) && cfg.maxJobs >= 1 && !cfg.rebuild && !cfg.rebuildAll
    requires At(w0, LONE.StorePath()).registered
    ensures RunsTo(cfg, w0, s) && s.phase == Returned(Success) && s.world == w0
  {
    hide Link, GoodGraph, IsScanCount, RunsSmoothlyTo, RunsTo;
    ChainIsGood(cfg, 1);
    AcyclicOfGood(cfg.g);
    assert cfg.g.nodes == [LONE];
    var w := ScanCountExists(cfg.g, cfg.maxJobs);
    s := SuccessIsReachable(cfg, w0, w);
    SmoothIsRun(cfg, w0, s);
    NothingToDo(cfg, w0, s);
  }

  /** Other content under a registered path is not noticed: the run succeeds without building from scratch. */
  lemma WrongContentIsKept(cfg: Config, w0: World) returns (s: Sys)
    requires IsChainConfig(cfg, 1) && cfg.maxJobs >= 1 && !cfg.rebuild && !cfg.rebuildAll && GoodConfig(cfg)
    requires LONE in cfg.g.nodes && At(w0, LONE.StorePath()).registered && !Holds(cfg, w0, LONE)
    ensures RunsTo(cfg, w0, s) && s.phase == Returned(Success) && !BuiltOver(cfg, w0, s.world)
  {
    hide Link, GoodGraph, RunsTo, Scratch;
    s := RegisteredIsKept(cfg, w0);
  }

  /** The lone package is spawned and the scan is over. */
  lemma LoneIsSpawned(cfg: Config, w0: World) returns (s: Sys)
    requires IsChainConfig(cfg, 1) && cfg.maxJobs >= 1 && InRange(cfg.g)
    ensures RunsTo(cfg, w0, s) && s.phase == Draining && s.world == w0
    ensures s.futs == map[LONE := Spawned(0)]
  {
    hide Link, RunsTo;
    var s0 := Init(cfg, w0);
    assert cfg.g.nodes[0] == cfg.root == LONE && cfg.g.edges == [];
    assert PackagesBuilding(s0.tasks) == {};
    ReachStart(cfg, w0);
    ReachStep(cfg, w0, s0, Visit(0));
    s := Do(cfg, s0, Visit(0));
    ReachStep(cfg, w0, s, EndScan);
    s := Do(cfg, s, EndScan);
  }

  /** `--rebuild` fails after deleting the old output of the lone package in part. */
  lemma RemovalIsTorn(cfg: Config, w0: World) returns (cut: Sys)
    requires IsChainConfig(cfg, 1) && cfg.maxJobs >= 1 && cfg.rebuild && InRange(cfg.g)
    requires At(w0, LONE.StorePath()).registered && At(w0, LONE.StorePath()).file.Some?
    ensures RunsTo(cfg, w0, cut) && cut.phase == Returned(TaskFailed(LONE))
    ensures At(cut.world, LONE.StorePath()) == Slot(true, Some(Partial("rest")))
  {
    hide Link, RunsTo, Put, At, Inputs;
    var path, torn := LONE.StorePath(), Slot(true, Some(Partial("rest")));
    var s := LoneIsSpawned(cfg, w0);
    PutAt(w0, path, At(w0, path), path);
    ReachStep(cfg, w0, s, Step(LONE, Go));
    s := Do(cfg, s, Step(LONE, Go));
    PutAt(s.world, path, torn, path);
    ReachStep(cfg, w0, s, Step(LONE, Error(Some("rest"))));
    s := Do(cfg, s, Step(LONE, Error(Some("rest"))));
    ReachStep(cfg, w0, s, Collect(LONE));
    cut := Do(cfg, s, Collect(LONE));
  }

  /**
    Resumption can fail: from a store that was right, `--rebuild` is refused in
    the middle of a deletion, the damaged path stays registered, and the plain
    run that follows succeeds over it.
   */
  lemma TornRemovalIsKept(cfg: Config, w0: World, again: Config) returns (cut: Sys, s: Sys)
    requires IsChainConfig(cfg, 1) && cfg.maxJobs >= 1 && cfg.rebuild && GoodConfig(cfg)
    requires LONE in cfg.g.nodes && Holds(cfg, w0, LONE)
    requires again == cfg.(rebuild := false, rebuildAll := false)
    ensures RightWhereRegistered(cfg, w0)
    ensures RunsTo(cfg, w0, cut) && cut.phase == Returned(TaskFailed(LONE))
    ensures RunsTo(again, cut.world, s) && s.phase == Returned(Success)
    ensures !SoundSlot(At(s.world, LONE.StorePath())) && !BuiltOver(cfg, w0, s.world)
  {
    hide Link, GoodGraph, RunsTo, Scratch, Expected;
    cut := RemovalIsTorn(cfg, w0);
    s := RegisteredIsKept(again, cut.world);
    assert !Holds(cfg, s.world, LONE);
  }

  // ----------------------------------------------------------- an evaluation

  const SOURCE: Unit := FetchUnit(Fetch("src-0", "src", "http://src", "FIXME", false))

  const SCRIPT: MetaTextInput := Full(MetaText([SOURCE.Result()], SOURCE.StorePath()))

  const USER: PackageInput := PackageInput("user", None, SCRIPT, None, None)

  const USER_UNIT: Unit := PackageUnit(Package("user-1", "user", None, {SOURCE.Result()}, SOURCE.StorePath(), map[]))

  function SourceCall(): Call {
    FetchCall(FetchInput(Url("http://src", Some(["src"])), None))
  }

  function SmallHost(): Host {
    Host((c: Call) => if c.FetchCall? then "0" else "1",
         (u: Unit) => if u.FetchUnit? then "f" else "p",
         (text: string) => Some(if text == HEADER + "f" then SOURCE else USER_UNIT),
         (text: string) => text)
  }

  lemma SmallUnits()
    ensures UnitFor(SmallHost(), SourceCall()) == Some(SOURCE)
    ensures UnitFor(SmallHost(), PackageCall(USER)) == Some(USER_UNIT)
  {
    assert "src" + "-" + "0" == "src-0" && "user" + "-" + "1" == "user-1";
    var none: map<string, MetaTextInput> := map[];
    assert EnvDeps(none) == {};
    assert TextDeps(SCRIPT) == {SOURCE.Result()};
    var u := PackageUnitFor(SmallHost(), USER).package;
    assert u.deps == {SOURCE.Result()} && u.env == map[] && u.result == "user-1";
  }

  /** A script `{{x}}`, with the fetched unit for `x`, is read as `SCRIPT`. */
  lemma ScriptIsMade() returns (made: Made)
    ensures Sources(made) == {SOURCE} && IsTextOf(made, USER)
    ensures ValueOf(made).Ok? && ReadText(ValueOf(made).value) == Some(SCRIPT)
  {
    var ps, path, r := [Code("x")], SOURCE.StorePath(), SOURCE.Result();
    made := MadeByF(Print(ps), map["x" := MadeUnit(SOURCE)]);
    ScanUndoesPrint(ps);
    HolePrinted("x");
    var block := Block(PrintPiece(Code("x")));
    assert PiecesTokens(ps) == [block];
    hide Tokens, Hole, Print;
    FOnPrintedTemplate(ps, HolesEnv(made));
    ThenNothing(ExpandCode("x", HolesEnv(made)));
    assert MeaningAll(ps, HolesEnv(made)) == Ok((path, [Dep(r)]));
    assert Results([Dep(r)]) == [r];
    assert CodeOf(block) == Some("x") && block in Tokens(made.raw);
    assert Sources(made.holes["x"]) == {SOURCE};
  }

  lemma UserIsWritten()
    ensures WrittenFrom(USER, {SOURCE}) && Mentions(USER, SOURCE)
  {
    hide Sources, ValueOf, ReadText;
    var made := ScriptIsMade();
    assert MadeFrom(SCRIPT, {SOURCE});
  }

  lemma SmallHostIsGood(calls: seq<Call>)
    requires calls == [SourceCall(), PackageCall(USER)]
    ensures forall c :: c in calls ==> UnitFor(SmallHost(), c).Some?
    ensures HashesWell(SmallHost(), calls) && ReadsBack(SmallHost(), calls)
  {
    SmallUnits();
    hide UnitFor;
    assert (HEADER + "f")[|HEADER|] == 'f' && (HEADER + "p")[|HEADER|] == 'p';
  }

  /** A fetch and a package whose script mentions it: what evaluations are assumed to be like can be met. */
  lemma EvaluationExists() returns (calls: seq<Call>)
    ensures |calls| == 2 && Evaluation(SmallHost(), calls) && WrittenInOrder(SmallHost(), calls)
    ensures calls[1] == PackageCall(USER) && Mentions(USER, CallUnit(SmallHost(), calls, 0))
  {
    var h := SmallHost();
    calls := [SourceCall(), PackageCall(USER)];
    SmallUnits();
    SmallHostIsGood(calls);
    hide UnitFor, Sources, ValueOf, ReadText, IsText, HashesWell, ReadsBack, SmallHost;
    assert CallUnit(h, calls, 0) == SOURCE;
    assert Earlier(h, calls, 1) == {SOURCE};
    UserIsWritten();
    WrittenInOrderDependsInOrder(h, calls);
  }
}
