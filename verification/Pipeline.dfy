/**
  The whole path from Lua text to store content: what `f` interpolates is
  recorded, resolved, and in place before the script that mentions it runs.
 */
module Pipeline {
  import opened Common
  import opened Units
  import opened Paths
  import opened Graphs
  import opened Waves
  import opened Database
  import opened Resolver
  import opened Scheduler
  import opened Contents
  import opened Guarantees
  import opened Build
  import opened Template
  import opened Evaluator

  /** How a package table reads a text: a string, or a table with a readable, nonempty `deps` list. */
  function ReadText(v: LuaValue): Option<MetaTextInput> {
    match v
    case LuaString(text) => Some(Simple(text))
    case LuaMeta(value, deps) =>
      if deps != [] && AllDeps(deps) then Some(Full(MetaText(Results(deps), value))) else None
    case _ => None
  }

  lemma ReadTextDeps(v: LuaValue)
    requires ReadText(v).Some?
    ensures TextDeps(ReadText(v).value) == DepSet(v)
  {
    if v.LuaMeta? {
      forall d ensures d in Results(v.deps) <==> Dep(d) in v.deps {
        if Dep(d) in v.deps {
          var i :| 0 <= i < |v.deps| && v.deps[i] == Dep(d);
          assert Results(v.deps)[i] == d;
        }
        if d in Results(v.deps) {
          var i :| 0 <= i < |v.deps| && Results(v.deps)[i] == d;
          assert v.deps[i] == Dep(d);
        }
      }
    }
  }

  /** A value is read as a text exactly if it is a string or a table with a proper list, and keeps what it shows. */
  lemma ReadTextShows(v: LuaValue)
    ensures ReadText(v).Some? <==> v.LuaString? || (v.LuaMeta? && Proper(v))
    ensures ReadText(v).Some? ==>
      match ReadText(v).value
      case Simple(text) => text == ShownText(v)
      case Full(meta) => meta.value == ShownText(v)
  {
  }

  /** `source` was interpolated, at some depth, into the script or an environment value of the package. */
  ghost predicate Mentions(input: PackageInput, source: Unit) {
    exists made: Made :: IsTextOf(made, input) && source in Sources(made)
  }

  /** The value built as `made` is read as one of the texts of the package. */
  ghost predicate IsTextOf(made: Made, input: PackageInput) {
    && ValueOf(made).Ok? && ReadText(ValueOf(made).value).Some?
    && IsText(input, ReadText(ValueOf(made).value).value)
  }

  /** Every unit interpolated into a text of a package is among the recorded dependencies. */
  lemma InterpolatedIsRecorded(h: Host, input: PackageInput, source: Unit)
    requires Mentions(input, source)
    ensures source.Result() in PackageUnitFor(h, input).Deps()
  {
    hide Sources, DepSet, ValueOf, ReadText, IsText, PackageUnitFor;
    var made: Made :| IsTextOf(made, input) && source in Sources(made);
    FRecordsSources(made);
    ReadTextDeps(ValueOf(made).value);
    TextIsRecorded(h, input, ReadText(ValueOf(made).value).value, source.Result());
  }

  /** The results of the first `k` calls. */
  function Earlier(h: Host, calls: seq<Call>, k: nat): set<Unit>
    requires k <= |calls| && forall c :: c in calls ==> UnitFor(h, c).Some?
  {
    set j: nat | j < k :: CallUnit(h, calls, j)
  }

  /** The text is a string or made by `f`, with nothing but `units` interpolated. */
  ghost predicate MadeFrom(t: MetaTextInput, units: set<Unit>) {
    exists made: Made :: Sources(made) <= units && ValueOf(made).Ok? && ReadText(ValueOf(made).value) == Some(t)
  }

  /** What the author of a package has at hand are the results of earlier calls. */
  ghost predicate WrittenFrom(input: PackageInput, units: set<Unit>) {
    && (input.deps.Some? ==> forall v :: v in input.deps.value ==> v in units)
    && (forall t :: IsText(input, t) ==> MadeFrom(t, units))
  }

  ghost predicate WrittenInOrder(h: Host, calls: seq<Call>)
    requires forall c :: c in calls ==> UnitFor(h, c).Some?
  {
    forall k: nat :: k < |calls| && calls[k].PackageCall? ==> WrittenFrom(calls[k].package, Earlier(h, calls, k))
  }

  lemma TextDepsAreEarlier(t: MetaTextInput, units: set<Unit>, d: MiqResult) returns (u: Unit)
    requires MadeFrom(t, units) && d in TextDeps(t)
    ensures u in units && u.Result() == d
  {
    hide Sources, ValueOf, ReadText, DepSet;
    var made: Made :| Sources(made) <= units && ValueOf(made).Ok? && ReadText(ValueOf(made).value) == Some(t);
    FRecordsSources(made);
    ReadTextDeps(ValueOf(made).value);
    u :| u in Sources(made) && u.Result() == d;
  }

  /** Packages written with the results of earlier calls depend on earlier results only. */
  lemma WrittenInOrderDependsInOrder(h: Host, calls: seq<Call>)
    requires forall c :: c in calls ==> UnitFor(h, c).Some?
    requires WrittenInOrder(h, calls)
    ensures DepsAreEarlier(h, calls)
  {
    hide MadeFrom, PackageUnitFor, IsText;
    forall k: nat, d | k < |calls| && d in CallUnit(h, calls, k).Deps()
      ensures exists j: nat :: j < k && CallUnit(h, calls, j).Result() == d
    {
      var input, units := calls[k].package, Earlier(h, calls, k);
      PackageRecords(h, input);
      var u: Unit;
      if input.deps.Some? && exists v :: v in input.deps.value && v.Result() == d {
        u :| u in input.deps.value && u.Result() == d;
      } else {
        var t :| IsText(input, t) && d in TextDeps(t);
        u := TextDepsAreEarlier(t, units, d);
      }
      assert u in units;
    }
  }

  /** The store path of every unit interpolated into an environment value can be read in what the package records. */
  lemma InterpolatedIsShown(h: Host, input: PackageInput, key: string, made: Made, source: Unit)
    requires input.env.Some? && key in input.env.value
    requires ValueOf(made).Ok? && ReadText(ValueOf(made).value) == Some(input.env.value[key])
    requires source in Sources(made)
    ensures key in PackageUnitFor(h, input).package.env
    ensures Contains(PackageUnitFor(h, input).package.env[key], source.StorePath())
  {
    hide Sources, ValueOf, ReadText, Contains, ShownText, PackageUnitFor;
    PackageRecords(h, input);
    FShowsSources(made, source);
    ReadTextShows(ValueOf(made).value);
  }

  /** So can it be in the text that becomes the script, once it is dedented. */
  lemma InterpolatedIsInScript(h: Host, input: PackageInput, made: Made, source: Unit) returns (text: string)
    requires ValueOf(made).Ok? && ReadText(ValueOf(made).value) == Some(input.script)
    requires source in Sources(made)
    ensures PackageUnitFor(h, input).package.script == h.dedent(text) && Contains(text, source.StorePath())
  {
    hide Sources, ValueOf, ReadText, Contains, ShownText, PackageUnitFor;
    PackageRecords(h, input);
    FShowsSources(made, source);
    ReadTextShows(ValueOf(made).value);
    text := ShownText(ValueOf(made).value);
  }

  /** The graph resolved from an evaluated store is one the scheduler can rely on. */
  lemma EvaluatedGraphIsGood(h: Host, calls: seq<Call>, cfg: Config)
    requires Evaluation(h, calls) && cfg.root in StoreAfter(h, calls).Values
    requires Exact(StoreAfter(h, calls), cfg.root, cfg.g)
    ensures AgreesWith(StoreAfter(h, calls), cfg.root) && GoodConfig(cfg)
  {
    hide UnitFor, FilesAfter, Load, Exact, GoodConfig, Resolvable;
    EvaluatedStoreResolves(h, calls, cfg.root);
    ResolvedIsGood(StoreAfter(h, calls), cfg.root, cfg);
  }

  /** In the graph of an evaluation a node is the stored unit with its identifier. */
  lemma NodeIsStored(h: Host, calls: seq<Call>, cfg: Config, v: Unit, source: Unit)
    requires Evaluation(h, calls) && cfg.root in StoreAfter(h, calls).Values
    requires Exact(StoreAfter(h, calls), cfg.root, cfg.g) && v in cfg.g.nodes
    requires source in StoreAfter(h, calls).Values && v.Result() == source.Result()
    ensures v == source
  {
    hide UnitFor, FilesAfter, Load;
    var store := StoreAfter(h, calls);
    StoreIsExact(h, calls);
    assert Closed(DepRel(store, cfg.root), store.Values);
    ClosedKeepsStar(DepRel(store, cfg.root), store.Values, cfg.root, v);
  }

  /**
    End to end: while the script of a package is being built, every result of a
    call that was interpolated into its texts, at any depth, is a child of the
    package in the graph, finished, and registered with its expected content:
    the content built from scratch, if what the build keeps of the store is right.
   */
  lemma InterpolatedIsBuiltFirst(h: Host, calls: seq<Call>, input: PackageInput, j: nat, cfg: Config, w0: World, s: Sys)
    requires Evaluation(h, calls) && cfg.root in StoreAfter(h, calls).Values
    requires Exact(StoreAfter(h, calls), cfg.root, cfg.g) && RunsTo(cfg, w0, s)
    requires j < |calls| && Mentions(input, CallUnit(h, calls, j))
    requires PackageUnitFor(h, input) in s.futs
    ensures GoodConfig(cfg)
    ensures var source := CallUnit(h, calls, j);
      && source in cfg.g.nodes && (PackageUnitFor(h, input), source) in Rel(cfg.g)
      && source in s.tasks && s.tasks[source] == Finished
      && Meets(cfg, w0, s.world, source) && At(s.world, source.StorePath()).registered
      && (SoundSlot(At(w0, source.StorePath())) ==> SoundSlot(At(s.world, source.StorePath())))
      && (RightWhereKept(cfg, w0) ==> Holds(cfg, s.world, source))
  {
    var source := CallUnit(h, calls, j);
    hide Mentions, PackageUnitFor, GoodConfig, RunsTo, Exact, Evaluation, RightWhereKept, Expected, UnitFor, StoreAfter;
    EvaluatedGraphIsGood(h, calls, cfg);
    InterpolatedIsRecorded(h, input, source);
    var v := RecordedIsBuiltFirst(cfg, w0, s, PackageUnitFor(h, input), source.Result());
    StoreIsExact(h, calls);
    NodeIsStored(h, calls, cfg, v, source);
  }

  /**
    Evaluates a sequence of calls into an empty directory and builds one of the
    resulting units. The graph always resolves. Success leaves every unit as
    expected and nothing else changed; that is the from-scratch content if and
    only if what the build kept of the store had it.
   */
  method EvaluateAndBuild(h: Host, calls: seq<Call>, target: nat, args: Args, numCpus: nat, conn: DbConnection,
                          produce: (Unit, map<MiqResult, File>) -> string)
    returns (r: Outcome<BuildError>, ghost cfg: Config, ghost last: Sys)
    requires Evaluation(h, calls) && target < |calls| && conn.Valid()
    modifies conn
    ensures !(r.Fail? && r.error.Unresolved?)
    ensures GoodConfig(cfg) && cfg.root == CallUnit(h, calls, target)
    ensures Exact(StoreAfter(h, calls), cfg.root, cfg.g)
    ensures cfg.produce == produce && cfg.rebuild == args.rebuild && cfg.rebuildAll == args.rebuildAll
    ensures RunsTo(cfg, old(conn.View()), last) && last.world == conn.View()
    ensures forall s :: RunsTo(cfg, old(conn.View()), s) ==>
      |PackagesBuilding(s.tasks)| <= if args.maxJobs.Some? then args.maxJobs.value else numCpus
    ensures r.Fail? && r.error.BuildFailed? ==> r.error.unit in last.futs && last.futs[r.error.unit].HasFailed()
    ensures !(r.Fail? && r.error.BuildFailed?) ==>
      forall w: nat :: IsScanCount(cfg.g, if args.maxJobs.Some? then args.maxJobs.value else numCpus, w) ==>
        (r.Pass? <==> |cfg.g.nodes| * w <= 1001)
    ensures r.Pass? ==>
      forall u :: u in cfg.g.nodes ==>
        (last.made[u] == 1 <==>
           || u.StorePath() !in old(conn.View()).table
           || (args.rebuild && u == CallUnit(h, calls, target))
           || (!args.rebuild && args.rebuildAll && u.PackageUnit?))
    ensures r.Pass? ==>
      && Settled(cfg, old(conn.View()), All(cfg.g), conn.View())
      && (BuiltOver(cfg, old(conn.View()), conn.View()) <==> RightWhereKept(cfg, old(conn.View())))
  {
    var evaluator := new Evaluator(h, map[]);
    var root := CallUnit(h, calls, target);
    for k := 0 to |calls|
      invariant evaluator.host == h && fresh(evaluator)
      invariant evaluator.files == FilesAfter(h, calls[..k])
      invariant conn.Valid() && conn.View() == old(conn.View())
    {
      assert calls[..k + 1][..k] == calls[..k];
      match calls[k] {
        case FetchCall(input) =>
          var unit := evaluator.FetchUnitOf(input);
          assert unit == UnitFor(h, calls[k]);
        case PackageCall(input) =>
          var unit := evaluator.PackageUnitOf(input);
      }
    }
    assert calls[..|calls|] == calls;
    var store := Load(h, evaluator.files);
    StoreIsExact(h, calls);
    assert store[root.Result()] == root;
    EvaluatedStoreResolves(h, calls, root);
    r, cfg, last := BuildGraph(args, numCpus, store, root, conn, produce);
  }
}
