/**
  Where the evaluation store comes from: `miq.package` (src/lua_package.rs),
  `miq.fetch` (src/lua_fetch.rs) and `Unit::write_to_disk` (src/eval.rs). Each
  call writes one unit; its dependencies are units returned by earlier calls.
 */
module Evaluator {
  import opened Common
  import opened Units
  import opened Paths
  import opened Resolver

  datatype MetaText = MetaText(deps: seq<MiqResult>, value: string)

  datatype MetaTextInput = Simple(text: string) | Full(meta: MetaText)

  datatype PackageInput = PackageInput(
    name: string,
    version: Option<string>,
    script: MetaTextInput,
    deps: Option<seq<Unit>>,
    env: Option<map<string, MetaTextInput>>)

  /** A parsed URL: its text and the segments of its path, if it has any. */
  datatype Url = Url(text: string, segments: Option<seq<string>>)

  datatype FetchInput = FetchInput(url: Url, executable: Option<bool>)

  datatype Call = FetchCall(fetch: FetchInput) | PackageCall(package: PackageInput)

  /** The libraries behind the evaluator: the hash in hexadecimal, TOML, and textwrap. */
  datatype Host = Host(
    hash: Call -> string,
    serialize: Unit -> string,
    parse: string -> Option<Unit>,
    dedent: string -> string)

  const HEADER := "#:schema /miq/eval-schema.json\n"

  // ------------------------------------------------------------ one call

  /** `MiqResult::create`. */
  function Create(h: Host, name: string, call: Call): MiqResult {
    name + "-" + h.hash(call)
  }

  function TextDeps(t: MetaTextInput): set<MiqResult> {
    match t
    case Simple(_) => {}
    case Full(meta) => set d | d in meta.deps
  }

  function TextValue(t: MetaTextInput): string {
    match t
    case Simple(text) => text
    case Full(meta) => meta.value
  }

  /** `t` is the script or an environment value of the package. */
  ghost predicate IsText(input: PackageInput, t: MetaTextInput) {
    t == input.script || (input.env.Some? && exists k :: k in input.env.value && input.env.value[k] == t)
  }

  function HumanReadable(input: PackageInput): string {
    match input.version
    case None => input.name
    case Some(version) => input.name + "-" + version
  }

  /** The last segment of the path names a fetch; a URL without segments is a panic. */
  function FetchName(url: Url): Option<string> {
    if url.segments.None? || url.segments.value == [] then None
    else Some(url.segments.value[|url.segments.value| - 1])
  }

  function FetchUnitFor(h: Host, input: FetchInput): Option<Unit> {
    match FetchName(input.url)
    case None => None
    case Some(name) => Some(FetchUnit(Fetch(
      Create(h, name, FetchCall(input)), name, input.url.text, "FIXME",
      input.executable.Some? && input.executable.value)))
  }

  /** What the package is meant to record: every dependency of its texts and every explicit one. */
  ghost predicate IsPackageFor(h: Host, input: PackageInput, u: Unit) {
    && u.PackageUnit?
    && u.package.name == input.name && u.package.version == input.version
    && (input.version.None? ==> u.package.result == input.name + "-" + h.hash(PackageCall(input)))
    && (input.version.Some? ==>
          u.package.result == input.name + "-" + input.version.value + "-" + h.hash(PackageCall(input)))
    && (input.script.Simple? ==> u.package.script == h.dedent(input.script.text))
    && (input.script.Full? ==> u.package.script == h.dedent(input.script.meta.value))
    && u.package.env.Keys == (if input.env.None? then {} else input.env.value.Keys)
    && (forall k :: k in u.package.env ==>
          match input.env.value[k]
          case Simple(text) => u.package.env[k] == text
          case Full(meta) => u.package.env[k] == meta.value)
    && (forall d :: d in u.package.deps <==>
          (input.deps.Some? && exists v :: v in input.deps.value && v.Result() == d)
          || exists t :: IsText(input, t) && t.Full? && d in t.meta.deps)
  }

  /** What the fetch is meant to record: the last segment as its name; a URL without segments yields nothing. */
  ghost predicate IsFetchFor(h: Host, input: FetchInput, u: Option<Unit>) {
    && (u.None? <==> input.url.segments.None? || input.url.segments.value == [])
    && (u.Some? ==>
          var segments := input.url.segments.value;
          && u.value.FetchUnit?
          && u.value.fetch.name == segments[|segments| - 1]
          && u.value.fetch.result == segments[|segments| - 1] + "-" + h.hash(FetchCall(input))
          && u.value.fetch.url == input.url.text
          && u.value.fetch.integrity == "FIXME"
          && (u.value.fetch.executable <==> input.executable == Some(true)))
  }

  function EnvDeps(env: map<string, MetaTextInput>): set<MiqResult> {
    set k, d | k in env && d in TextDeps(env[k]) :: d
  }

  function PackageUnitFor(h: Host, input: PackageInput): Unit {
    var env := if input.env.Some? then input.env.value else map[];
    var deps := (if input.deps.Some? then set v | v in input.deps.value :: v.Result() else {})
      + TextDeps(input.script) + EnvDeps(env);
    PackageUnit(Package(
      Create(h, HumanReadable(input), PackageCall(input)),
      input.name, input.version, deps, h.dedent(TextValue(input.script)),
      map k | k in env :: TextValue(env[k])))
  }

  lemma FetchRecords(h: Host, input: FetchInput)
    ensures IsFetchFor(h, input, FetchUnitFor(h, input))
  {
  }

  /** Nothing a text or an explicit unit brings is lost, and nothing else is recorded. */
  lemma PackageRecords(h: Host, input: PackageInput)
    ensures IsPackageFor(h, input, PackageUnitFor(h, input))
  {
    var env := if input.env.Some? then input.env.value else map[];
    assert forall d :: d in EnvDeps(env) <==> exists k :: k in env && d in TextDeps(env[k]);
    forall d, t | IsText(input, t) && t.Full? && d in t.meta.deps ensures d in PackageUnitFor(h, input).Deps() {
      assert d in TextDeps(t);
    }
  }

  lemma TextIsRecorded(h: Host, input: PackageInput, t: MetaTextInput, d: MiqResult)
    requires IsText(input, t) && d in TextDeps(t)
    ensures d in PackageUnitFor(h, input).Deps()
  {
    PackageRecords(h, input);
  }

  function UnitFor(h: Host, call: Call): Option<Unit> {
    match call
    case FetchCall(input) => FetchUnitFor(h, input)
    case PackageCall(input) => Some(PackageUnitFor(h, input))
  }

  function FileText(h: Host, u: Unit): string {
    HEADER + h.serialize(u)
  }

  /** Opening for writing without truncation: a longer old file keeps its tail. */
  function Overwrite(existing: Option<string>, text: string): string {
    match existing
    case None => text
    case Some(before) => if |before| <= |text| then text else text + before[|text|..]
  }

  /** The new text comes first; what the old file had beyond its length stays where it was. */
  lemma OverwriteKeepsTail(before: string, text: string)
    ensures var after := Overwrite(Some(before), text);
      && |after| == (if |before| <= |text| then |text| else |before|)
      && (forall i :: 0 <= i < |text| ==> after[i] == text[i])
      && (forall i :: |text| <= i < |before| ==> after[i] == before[i])
  {
  }

  /** The files of /miq/eval, by the identifier their path encodes. */
  type EvalDir = map<MiqResult, string>

  function Write(h: Host, files: EvalDir, u: Unit): EvalDir {
    files[u.Result() := Overwrite(if u.Result() in files then Some(files[u.Result()]) else None, FileText(h, u))]
  }

  /** What `Unit::from_result` can read. */
  function Load(h: Host, files: EvalDir): EvalStore {
    map r | r in files && h.parse(files[r]).Some? :: h.parse(files[r]).value
  }

  /** The evaluator with its directory of unit files. */
  class Evaluator {
    const host: Host
    var files: EvalDir

    constructor (host: Host, files: EvalDir)
      ensures this.host == host && this.files == files
    {
      this.host, this.files := host, files;
    }

    method WriteToDisk(u: Unit)
      modifies this
      ensures files == Write(host, old(files), u)
      ensures var text := "#:schema /miq/eval-schema.json\n" + host.serialize(u);
        && files.Keys == old(files).Keys + {u.Result()}
        && |text| <= |files[u.Result()]| && files[u.Result()][..|text|] == text
        && files[u.Result()][|text|..] ==
             if u.Result() in old(files) && |text| <= |old(files)[u.Result()]|
             then old(files)[u.Result()][|text|..] else ""
    {
      var text := HEADER + host.serialize(u);
      if u.Result() in files && |files[u.Result()]| > |text| {
        text := text + files[u.Result()][|text|..];
      }
      files := files[u.Result() := text];
    }

    /** `Unit::try_from(FetchInput)`. */
    method FetchUnitOf(input: FetchInput) returns (u: Option<Unit>)
      modifies this
      ensures u == FetchUnitFor(host, input) && IsFetchFor(host, input, u)
      ensures files == if u.Some? then Write(host, old(files), u.value) else old(files)
    {
      var name := FetchName(input.url);
      if name.None? {
        return None;
      }
      var executable := match input.executable
        case None => false
        case Some(x) => x;
      var unit := FetchUnit(Fetch(Create(host, name.value, FetchCall(input)), name.value,
                                  input.url.text, "FIXME", executable));
      WriteToDisk(unit);
      u := Some(unit);
    }

    /** `Unit::try_from(PackageInput)`: the set of dependencies grows text by text. */
    method PackageUnitOf(input: PackageInput) returns (u: Unit)
      modifies this
      ensures u == PackageUnitFor(host, input) && IsPackageFor(host, input, u)
      ensures files == Write(host, old(files), u)
    {
      var deps: set<MiqResult> := {};
      if input.deps.Some? {
        deps := set v | v in input.deps.value :: v.Result();
      }
      var script;
      match input.script {
        case Simple(text) => script := text;
        case Full(meta) =>
          deps := deps + set d | d in meta.deps;
          script := meta.value;
      }
      assert script == TextValue(input.script);
      var metaEnv := if input.env.Some? then input.env.value else map[];
      var env;
      deps, env := CollectEnv(metaEnv, deps);
      u := PackageUnit(Package(
        Create(host, HumanReadable(input), PackageCall(input)),
        input.name, input.version, deps, host.dedent(script), env));
      PackageRecords(host, input);
      WriteToDisk(u);
    }
  }

  /** The closure over the environment: values are unwrapped, their dependencies extend the set. */
  method CollectEnv(metaEnv: map<string, MetaTextInput>, given: set<MiqResult>)
    returns (deps: set<MiqResult>, env: map<string, string>)
    ensures deps == given + EnvDeps(metaEnv)
    ensures env == map k | k in metaEnv :: TextValue(metaEnv[k])
  {
    deps, env := given, map[];
    var rest := metaEnv.Keys;
    while rest != {}
      invariant rest <= metaEnv.Keys && env.Keys == metaEnv.Keys - rest
      invariant forall k :: k in env ==> env[k] == TextValue(metaEnv[k])
      invariant forall d :: d in deps <==> d in given || exists k :: k in env && d in TextDeps(metaEnv[k])
    {
      var k :| k in rest;
      rest := rest - {k};
      ghost var before := deps;
      match metaEnv[k] {
        case Simple(text) => env := env[k := text];
        case Full(meta) =>
          deps := deps + set d | d in meta.deps;
          env := env[k := meta.value];
      }
      assert deps == before + TextDeps(metaEnv[k]);
    }
  }

  // --------------------------------------------------------- many calls

  /** The directory after a sequence of successful calls, starting from none. */
  function FilesAfter(h: Host, calls: seq<Call>): EvalDir
    requires forall c :: c in calls ==> UnitFor(h, c).Some?
    decreases |calls|
  {
    if calls == [] then map[]
    else Write(h, FilesAfter(h, calls[..|calls| - 1]), UnitFor(h, calls[|calls| - 1]).value)
  }

  function CallUnit(h: Host, calls: seq<Call>, k: nat): Unit
    requires k < |calls| && forall c :: c in calls ==> UnitFor(h, c).Some?
  {
    UnitFor(h, calls[k]).value
  }

  /** Every dependency of a call is the result of an earlier one. */
  ghost predicate DepsAreEarlier(h: Host, calls: seq<Call>)
    requires forall c :: c in calls ==> UnitFor(h, c).Some?
  {
    forall k: nat, d :: k < |calls| && d in CallUnit(h, calls, k).Deps() ==>
      exists j: nat :: j < k && CallUnit(h, calls, j).Result() == d
  }

  /** The hash tells the calls of this evaluation apart, and it is written in hexadecimal. */
  ghost predicate HashesWell(h: Host, calls: seq<Call>) {
    && (forall a, b :: a in calls && b in calls && h.hash(a) == h.hash(b) ==> a == b)
    && (forall a :: a in calls ==> '-' !in h.hash(a))
  }

  /** Reading the freshly written file of a call gives its unit back. */
  ghost predicate ReadsBack(h: Host, calls: seq<Call>)
    requires forall c :: c in calls ==> UnitFor(h, c).Some?
  {
    forall c :: c in calls ==> h.parse(FileText(h, UnitFor(h, c).value)) == UnitFor(h, c)
  }

  ghost predicate Evaluation(h: Host, calls: seq<Call>) {
    && (forall c :: c in calls ==> UnitFor(h, c).Some?)
    && DepsAreEarlier(h, calls) && HashesWell(h, calls) && ReadsBack(h, calls)
  }

  /** The last dash of an identifier separates the name from the hash. */
  lemma {:induction false} LastDashSplits(name1: string, hash1: string, name2: string, hash2: string)
    requires '-' !in hash1 && '-' !in hash2
    requires name1 + "-" + hash1 == name2 + "-" + hash2
    ensures name1 == name2 && hash1 == hash2
  {
    NoDashAfter(name1, hash1);
    NoDashAfter(name2, hash2);
    var s, t := name1 + "-" + hash1, name2 + "-" + hash2;
    assert s[|name1|] == '-' && t[|name2|] == '-';
    assert |name1| == |name2|;
    assert s[..|name1|] == name1 && t[..|name2|] == name2;
    assert s[|name1| + 1..] == hash1 && t[|name2| + 1..] == hash2;
  }

  lemma NoDashAfter(name: string, hash: string)
    requires '-' !in hash
    ensures forall i :: |name| < i < |name + "-" + hash| ==> (name + "-" + hash)[i] != '-'
  {
    forall i | |name| < i < |name + "-" + hash| ensures (name + "-" + hash)[i] != '-' {
      assert (name + "-" + hash)[i] == hash[i - |name| - 1];
    }
  }

  ghost function NameOf(h: Host, call: Call): string
    requires UnitFor(h, call).Some?
  {
    match call
    case FetchCall(input) => FetchName(input.url).value
    case PackageCall(input) => HumanReadable(input)
  }

  /** Calls with the same identifier are the same call. */
  lemma SameResultSameCall(h: Host, calls: seq<Call>, a: Call, b: Call)
    requires Evaluation(h, calls) && a in calls && b in calls
    requires UnitFor(h, a).value.Result() == UnitFor(h, b).value.Result()
    ensures a == b
  {
    LastDashSplits(NameOf(h, a), h.hash(a), NameOf(h, b), h.hash(b));
  }

  lemma EvaluationPrefix(h: Host, calls: seq<Call>)
    requires Evaluation(h, calls) && calls != []
    ensures Evaluation(h, calls[..|calls| - 1])
  {
    var front := calls[..|calls| - 1];
    forall k: nat, d | k < |front| && d in CallUnit(h, front, k).Deps()
      ensures exists j: nat :: j < k && CallUnit(h, front, j).Result() == d
    {
      assert front[k] == calls[k] && d in CallUnit(h, calls, k).Deps();
      var j: nat :| j < k && CallUnit(h, calls, j).Result() == d;
      assert CallUnit(h, front, j).Result() == d;
    }
  }

  /** Every file holds exactly the text of the one unit it is named after. */
  ghost predicate ExactFiles(h: Host, calls: seq<Call>, files: EvalDir)
    requires forall c :: c in calls ==> UnitFor(h, c).Some?
  {
    && (forall r :: r in files ==> exists k: nat :: k < |calls| && CallUnit(h, calls, k).Result() == r)
    && (forall k: nat :: k < |calls| ==>
          CallUnit(h, calls, k).Result() in files
          && files[CallUnit(h, calls, k).Result()] == FileText(h, CallUnit(h, calls, k)))
  }

  /** A file that is written again is written with the content it already has. */
  lemma RewriteIsIdentical(h: Host, calls: seq<Call>, files: EvalDir, call: Call)
    requires calls != [] && Evaluation(h, calls) && call == calls[|calls| - 1]
    requires ExactFiles(h, calls[..|calls| - 1], files)
    requires UnitFor(h, call).value.Result() in files
    ensures files[UnitFor(h, call).value.Result()] == FileText(h, UnitFor(h, call).value)
    ensures Write(h, files, UnitFor(h, call).value) == files
  {
    hide DepsAreEarlier, HashesWell, ReadsBack;
    var front, u := calls[..|calls| - 1], UnitFor(h, call).value;
    var k: nat :| k < |front| && CallUnit(h, front, k).Result() == u.Result();
    SameResultSameCall(h, calls, front[k], call);
    assert files[u.Result()] == FileText(h, u);
  }

  lemma {:induction false} FilesAreExact(h: Host, calls: seq<Call>)
    requires Evaluation(h, calls)
    ensures ExactFiles(h, calls, FilesAfter(h, calls))
    decreases |calls|
  {
    if calls != [] {
      var front, call := calls[..|calls| - 1], calls[|calls| - 1];
      EvaluationPrefix(h, calls);
      FilesAreExact(h, front);
      var files, u := FilesAfter(h, front), UnitFor(h, call).value;
      if u.Result() in files {
        RewriteIsIdentical(h, calls, files, call);
      }
      ExactFilesStep(h, calls, files);
    }
  }

  /** Evaluating a call whose file exists leaves the directory as it is. */
  lemma RewriteChangesNothing(h: Host, calls: seq<Call>, call: Call)
    requires Evaluation(h, calls + [call])
    requires UnitFor(h, call).value.Result() in FilesAfter(h, calls)
    ensures FilesAfter(h, calls + [call]) == FilesAfter(h, calls)
  {
    hide UnitFor, FileText, Write;
    var all := calls + [call];
    assert all[..|all| - 1] == calls;
    EvaluationPrefix(h, all);
    FilesAreExact(h, calls);
    RewriteIsIdentical(h, all, FilesAfter(h, calls), call);
  }

  lemma ExactFilesStep(h: Host, calls: seq<Call>, files: EvalDir)
    requires calls != [] && forall c :: c in calls ==> UnitFor(h, c).Some?
    requires ExactFiles(h, calls[..|calls| - 1], files)
    requires var u := UnitFor(h, calls[|calls| - 1]).value;
      u.Result() in files ==> files[u.Result()] == FileText(h, u)
    ensures ExactFiles(h, calls, Write(h, files, UnitFor(h, calls[|calls| - 1]).value))
  {
    hide UnitFor, FileText;
    var front, last := calls[..|calls| - 1], |calls| - 1;
    var u := UnitFor(h, calls[last]).value;
    var files' := Write(h, files, u);
    forall r | r in files' ensures exists k: nat :: k < |calls| && CallUnit(h, calls, k).Result() == r {
      if r == u.Result() {
        assert CallUnit(h, calls, last) == u;
      } else {
        var k: nat :| k < |front| && CallUnit(h, front, k).Result() == r;
        assert CallUnit(h, calls, k).Result() == r;
      }
    }
    forall k: nat | k < |calls|
      ensures CallUnit(h, calls, k).Result() in files'
        && files'[CallUnit(h, calls, k).Result()] == FileText(h, CallUnit(h, calls, k))
    {
      if k < last {
        assert CallUnit(h, front, k) == CallUnit(h, calls, k);
        assert CallUnit(h, front, k).Result() in files;
      }
    }
  }

  ghost function StoreAfter(h: Host, calls: seq<Call>): EvalStore
    requires forall c :: c in calls ==> UnitFor(h, c).Some?
  {
    Load(h, FilesAfter(h, calls))
  }

  /** The store an evaluation leaves: each unit under its own identifier, nothing else. */
  lemma StoreIsExact(h: Host, calls: seq<Call>)
    requires Evaluation(h, calls)
    ensures WellFormedStore(StoreAfter(h, calls))
    ensures forall k: nat :: k < |calls| ==>
      CallUnit(h, calls, k).Result() in StoreAfter(h, calls)
      && StoreAfter(h, calls)[CallUnit(h, calls, k).Result()] == CallUnit(h, calls, k)
    ensures forall r :: r in StoreAfter(h, calls) ==>
      exists k: nat :: k < |calls| && CallUnit(h, calls, k).Result() == r
  {
    hide UnitFor, FilesAfter, FileText;
    FilesAreExact(h, calls);
    var files := FilesAfter(h, calls);
    forall r | r in files ensures h.parse(files[r]).Some? && h.parse(files[r]).value.Result() == r {
      var k: nat :| k < |calls| && CallUnit(h, calls, k).Result() == r;
      assert files[r] == FileText(h, CallUnit(h, calls, k));
    }
    forall k: nat | k < |calls| ensures h.parse(files[CallUnit(h, calls, k).Result()]) == Some(CallUnit(h, calls, k)) {
      assert files[CallUnit(h, calls, k).Result()] == FileText(h, CallUnit(h, calls, k));
    }
  }

  // --------------------------------------------------- closed and acyclic

  /** The first call from `k` on that produced the identifier `r`. */
  ghost function FirstCall(h: Host, calls: seq<Call>, r: MiqResult, k: nat): nat
    requires forall c :: c in calls ==> UnitFor(h, c).Some?
    decreases |calls| - k
  {
    if k >= |calls| then k
    else if CallUnit(h, calls, k).Result() == r then k
    else FirstCall(h, calls, r, k + 1)
  }

  lemma {:induction false} FirstCallIsFirst(h: Host, calls: seq<Call>, r: MiqResult, k: nat, j: nat)
    requires forall c :: c in calls ==> UnitFor(h, c).Some?
    requires k <= j < |calls| && CallUnit(h, calls, j).Result() == r
    ensures FirstCall(h, calls, r, k) <= j && CallUnit(h, calls, FirstCall(h, calls, r, k)).Result() == r
    decreases |calls| - k
  {
    hide UnitFor;
    if CallUnit(h, calls, k).Result() != r {
      FirstCallIsFirst(h, calls, r, k + 1, j);
    }
  }

  /** In a closed store a path of dependencies goes strictly down in rank. */
  lemma {:induction false} RankFalls(store: EvalStore, root: Unit, rank: MiqResult -> nat, p: seq<Unit>)
    requires WellFormedStore(store) && IsPath(DepRel(store, root), p)
    requires p[0] in store.Values && FallingRank(store, rank)
    ensures p[|p| - 1] in store.Values && rank(p[|p| - 1].Result()) + |p| <= rank(p[0].Result()) + 1
    decreases |p|
  {
    if |p| > 1 {
      var q := p[..|p| - 1];
      RankFalls(store, root, rank, q);
      assert (p[|p| - 2], p[|p| - 1]) in DepRel(store, root);
    }
  }

  ghost predicate FallingRank(store: EvalStore, rank: MiqResult -> nat) {
    forall r, d :: r in store && d in store[r].Deps() ==> d in store && rank(d) < rank(r)
  }

  lemma RankedIsResolvable(store: EvalStore, rank: MiqResult -> nat, root: Unit)
    requires WellFormedStore(store) && FallingRank(store, rank) && root in store.Values
    ensures Resolvable(store, root)
  {
    forall u | Reachable(store, root, u)
      ensures u.Deps() <= store.Keys && !Plus(DepRel(store, root), u, u)
    {
      var p :| PathFrom(DepRel(store, root), p, root, u);
      RankFalls(store, root, rank, p);
      if Plus(DepRel(store, root), u, u) {
        var q :| PathFrom(DepRel(store, root), q, u, u) && |q| >= 2;
        RankFalls(store, root, rank, q);
      }
    }
  }

  /** Identifiers are ranked by the call that first produced them, after all its dependencies. */
  lemma CallsAreRanked(h: Host, calls: seq<Call>)
    requires Evaluation(h, calls)
    ensures FallingRank(StoreAfter(h, calls), r => FirstCall(h, calls, r, 0))
  {
    hide UnitFor, FilesAfter, Load;
    StoreIsExact(h, calls);
    var store := StoreAfter(h, calls);
    forall r, d | r in store && d in store[r].Deps()
      ensures d in store && FirstCall(h, calls, d, 0) < FirstCall(h, calls, r, 0)
    {
      var k: nat :| k < |calls| && CallUnit(h, calls, k).Result() == r;
      var first := FirstCall(h, calls, r, 0);
      FirstCallIsFirst(h, calls, r, 0, k);
      assert store[r] == CallUnit(h, calls, first);
      var j: nat :| j < first && CallUnit(h, calls, j).Result() == d;
      FirstCallIsFirst(h, calls, d, 0, j);
    }
  }

  /**
    Whatever a sequence of fetch and package calls leaves behind is closed,
    well formed and acyclic: the solver succeeds on every unit of it.
   */
  lemma EvaluatedStoreResolves(h: Host, calls: seq<Call>, u: Unit)
    requires Evaluation(h, calls) && u in StoreAfter(h, calls).Values
    ensures WellFormedStore(StoreAfter(h, calls))
    ensures StoreAfter(h, calls)[u.Result()] == u && Resolvable(StoreAfter(h, calls), u)
  {
    hide UnitFor, FilesAfter, Load;
    StoreIsExact(h, calls);
    CallsAreRanked(h, calls);
    RankedIsResolvable(StoreAfter(h, calls), r => FirstCall(h, calls, r, 0), u);
  }
}
