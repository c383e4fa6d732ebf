/**
  The entities of an evaluation: units, their identifiers and the two paths
  derived from an identifier (src/schema_eval.rs, src/eval.rs).
 */
module Units {
  import opened Common

  /** `<name>-<hash>`, the identity of a unit on disk. */
  type MiqResult = string

  datatype Package = Package(
    result: MiqResult,
    name: string,
    version: Option<string>,
    deps: set<MiqResult>,
    script: string,
    env: map<string, string>)

  datatype Fetch = Fetch(
    result: MiqResult,
    name: string,
    url: string,
    integrity: string,
    executable: bool)

  datatype Unit = PackageUnit(package: Package) | FetchUnit(fetch: Fetch) {

    function Result(): MiqResult {
      match this
      case PackageUnit(inner) => inner.result
      case FetchUnit(inner) => inner.result
    }

    /** Fetch units are the leaves: they have no dependencies. */
    function Deps(): set<MiqResult> {
      match this
      case PackageUnit(inner) => inner.deps
      case FetchUnit(_) => {}
    }

    function StorePath(): string {
      StorePathOf(Result())
    }
  }

  const STORE_DIR := "/miq/store/"
  const EVAL_DIR := "/miq/eval/"
  const EVAL_SUFFIX := ".toml"

  function StorePathOf(result: MiqResult): string {
    STORE_DIR + result
  }

  function EvalPathOf(result: MiqResult): string {
    EVAL_DIR + result + EVAL_SUFFIX
  }

  /** Outputs lie below /miq/store/, evaluation files below /miq/eval/ with their suffix, and the two never meet. */
  lemma PathsLieApart(a: MiqResult, b: MiqResult)
    ensures StorePathOf(a)[..11] == "/miq/store/" && StorePathOf(a)[11..] == a
    ensures |EvalPathOf(a)| == 10 + |a| + 5 && EvalPathOf(a)[..10] == "/miq/eval/"
    ensures EvalPathOf(a)[10..10 + |a|] == a && EvalPathOf(a)[10 + |a|..] == ".toml"
    ensures StorePathOf(a) != EvalPathOf(b)
  {
    assert StorePathOf(a)[5] == 's' && EvalPathOf(b)[5] == 'e';
  }

  /** Distinct identifiers never share an output or an evaluation file. */
  lemma PathsInjective(a: MiqResult, b: MiqResult)
    ensures StorePathOf(a) == StorePathOf(b) ==> a == b
    ensures EvalPathOf(a) == EvalPathOf(b) ==> a == b
  {
    assert StorePathOf(a)[|STORE_DIR|..] == a && StorePathOf(b)[|STORE_DIR|..] == b;
    assert EvalPathOf(a)[|EVAL_DIR|..|EVAL_DIR| + |a|] == a;
    assert EvalPathOf(b)[|EVAL_DIR|..|EVAL_DIR| + |b|] == b;
  }
}
