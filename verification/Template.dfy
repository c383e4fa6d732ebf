/**
  The template function `f` of src/lua/f.lua and `interpolate` of src/lua.rs:
  balanced-brace blocks are found by gsub, `{{code}}` holes are replaced by
  text and the dependencies behind them are collected.
 */
module Template {
  import opened Common
  import opened Units

  // ------------------------------------------------------------ Lua values

  /** An entry of a `deps` list: an identifier, or a table that is none. */
  datatype LuaDep = Dep(result: MiqResult) | NotADep

  datatype LuaValue =
    | LuaString(text: string)
    | LuaUnit(unit: Unit)
    | LuaMeta(value: string, deps: seq<LuaDep>)
    | LuaOther

  /** What `interpolate` returns as dependencies: nil, one string or a list. */
  datatype DepsReturned = NoDeps | OneDep(result: MiqResult) | ManyDeps(results: seq<MiqResult>)

  datatype LuaError = CannotInterpolate | CannotEvaluate(code: string)

  predicate AllDeps(deps: seq<LuaDep>) {
    forall i :: 0 <= i < |deps| ==> deps[i].Dep?
  }

  function Results(deps: seq<LuaDep>): seq<MiqResult>
    requires AllDeps(deps)
  {
    seq(|deps|, i requires 0 <= i < |deps| => deps[i].result)
  }

  function Wrap(results: seq<MiqResult>): seq<LuaDep> {
    seq(|results|, i requires 0 <= i < |results| => Dep(results[i]))
  }

  /** `miq.interpolate`: the text of a value and the dependencies it brings. */
  function Interpolate(v: LuaValue): Result<(string, DepsReturned), LuaError> {
    match v
    case LuaUnit(unit) => Ok((unit.StorePath(), OneDep(unit.Result())))
    case LuaMeta(value, deps) =>
      if AllDeps(deps) then Ok((value, ManyDeps(Results(deps)))) else Err(CannotInterpolate)
    case LuaString(text) => Ok((text, NoDeps))
    case LuaOther => Err(CannotInterpolate)
  }

  /**
    What the callback appends to `result.deps`. The list test looks at the first
    element only, so an empty list is itself appended, as a single entry.
   */
  function Appended(d: DepsReturned): seq<LuaDep> {
    match d
    case NoDeps => []
    case OneDep(r) => [Dep(r)]
    case ManyDeps(rs) => if rs == [] then [NotADep] else Wrap(rs)
  }

  // ---------------------------------------------------------- the patterns

  /** How many characters of `s` it takes to close `depth` open braces. */
  function CloseAt(s: string, depth: nat): (r: Option<nat>)
    requires depth >= 1
    ensures r.Some? ==> 1 <= r.value <= |s|
  {
    if s == "" then None
    else if s[0] == '}' && depth == 1 then Some(1)
    else
      var depth' := if s[0] == '}' then depth - 1 else if s[0] == '{' then depth + 1 else depth;
      match CloseAt(s[1..], depth')
      case None => None
      case Some(n) => Some(n + 1)
  }

  /** The length of the match of `%b{}` at the start of `s`, if there is one. */
  function BlockAt(s: string): (r: Option<nat>)
    ensures r.Some? ==> 2 <= r.value <= |s|
  {
    if s == "" || s[0] != '{' then None
    else match CloseAt(s[1..], 1)
      case None => None
      case Some(n) => Some(n + 1)
  }

  /** What gsub sees: characters it copies and blocks it hands to the callback. */
  datatype Token = Char(c: char) | Block(text: string)

  function Tokens(s: string): seq<Token>
    decreases |s|
  {
    if s == "" then []
    else match BlockAt(s)
      case None => [Char(s[0])] + Tokens(s[1..])
      case Some(n) => [Block(s[..n])] + Tokens(s[n..])
  }

  predicate OpensAt(s: string, i: int) {
    0 <= i <= |s| - 2 && s[i] == '{' && s[i + 1] == '{'
  }

  predicate ClosesAt(s: string, j: int) {
    0 <= j <= |s| - 2 && s[j] == '}' && s[j + 1] == '}'
  }

  /** The last `}}` at or after `from`: `.*` is greedy. */
  function LastClose(s: string, from: nat, upto: int): (r: Option<nat>)
    ensures r.Some? ==> from <= r.value <= upto && ClosesAt(s, r.value)
    ensures r.Some? ==> forall j :: r.value < j <= upto ==> !ClosesAt(s, j)
    ensures r.None? ==> forall j :: from <= j <= upto ==> !ClosesAt(s, j)
    decreases upto + 1
  {
    if upto < from then None
    else if ClosesAt(s, upto) then Some(upto)
    else LastClose(s, from, upto - 1)
  }

  /** `block:match "{{(.*)}}"`, which is not anchored: the first `{{`, then the last `}}` after it. */
  function HoleFrom(s: string, i: nat): Option<string>
    decreases |s| - i
  {
    if i >= |s| then None
    else if OpensAt(s, i) && LastClose(s, i + 2, |s| - 2).Some?
    then Some(s[i + 2..LastClose(s, i + 2, |s| - 2).value])
    else HoleFrom(s, i + 1)
  }

  function Hole(block: string): Option<string> {
    HoleFrom(block, 0)
  }

  /** A block is left alone exactly when it has no `{{` followed by a `}}`. */
  lemma {:induction false} NoHoleIff(s: string, k: nat)
    ensures HoleFrom(s, k).None? <==> !exists i, j :: k <= i && OpensAt(s, i) && i + 2 <= j && ClosesAt(s, j)
    decreases |s| - k
  {
    if k < |s| {
      NoHoleIff(s, k + 1);
    }
  }

  // ------------------------------------------------------------- expansion

  /** Evaluates the code of a hole; `None` when it does not load or raises an error. */
  type Env = string -> Option<LuaValue>

  /** A piece of the value with the dependencies behind it, or the error that ends the call. */
  type Expansion = Result<(string, seq<LuaDep>), LuaError>

  const NOTHING: Expansion := Ok(("", []))

  /** One expansion after another; the first error ends the call. */
  function Then(first: Expansion, second: Expansion): Expansion {
    if first.Err? then first
    else if second.Err? then second
    else Ok((first.value.0 + second.value.0, first.value.1 + second.value.1))
  }

  lemma ThenNothing(x: Expansion)
    ensures Then(NOTHING, x) == x && Then(x, NOTHING) == x
  {
    if x.Ok? {
      assert "" + x.value.0 == x.value.0 == x.value.0 + "";
      assert [] + x.value.1 == x.value.1 == x.value.1 + [];
    }
  }

  lemma ThenAssociates(x: Expansion, y: Expansion, z: Expansion)
    ensures Then(Then(x, y), z) == Then(x, Then(y, z))
  {
    if x.Ok? && y.Ok? && z.Ok? {
      assert x.value.0 + y.value.0 + z.value.0 == x.value.0 + (y.value.0 + z.value.0);
      assert x.value.1 + y.value.1 + z.value.1 == x.value.1 + (y.value.1 + z.value.1);
    }
  }

  /** What a hole is replaced by and what it appends to the dependencies. */
  function ExpandCode(code: string, env: Env): Expansion {
    var luaValue := env(code);
    if luaValue.None? then Err(CannotEvaluate(code))
    else
      var shown := Interpolate(luaValue.value);
      if shown.Err? then Err(shown.error) else Ok((shown.value.0, Appended(shown.value.1)))
  }

  function Expand(t: Token, env: Env): Expansion {
    match t
    case Char(c) => Ok(([c], []))
    case Block(text) =>
      match Hole(text)
      case None => Ok((text, []))
      case Some(code) => ExpandCode(code, env)
  }

  function ExpandAll(ts: seq<Token>, env: Env): Expansion {
    if ts == [] then NOTHING else Then(Expand(ts[0], env), ExpandAll(ts[1..], env))
  }

  /** `f` after dedent: plain text when no dependency was collected. */
  function Finish(r: Expansion): Result<LuaValue, LuaError> {
    if r.Err? then Err(r.error)
    else if r.value.1 == [] then Ok(LuaString(r.value.0))
    else Ok(LuaMeta(r.value.0, r.value.1))
  }

  function FSpec(raw: string, env: Env): Result<LuaValue, LuaError> {
    Finish(ExpandAll(Tokens(raw), env))
  }

  /** The template keeps a block as it stands if and only if no `{{` in it is followed by a `}}`. */
  lemma BlockKeptIff(text: string)
    ensures (forall env: Env :: Expand(Block(text), env) == Ok((text, []))) <==>
            !exists i, j :: 0 <= i && OpensAt(text, i) && i + 2 <= j && ClosesAt(text, j)
  {
    NoHoleIff(text, 0);
    if Hole(text).Some? {
      var nothing: Env := code => None;
      assert Expand(Block(text), nothing).Err?;
    }
  }

  // ------------------------------------------------- what a call returns

  function CodeOf(t: Token): Option<string> {
    if t.Block? then Hole(t.text) else None
  }

  /** The text a value shows when it is interpolated. */
  function ShownText(v: LuaValue): string {
    match v
    case LuaUnit(unit) => unit.StorePath()
    case LuaMeta(value, _) => value
    case LuaString(text) => text
    case LuaOther => ""
  }

  /** Strings, units and tables of identifiers can stand in a hole; nil, numbers and other tables cannot. */
  predicate Interpolatable(v: LuaValue) {
    v.LuaString? || v.LuaUnit? || (v.LuaMeta? && AllDeps(v.deps))
  }

  /** The entries a value leaves in the list, in order; an empty list leaves itself. */
  function DepsBehind(v: LuaValue): seq<LuaDep> {
    match v
    case LuaUnit(unit) => [Dep(unit.Result())]
    case LuaMeta(_, deps) => if deps == [] then [NotADep] else deps
    case _ => []
  }

  predicate Goes(t: Token, env: Env) {
    CodeOf(t).Some? ==> env(CodeOf(t).value).Some? && Interpolatable(env(CodeOf(t).value).value)
  }

  function ShownBy(t: Token, env: Env): string
    requires Goes(t, env)
  {
    if CodeOf(t).Some? then ShownText(env(CodeOf(t).value).value) else TokenText(t)
  }

  function BroughtBy(t: Token, env: Env): seq<LuaDep>
    requires Goes(t, env)
  {
    if CodeOf(t).Some? then DepsBehind(env(CodeOf(t).value).value) else []
  }

  /** The template with each hole replaced by the text its value shows, and all else kept. */
  function Shown(ts: seq<Token>, env: Env): string
    requires forall t :: t in ts ==> Goes(t, env)
  {
    if ts == [] then "" else assert ts[0] in ts; ShownBy(ts[0], env) + Shown(ts[1..], env)
  }

  /** The entries behind the holes, from left to right. */
  function Brought(ts: seq<Token>, env: Env): seq<LuaDep>
    requires forall t :: t in ts ==> Goes(t, env)
  {
    if ts == [] then [] else assert ts[0] in ts; BroughtBy(ts[0], env) + Brought(ts[1..], env)
  }

  function TokenText(t: Token): string {
    match t
    case Char(c) => [c]
    case Block(text) => text
  }

  lemma ExpandMeans(t: Token, env: Env)
    ensures Expand(t, env).Ok? <==> Goes(t, env)
    ensures Goes(t, env) && CodeOf(t).Some? ==>
      Expand(t, env) == Ok((ShownText(env(CodeOf(t).value).value), DepsBehind(env(CodeOf(t).value).value)))
    ensures CodeOf(t).None? ==> Expand(t, env) == Ok((TokenText(t), []))
  {
    if CodeOf(t).Some? && env(CodeOf(t).value).Some? && env(CodeOf(t).value).value.LuaMeta? {
      var deps := env(CodeOf(t).value).value.deps;
      assert AllDeps(deps) ==> Wrap(Results(deps)) == deps;
    }
  }

  /** A list of tokens expands if and only if each does, to the texts and the entries in their order. */
  lemma {:induction false} ExpandAllMeans(ts: seq<Token>, env: Env)
    ensures ExpandAll(ts, env).Ok? <==> forall t :: t in ts ==> Goes(t, env)
    ensures ExpandAll(ts, env).Ok? ==> ExpandAll(ts, env) == Ok((Shown(ts, env), Brought(ts, env)))
  {
    hide Expand, Goes, CodeOf, ShownText, DepsBehind;
    if ts != [] {
      ExpandMeans(ts[0], env);
      ExpandAllMeans(ts[1..], env);
      assert forall t :: t in ts <==> t == ts[0] || t in ts[1..];
    }
  }

  /** `f` fails at the first hole that cannot be evaluated or interpolated, and says which of the two it was. */
  ghost predicate FailsAt(ts: seq<Token>, env: Env, error: LuaError, i: nat) {
    && i < |ts| && !Goes(ts[i], env) && (forall j :: 0 <= j < i ==> Goes(ts[j], env))
    && error == if env(CodeOf(ts[i]).value).None? then CannotEvaluate(CodeOf(ts[i]).value) else CannotInterpolate
  }

  lemma {:induction false} FirstError(ts: seq<Token>, env: Env) returns (i: nat)
    requires ExpandAll(ts, env).Err?
    ensures FailsAt(ts, env, ExpandAll(ts, env).error, i)
  {
    ExpandMeans(ts[0], env);
    if Goes(ts[0], env) {
      i := FirstError(ts[1..], env);
      i := i + 1;
    } else {
      i := 0;
    }
  }

  /** The entries a result of `f` carries: none if it is a plain string. */
  function DepsOf(v: LuaValue): seq<LuaDep> {
    if v.LuaMeta? then v.deps else []
  }

  /**
    What `f` returns, for every template: a value if and only if each hole of
    the text has one that can be interpolated, with exactly their texts in place
    of the holes and exactly their entries in order, otherwise the first error.
   */
  lemma FMeans(raw: string, env: Env)
    ensures FSpec(raw, env).Ok? <==> forall t :: t in Tokens(raw) ==> Goes(t, env)
    ensures FSpec(raw, env).Ok? ==>
      && ShownText(FSpec(raw, env).value) == Shown(Tokens(raw), env)
      && DepsOf(FSpec(raw, env).value) == Brought(Tokens(raw), env)
      && (FSpec(raw, env).value.LuaString? <==> Brought(Tokens(raw), env) == [])
      && (FSpec(raw, env).value.LuaString? || FSpec(raw, env).value.LuaMeta?)
    ensures FSpec(raw, env).Err? ==> exists i: nat :: FailsAt(Tokens(raw), env, FSpec(raw, env).error, i)
  {
    hide ExpandAll, Tokens, Goes;
    ExpandAllMeans(Tokens(raw), env);
    if ExpandAll(Tokens(raw), env).Err? {
      var i := FirstError(Tokens(raw), env);
    }
  }

  /** The gsub callback: the replacement of a block and the entries it appends to `result.deps`. */
  method Callback(block: string, env: Env) returns (r: Expansion)
    ensures r == Expand(Block(block), env)
  {
    var code := Hole(block);
    if code.None? {
      return Ok((block, []));
    }
    var luaValue := env(code.value);
    if luaValue.None? {
      return Err(CannotEvaluate(code.value));
    }
    var shown := Interpolate(luaValue.value);
    if shown.Err? {
      return Err(shown.error);
    }
    r := Ok((shown.value.0, Appended(shown.value.1)));
  }

  /** `f`: the text is dedented, gsub walks it and the callback fills `result.deps`. */
  method F(rawText: string, dedent: string -> string, env: Env) returns (r: Result<LuaValue, LuaError>)
    ensures r == FSpec(dedent(rawText), env)
    ensures r.Ok? <==> forall t :: t in Tokens(dedent(rawText)) ==> Goes(t, env)
    ensures r.Ok? ==>
      && ShownText(r.value) == Shown(Tokens(dedent(rawText)), env)
      && DepsOf(r.value) == Brought(Tokens(dedent(rawText)), env)
    ensures r.Err? ==> exists i: nat :: FailsAt(Tokens(dedent(rawText)), env, r.error, i)
  {
    FMeans(dedent(rawText), env);
    hide Expand, BlockAt, Goes, FailsAt, Shown, Brought;
    var raw := dedent(rawText);
    var position, value, deps := 0, "", [];
    assert raw[0..] == raw;
    ThenNothing(ExpandAll(Tokens(raw), env));
    while position < |raw|
      invariant 0 <= position <= |raw|
      invariant ExpandAll(Tokens(raw), env) == Then(Ok((value, deps)), ExpandAll(Tokens(raw[position..]), env))
    {
      var here := raw[position..];
      var block := BlockAt(here);
      var token, n := Char(here[0]), 1;
      var step: Expansion := Ok(([here[0]], []));
      if block.Some? {
        token, n := Block(here[..block.value]), block.value;
        step := Callback(here[..n], env);
      } else {
        ExpandChar(here[0], env);
      }
      TokensStep(here, token, n);
      ThenAssociates(Ok((value, deps)), step, ExpandAll(Tokens(here[n..]), env));
      if step.Err? {
        return Err(step.error);
      }
      assert here[n..] == raw[position + n..];
      value, deps, position := value + step.value.0, deps + step.value.1, position + n;
    }
    assert raw[position..] == "";
    ThenNothing(Ok((value, deps)));
    r := Ok(if deps == [] then LuaString(value) else LuaMeta(value, deps));
  }

  lemma ExpandChar(c: char, env: Env)
    ensures Expand(Char(c), env) == Ok(([c], []))
  {
  }

  lemma TokensStep(s: string, token: Token, n: nat)
    requires s != "" && 1 <= n <= |s|
    requires if BlockAt(s).None? then token == Char(s[0]) && n == 1
             else n == BlockAt(s).value && token == Block(s[..n])
    ensures Tokens(s)[0] == token && Tokens(s)[1..] == Tokens(s[n..])
  {
  }

  // ------------------------------------------------------ print and scan

  /** A template as a writer means it. */
  datatype Piece = Text(text: string) | Literal(body: string) | Code(code: string)

  /** Braces nest: never below zero, back to zero at the end. */
  predicate Balanced(s: string, depth: nat) {
    if s == "" then depth == 0
    else if s[0] == '{' then Balanced(s[1..], depth + 1)
    else if s[0] == '}' then depth > 0 && Balanced(s[1..], depth - 1)
    else Balanced(s[1..], depth)
  }

  ghost predicate ValidPiece(p: Piece) {
    match p
    case Text(text) => forall i :: 0 <= i < |text| ==> text[i] != '{' && text[i] != '}'
    case Literal(body) => Balanced(body, 0) && Hole("{" + body + "}").None?
    case Code(code) => Balanced(code, 0)
  }

  function PrintPiece(p: Piece): string {
    match p
    case Text(text) => text
    case Literal(body) => "{" + body + "}"
    case Code(code) => "{" + ("{" + code + "}") + "}"
  }

  function Print(ps: seq<Piece>): string {
    if ps == [] then "" else PrintPiece(ps[0]) + Print(ps[1..])
  }

  function Chars(s: string): seq<Token> {
    seq(|s|, i requires 0 <= i < |s| => Char(s[i]))
  }

  function PieceTokens(p: Piece): seq<Token> {
    if p.Text? then Chars(p.text) else [Block(PrintPiece(p))]
  }

  function PiecesTokens(ps: seq<Piece>): seq<Token> {
    if ps == [] then [] else PieceTokens(ps[0]) + PiecesTokens(ps[1..])
  }

  /** What a writer means a piece to contribute. */
  function Meaning(p: Piece, env: Env): Expansion {
    match p
    case Text(text) => Ok((text, []))
    case Literal(body) => Ok(("{" + body + "}", []))
    case Code(code) => ExpandCode(code, env)
  }

  function MeaningAll(ps: seq<Piece>, env: Env): Expansion {
    if ps == [] then NOTHING else Then(Meaning(ps[0], env), MeaningAll(ps[1..], env))
  }

  lemma {:induction false} CloseBalanced(c: string, depth: nat, rest: string)
    requires Balanced(c, depth)
    ensures CloseAt(c + "}" + rest, depth + 1) == Some(|c| + 1)
    decreases |c|
  {
    var s := c + "}" + rest;
    if c == "" {
      assert s[0] == '}';
    } else {
      assert s[0] == c[0] && s[1..] == c[1..] + "}" + rest;
      var depth' := if c[0] == '}' then depth - 1 else if c[0] == '{' then depth + 1 else depth;
      CloseBalanced(c[1..], depth', rest);
    }
  }

  lemma {:induction false} BalancedClose(c: string, depth: nat)
    requires Balanced(c, depth)
    ensures Balanced(c + "}", depth + 1)
    decreases |c|
  {
    if c == "" {
      assert (c + "}")[1..] == "";
    } else {
      assert (c + "}")[1..] == c[1..] + "}";
      BalancedClose(c[1..], if c[0] == '}' then depth - 1 else if c[0] == '{' then depth + 1 else depth);
    }
  }

  lemma BalancedWrap(c: string)
    requires Balanced(c, 0)
    ensures Balanced("{" + c + "}", 0)
  {
    BalancedClose(c, 0);
    assert ("{" + c + "}")[1..] == c + "}";
  }

  lemma {:induction false} ClosedIsBalanced(s: string, depth: nat)
    requires CloseAt(s, depth + 1).Some?
    ensures var n := CloseAt(s, depth + 1).value; s[n - 1] == '}' && Balanced(s[..n - 1], depth)
    decreases |s|
  {
    var n := CloseAt(s, depth + 1).value;
    if n > 1 {
      assert s[..n - 1][0] == s[0] && s[..n - 1][1..] == s[1..][..n - 2];
      var depth' := if s[0] == '}' then depth - 1 else if s[0] == '{' then depth + 1 else depth;
      ClosedIsBalanced(s[1..], depth');
    }
  }

  /** `%b{}` matches at the start of a text exactly if some balanced block begins there, and then all of it. */
  lemma BlockAtIff(s: string, n: nat)
    ensures BlockAt(s) == Some(n) <==>
      2 <= n <= |s| && s[0] == '{' && s[n - 1] == '}' && Balanced(s[1..n - 1], 0)
  {
    if BlockAt(s) == Some(n) {
      ClosedIsBalanced(s[1..], 0);
      assert s[1..][..n - 2] == s[1..n - 1];
    }
    if 2 <= n <= |s| && s[0] == '{' && s[n - 1] == '}' && Balanced(s[1..n - 1], 0) {
      CloseBalanced(s[1..n - 1], 0, s[n..]);
      assert s[1..] == s[1..n - 1] + "}" + s[n..];
    }
  }

  function Joined(ts: seq<Token>): string {
    if ts == [] then "" else TokenText(ts[0]) + Joined(ts[1..])
  }

  /** Token `i` is a block if one begins where it stands; a character is one at which none begins. */
  ghost predicate RightToken(ts: seq<Token>, i: nat)
    requires i < |ts|
  {
    match ts[i]
    case Char(c) => BlockAt(Joined(ts[i..])).None? && Joined(ts[i..])[..1] == [c]
    case Block(text) => BlockAt(Joined(ts[i..])) == Some(|text|)
  }

  /** The scan loses nothing and cuts the text into the leftmost blocks and the characters between them. */
  lemma {:induction false} TokensAreRight(s: string)
    ensures Joined(Tokens(s)) == s
    ensures forall i: nat :: i < |Tokens(s)| ==> RightToken(Tokens(s), i)
    decreases |s|
  {
    hide BlockAt, RightToken;
    if s != "" {
      var n := if BlockAt(s).None? then 1 else BlockAt(s).value;
      var token, rest := if BlockAt(s).None? then Char(s[0]) else Block(s[..n]), Tokens(s[n..]);
      TokensAreRight(s[n..]);
      assert Tokens(s) == [token] + rest;
      hide Tokens;
      assert TokenText(token) == s[..n] && s == s[..n] + s[n..];
      FirstIsRight(s, token, rest);
      forall i: nat | i < |[token] + rest| ensures RightToken([token] + rest, i) {
        if i > 0 {
          RightStays(token, rest, i - 1);
        }
      }
    }
  }

  lemma FirstIsRight(s: string, token: Token, rest: seq<Token>)
    requires s != "" && Joined([token] + rest) == s
    requires if BlockAt(s).None? then token == Char(s[0]) else token == Block(s[..BlockAt(s).value])
    ensures RightToken([token] + rest, 0)
  {
    hide BlockAt;
    assert ([token] + rest)[0..] == [token] + rest;
  }

  lemma RightStays(token: Token, rest: seq<Token>, i: nat)
    requires i < |rest| && RightToken(rest, i)
    ensures RightToken([token] + rest, i + 1)
  {
    hide BlockAt, Joined;
    assert ([token] + rest)[i + 1..] == rest[i..] && ([token] + rest)[i + 1] == rest[i];
  }

  /** The hole of a block goes from its first `{{` that has a `}}` after it to the last `}}`. */
  ghost predicate IsHole(s: string, i: nat, j: nat) {
    && OpensAt(s, i) && i + 2 <= j && ClosesAt(s, j)
    && (forall k, l :: 0 <= k < i && OpensAt(s, k) && k + 2 <= l ==> !ClosesAt(s, l))
    && (forall l :: j < l ==> !ClosesAt(s, l))
  }

  lemma {:induction false} HoleFound(s: string, k: nat) returns (i: nat, j: nat)
    requires HoleFrom(s, k).Some?
    requires forall h, l :: 0 <= h < k && OpensAt(s, h) && h + 2 <= l ==> !ClosesAt(s, l)
    ensures IsHole(s, i, j) && HoleFrom(s, k) == Some(s[i + 2..j])
    decreases |s| - k
  {
    if OpensAt(s, k) && LastClose(s, k + 2, |s| - 2).Some? {
      i, j := k, LastClose(s, k + 2, |s| - 2).value;
    } else {
      i, j := HoleFound(s, k + 1);
    }
  }

  /** Which code `block:match "{{(.*)}}"` takes from a block, exactly. */
  lemma HoleIff(s: string, code: string)
    ensures Hole(s) == Some(code) <==> exists i: nat, j: nat :: IsHole(s, i, j) && code == s[i + 2..j]
  {
    NoHoleIff(s, 0);
    if Hole(s).Some? {
      var i, j := HoleFound(s, 0);
      assert IsHole(s, i, j);
    }
  }

  /** A balanced block is matched as a whole, whatever follows it. */
  lemma BlockPrinted(body: string, rest: string)
    requires Balanced(body, 0)
    ensures BlockAt("{" + body + "}" + rest) == Some(|body| + 2)
  {
    hide CloseAt, Balanced;
    CloseBalanced(body, 0, rest);
    var s := "{" + body + "}" + rest;
    assert s[0] == '{' && s[1..] == body + "}" + rest;
  }

  lemma {:induction false} TokensOfText(text: string, rest: string)
    requires ValidPiece(Text(text))
    ensures Tokens(text + rest) == Chars(text) + Tokens(rest)
    decreases |text|
  {
    if text == "" {
      assert text + rest == rest && Chars(text) == [];
    } else {
      assert (text + rest)[1..] == text[1..] + rest;
      TokensOfText(text[1..], rest);
      assert Chars(text) == [Char(text[0])] + Chars(text[1..]);
    }
  }

  lemma TokensOfBlock(body: string, rest: string)
    requires Balanced(body, 0)
    ensures Tokens("{" + body + "}" + rest) == [Block("{" + body + "}")] + Tokens(rest)
  {
    var s := "{" + body + "}" + rest;
    BlockPrinted(body, rest);
    assert s[..|body| + 2] == "{" + body + "}" && s[|body| + 2..] == rest;
  }

  /** Scanning a printed template finds exactly its pieces, in order. */
  lemma {:induction false} ScanUndoesPrint(ps: seq<Piece>)
    requires forall p :: p in ps ==> ValidPiece(p)
    ensures Tokens(Print(ps)) == PiecesTokens(ps)
  {
    if ps != [] {
      ScanUndoesPrint(ps[1..]);
      assert ValidPiece(ps[0]);
      match ps[0]
      case Text(text) => TokensOfText(text, Print(ps[1..]));
      case Literal(body) => TokensOfBlock(body, Print(ps[1..]));
      case Code(code) =>
        BalancedWrap(code);
        TokensOfBlock("{" + code + "}", Print(ps[1..]));
    }
  }

  /** The hole of a printed `{{code}}` is the code, even if the code has braces at its ends. */
  lemma HolePrinted(code: string)
    ensures Hole(PrintPiece(Code(code))) == Some(code)
  {
    var s := PrintPiece(Code(code));
    assert OpensAt(s, 0) && ClosesAt(s, |code| + 2) && |s| - 2 == |code| + 2;
    assert LastClose(s, 2, |s| - 2) == Some(|code| + 2);
    assert s[2..|code| + 2] == code;
  }

  // ------------------------------------------------- holes inside blocks

  lemma {:induction false} BalancedJoin(a: string, b: string, k: nat, depth: nat)
    requires Balanced(a, k) && k <= depth
    ensures Balanced(a + b, depth) <==> Balanced(b, depth - k)
    decreases |a|
  {
    if a == "" {
      assert a + b == b;
    } else {
      assert (a + b)[0] == a[0] && (a + b)[1..] == a[1..] + b;
      var step := if a[0] == '{' then 1 else if a[0] == '}' then -1 else 0;
      BalancedJoin(a[1..], b, k + step, depth + step);
    }
  }

  lemma {:induction false} TextIsBalanced(text: string)
    requires ValidPiece(Text(text))
    ensures Balanced(text, 0)
  {
    if text != "" {
      TextIsBalanced(text[1..]);
    }
  }

  lemma {:induction false} NoOpenNoHole(s: string, i: nat, j: nat)
    requires i <= j <= |s| && forall k :: i <= k < j ==> !OpensAt(s, k)
    ensures HoleFrom(s, i) == HoleFrom(s, j)
    decreases j - i
  {
    if i < j {
      NoOpenNoHole(s, i + 1, j);
    }
  }

  /** The block `{before {{code}} after}`. */
  function Around(before: string, code: string, after: string): string {
    "{" + (before + PrintPiece(Code(code)) + after) + "}"
  }

  lemma SliceOfSlice(s: string, a: nat, b: nat, c: nat, d: nat)
    requires a <= b <= |s| && c <= d <= b - a
    ensures s[a..b][c..d] == s[a + c..a + d]
  {
    var x, y := s[a..b][c..d], s[a + c..a + d];
    forall k | 0 <= k < d - c ensures x[k] == y[k] {
      assert x[k] == s[a..b][c + k] == s[a + c + k];
    }
    assert x == y;
  }

  lemma AroundParts(before: string, code: string, after: string)
    ensures var s, open := Around(before, code, after), |before| + 1;
      var close := open + 2 + |code|;
      && |s| == close + 2 + |after| + 1
      && s[0] == '{' && s[1..open] == before && OpensAt(s, open)
      && s[open + 2..close] == code && ClosesAt(s, close) && s[close + 2..|s| - 1] == after
  {
    var s, open := Around(before, code, after), |before| + 1;
    var close := open + 2 + |code|;
    var hole := PrintPiece(Code(code));
    var inside := before + hole + after;
    assert |hole| == |code| + 4 && hole[2..|code| + 2] == code;
    assert inside[..|before|] == before && inside[|before|..|before| + |hole|] == hole;
    assert inside[|before| + |hole|..] == after;
    assert s[1..|s| - 1] == inside;
    SliceOfSlice(s, 1, |s| - 1, 0, |before|);
    SliceOfSlice(s, 1, |s| - 1, |before|, |before| + |hole|);
    SliceOfSlice(s, 1, |s| - 1, |before| + |hole|, |inside|);
    SliceOfSlice(s, open, open + |hole|, 2, |code| + 2);
  }

  lemma HoleAround(before: string, code: string, after: string)
    requires before != "" && ValidPiece(Text(before)) && after != "" && ValidPiece(Text(after))
    ensures Hole(Around(before, code, after)) == Some(code)
  {
    AroundParts(before, code, after);
    hide Around, HoleFrom, LastClose;
    var s, open := Around(before, code, after), |before| + 1;
    var close := open + 2 + |code|;
    forall k | 0 <= k < open ensures !OpensAt(s, k) {
      assert k < |before| ==> s[k + 1] == s[1..open][k];
      assert k > 0 ==> s[k] == s[1..open][k - 1];
    }
    NoOpenNoHole(s, 0, open);
    forall j | close < j <= |s| - 2 ensures !ClosesAt(s, j) {
      var k := if j == close + 1 then 0 else j - close - 2;
      assert s[close + 2..|s| - 1][k] == s[close + 2 + k];
    }
    HoleAt(s, open, close);
  }

  lemma HoleAt(s: string, open: nat, close: nat)
    requires open + 2 <= close && OpensAt(s, open) && ClosesAt(s, close)
    requires forall j :: close < j <= |s| - 2 ==> !ClosesAt(s, j)
    ensures HoleFrom(s, open) == Some(s[open + 2..close])
  {
    assert LastClose(s, open + 2, |s| - 2) == Some(close);
  }

  /**
    A hole inside a block takes the whole block with it: the braces and the
    text around the hole are lost, and the value of the hole is all that is left.
   */
  lemma HoleSwallowsBlock(before: string, code: string, after: string, env: Env)
    requires before != "" && ValidPiece(Text(before)) && after != "" && ValidPiece(Text(after))
    requires Balanced(code, 0)
    ensures FSpec(Around(before, code, after), env) == Finish(ExpandCode(code, env))
  {
    var hole, s := PrintPiece(Code(code)), Around(before, code, after);
    assert Tokens("") == [];
    hide Balanced, Hole, Tokens, ExpandCode;
    BalancedWrap(code);
    BalancedWrap("{" + code + "}");
    TextIsBalanced(before);
    TextIsBalanced(after);
    BalancedJoin(hole, after, 0, 0);
    BalancedJoin(before, hole + after, 0, 0);
    assert before + hole + after == before + (hole + after);
    TokensOfBlock(before + hole + after, "");
    assert s + "" == s;
    HoleAround(before, code, after);
    ExpandOne(Block(s), env);
  }

  /** For one, `{a {{x}} b}` becomes the value of `x` and nothing else. */
  lemma BlockIsSwallowed(env: Env, x: string)
    requires env("x") == Some(LuaString(x))
    ensures FSpec("{a {{x}} b}", env) == Ok(LuaString(x))
  {
    hide FSpec, Hole;
    assert Balanced("x", 0) && ValidPiece(Text("a ")) && ValidPiece(Text(" b"));
    hide Balanced, ValidPiece;
    HoleSwallowsBlock("a ", "x", " b", env);
    assert Around("a ", "x", " b") == "{a {{x}} b}";
  }

  lemma {:induction false} ExpandAllJoin(a: seq<Token>, b: seq<Token>, env: Env)
    ensures ExpandAll(a + b, env) == Then(ExpandAll(a, env), ExpandAll(b, env))
  {
    if a == [] {
      assert a + b == b;
      ThenNothing(ExpandAll(b, env));
    } else {
      assert (a + b)[0] == a[0] && (a + b)[1..] == a[1..] + b;
      ExpandAllJoin(a[1..], b, env);
      ThenAssociates(Expand(a[0], env), ExpandAll(a[1..], env), ExpandAll(b, env));
    }
  }

  lemma {:induction false} ExpandText(text: string, env: Env)
    ensures ExpandAll(Chars(text), env) == Ok((text, []))
  {
    if text == "" {
      assert Chars(text) == [];
    } else {
      ExpandText(text[1..], env);
      assert Chars(text)[0] == Char(text[0]) && Chars(text)[1..] == Chars(text[1..]);
      assert [text[0]] + text[1..] == text;
      var none: seq<LuaDep> := [];
      assert none + none == none;
    }
  }

  lemma ExpandPiece(p: Piece, env: Env)
    requires ValidPiece(p)
    ensures ExpandAll(PieceTokens(p), env) == Meaning(p, env)
  {
    match p
    case Text(text) => ExpandText(text, env);
    case Literal(body) => ExpandOne(Block(PrintPiece(p)), env);
    case Code(code) => HolePrinted(code); ExpandOne(Block(PrintPiece(p)), env);
  }

  lemma ExpandOne(t: Token, env: Env)
    ensures ExpandAll([t], env) == Expand(t, env)
  {
    assert ExpandAll([t][1..], env) == NOTHING;
    ThenNothing(Expand(t, env));
  }

  /**
    `f` on a printed template: text and literal blocks are kept, holes are
    replaced, and the dependencies are those of the holes in order.
   */
  lemma {:induction false} FOnPrintedTemplate(ps: seq<Piece>, env: Env)
    requires forall p :: p in ps ==> ValidPiece(p)
    ensures FSpec(Print(ps), env) == Finish(MeaningAll(ps, env))
  {
    ScanUndoesPrint(ps);
    ExpandPieces(ps, env);
  }

  lemma {:induction false} ExpandPieces(ps: seq<Piece>, env: Env)
    requires forall p :: p in ps ==> ValidPiece(p)
    ensures ExpandAll(PiecesTokens(ps), env) == MeaningAll(ps, env)
  {
    if ps != [] {
      ExpandPieces(ps[1..], env);
      ExpandPiece(ps[0], env);
      ExpandAllJoin(PieceTokens(ps[0]), PiecesTokens(ps[1..]), env);
    }
  }

  // ------------------------------------------------------------ provenance

  /** How a Lua value came about: a unit, a plain string, or a call of `f` with named values in its holes. */
  datatype Made = MadeUnit(unit: Unit) | MadeString(text: string) | MadeByF(raw: string, holes: map<string, Made>)

  function ValueOf(m: Made): Result<LuaValue, LuaError> {
    match m
    case MadeUnit(unit) => Ok(LuaUnit(unit))
    case MadeString(text) => Ok(LuaString(text))
    case MadeByF(raw, holes) => FSpec(raw, HolesEnv(m))
  }

  function HolesEnv(m: Made): Env
    requires m.MadeByF?
    decreases m, 0
  {
    code =>
      if code in m.holes && ValueOf(m.holes[code]).Ok? then Some(ValueOf(m.holes[code]).value) else None
  }

  /** Every unit interpolated into the text, through any depth of nested calls of `f`. */
  ghost function Sources(m: Made): set<Unit> {
    match m
    case MadeUnit(unit) => {unit}
    case MadeString(_) => {}
    case MadeByF(raw, holes) =>
      set t, u | t in Tokens(raw) && CodeOf(t).Some? && CodeOf(t).value in holes
        && u in Sources(holes[CodeOf(t).value]) :: u
  }

  function DepSet(v: LuaValue): set<MiqResult> {
    match v
    case LuaUnit(unit) => {unit.Result()}
    case LuaMeta(_, deps) => set d | d in deps && d.Dep? :: d.result
    case _ => {}
  }

  /** A value whose dependency list can be read back: nonempty, identifiers only. */
  predicate Proper(v: LuaValue) {
    v.LuaMeta? ==> v.deps != [] && AllDeps(v.deps)
  }

  lemma InterpolateDeps(v: LuaValue)
    requires Proper(v) && Interpolate(v).Ok?
    ensures AllDeps(Appended(Interpolate(v).value.1))
    ensures forall r :: Dep(r) in Appended(Interpolate(v).value.1) <==> r in DepSet(v)
  {
    if v.LuaMeta? {
      assert Wrap(Results(v.deps)) == v.deps;
    }
  }

  /** Where the entries of `result.deps` come from. */
  ghost predicate FromHole(ts: seq<Token>, env: Env, r: MiqResult) {
    exists t :: t in ts && CodeOf(t).Some? && env(CodeOf(t).value).Some? && r in DepSet(env(CodeOf(t).value).value)
  }

  lemma ExpandDeps(t: Token, env: Env)
    requires CodeOf(t).Some? && env(CodeOf(t).value).Some? ==> Proper(env(CodeOf(t).value).value)
    requires Expand(t, env).Ok?
    ensures AllDeps(Expand(t, env).value.1)
    ensures forall r :: Dep(r) in Expand(t, env).value.1 <==> FromHole([t], env, r)
  {
    if CodeOf(t).Some? {
      InterpolateDeps(env(CodeOf(t).value).value);
    }
    forall r ensures Dep(r) in Expand(t, env).value.1 <==> FromHole([t], env, r) {
      assert t in [t];
    }
  }

  lemma {:induction false} ExpandAllDeps(ts: seq<Token>, env: Env)
    requires forall t :: t in ts && CodeOf(t).Some? && env(CodeOf(t).value).Some? ==> Proper(env(CodeOf(t).value).value)
    requires ExpandAll(ts, env).Ok?
    ensures AllDeps(ExpandAll(ts, env).value.1)
    ensures forall r :: Dep(r) in ExpandAll(ts, env).value.1 <==> FromHole(ts, env, r)
  {
    hide Expand, CodeOf, DepSet, Proper;
    if ts != [] {
      assert ts[0] in ts;
      ExpandDeps(ts[0], env);
      ExpandAllDeps(ts[1..], env);
      forall r ensures FromHole(ts, env, r) <==> FromHole([ts[0]], env, r) || FromHole(ts[1..], env, r) {
        FromHoleSplit(ts, env, r);
      }
    }
  }

  lemma FromHoleSplit(ts: seq<Token>, env: Env, r: MiqResult)
    requires ts != []
    ensures FromHole(ts, env, r) <==> FromHole([ts[0]], env, r) || FromHole(ts[1..], env, r)
  {
    hide CodeOf, DepSet;
    forall t ensures t in ts <==> t in [ts[0]] || t in ts[1..] {
      assert ts == [ts[0]] + ts[1..];
    }
  }

  /**
    The dependencies recorded in a value made by `f` are exactly the units
    interpolated into it, however deeply the calls of `f` are nested.
   */
  lemma {:induction false} FRecordsSources(m: Made)
    requires ValueOf(m).Ok?
    ensures Proper(ValueOf(m).value)
    ensures DepSet(ValueOf(m).value) == set u | u in Sources(m) :: u.Result()
  {
    if m.MadeByF? {
      hide Proper, DepSet, Finish, ExpandAll, Tokens, CodeOf, FromHole, AllDeps;
      var env, ts := HolesEnv(m), Tokens(m.raw);
      forall code | code in m.holes && ValueOf(m.holes[code]).Ok?
        ensures Proper(ValueOf(m.holes[code]).value)
        ensures DepSet(ValueOf(m.holes[code]).value) == set u | u in Sources(m.holes[code]) :: u.Result()
      {
        FRecordsSources(m.holes[code]);
      }
      FinishOk(ExpandAll(ts, env));
      ExpandAllDeps(ts, env);
      EveryHoleEvaluates(ts, env);
      SourcesOfHoles(m);
      FinishDeps(ExpandAll(ts, env));
    }
  }

  lemma FinishDeps(x: Expansion)
    requires x.Ok? && AllDeps(x.value.1)
    ensures Finish(x).Ok? && Proper(Finish(x).value)
    ensures forall r :: r in DepSet(Finish(x).value) <==> Dep(r) in x.value.1
  {
  }

  lemma FinishOk(x: Expansion)
    ensures Finish(x).Ok? <==> x.Ok?
  {
  }

  /** When `f` returns a value, every hole it met has been evaluated. */
  lemma {:induction false} EveryHoleEvaluates(ts: seq<Token>, env: Env)
    requires ExpandAll(ts, env).Ok?
    ensures forall t :: t in ts && CodeOf(t).Some? ==> env(CodeOf(t).value).Some?
  {
    if ts != [] {
      EveryHoleEvaluates(ts[1..], env);
      forall t | t in ts && CodeOf(t).Some? ensures env(CodeOf(t).value).Some? {
        assert t == ts[0] || t in ts[1..];
      }
    }
  }

  lemma SourcesOfHoles(m: Made)
    requires m.MadeByF?
    requires forall t :: t in Tokens(m.raw) && CodeOf(t).Some? ==> HolesEnv(m)(CodeOf(t).value).Some?
    requires forall code :: code in m.holes && ValueOf(m.holes[code]).Ok? ==>
      DepSet(ValueOf(m.holes[code]).value) == set u | u in Sources(m.holes[code]) :: u.Result()
    ensures forall r :: FromHole(Tokens(m.raw), HolesEnv(m), r) <==> r in set u | u in Sources(m) :: u.Result()
  {
    hide Tokens, Hole, DepSet, CodeOf;
    var env := HolesEnv(m);
    forall r ensures FromHole(Tokens(m.raw), env, r) <==> exists u :: u in Sources(m) && u.Result() == r {
      if FromHole(Tokens(m.raw), env, r) {
        var t :| t in Tokens(m.raw) && CodeOf(t).Some? && env(CodeOf(t).value).Some?
          && r in DepSet(env(CodeOf(t).value).value);
        var u :| u in Sources(m.holes[CodeOf(t).value]) && u.Result() == r;
        assert u in Sources(m);
      }
      if u :| u in Sources(m) && u.Result() == r {
        var t :| t in Tokens(m.raw) && CodeOf(t).Some? && CodeOf(t).value in m.holes
          && u in Sources(m.holes[CodeOf(t).value]);
        assert env(CodeOf(t).value).Some?;
        assert r in DepSet(env(CodeOf(t).value).value);
      }
    }
  }

  // ------------------------------------------------------ what is visible

  /** `part` occurs in `whole`. */
  ghost predicate Contains(whole: string, part: string) {
    exists before: string, after: string :: whole == before + part + after
  }

  lemma ContainsTrans(a: string, b: string, c: string)
    requires Contains(a, b) && Contains(b, c)
    ensures Contains(a, c)
  {
    var p, q :| a == p + b + q;
    var r, s :| b == r + c + s;
    assert a == (p + r) + c + (s + q);
  }

  lemma ContainsBeside(before: string, whole: string, after: string, part: string)
    requires Contains(whole, part)
    ensures Contains(before + whole + after, part)
  {
    var p, q :| whole == p + part + q;
    assert before + whole + after == (before + p) + part + (q + after);
  }

  lemma HoleShows(t: Token, env: Env)
    requires CodeOf(t).Some? && Expand(t, env).Ok?
    ensures env(CodeOf(t).value).Some?
    ensures Contains(Expand(t, env).value.0, ShownText(env(CodeOf(t).value).value))
  {
    var text := Expand(t, env).value.0;
    assert text == "" + text + "";
  }

  /** Each hole's text is part of the expansion. */
  lemma {:induction false} ExpansionShows(ts: seq<Token>, env: Env, t: Token)
    requires ExpandAll(ts, env).Ok? && t in ts && CodeOf(t).Some?
    ensures env(CodeOf(t).value).Some?
    ensures Contains(ExpandAll(ts, env).value.0, ShownText(env(CodeOf(t).value).value))
  {
    hide Expand, CodeOf, ShownText, Contains;
    var text, rest := Expand(ts[0], env).value.0, ExpandAll(ts[1..], env).value.0;
    if t == ts[0] {
      HoleShows(t, env);
      ContainsBeside("", text, rest, ShownText(env(CodeOf(t).value).value));
      assert "" + text + rest == text + rest;
    } else {
      ExpansionShows(ts[1..], env, t);
      ContainsBeside(text, rest, "", ShownText(env(CodeOf(t).value).value));
      assert text + rest + "" == text + rest;
    }
  }

  lemma FinishShows(x: Expansion)
    requires x.Ok?
    ensures Finish(x).Ok? && ShownText(Finish(x).value) == x.value.0
  {
  }

  lemma FShowsHole(m: Made, t: Token)
    requires m.MadeByF? && ValueOf(m).Ok? && t in Tokens(m.raw) && CodeOf(t).Some?
    ensures CodeOf(t).value in m.holes && ValueOf(m.holes[CodeOf(t).value]).Ok?
    ensures Contains(ShownText(ValueOf(m).value), ShownText(ValueOf(m.holes[CodeOf(t).value]).value))
  {
    hide Expand, CodeOf, Tokens, Contains, ExpandAll, Finish, ShownText;
    var x := ExpandAll(Tokens(m.raw), HolesEnv(m));
    FinishOk(x);
    FinishShows(x);
    ExpansionShows(Tokens(m.raw), HolesEnv(m), t);
  }

  /** The text made by `f` shows the store path of every unit interpolated into it, at any depth. */
  lemma {:induction false} FShowsSources(m: Made, u: Unit)
    requires ValueOf(m).Ok? && u in Sources(m)
    ensures Contains(ShownText(ValueOf(m).value), u.StorePath())
  {
    if m.MadeUnit? {
      assert u.StorePath() == "" + u.StorePath() + "";
    } else {
      hide CodeOf, Tokens, Contains, ValueOf, ShownText;
      var t :| t in Tokens(m.raw) && CodeOf(t).Some? && CodeOf(t).value in m.holes
        && u in Sources(m.holes[CodeOf(t).value]);
      var inner := m.holes[CodeOf(t).value];
      FShowsHole(m, t);
      FShowsSources(inner, u);
      ContainsTrans(ShownText(ValueOf(m).value), ShownText(ValueOf(inner).value), u.StorePath());
    }
  }

  /** An interpolated table `{value, deps}` whose list is empty; `f` itself never returns one. */
  predicate Spoils(t: Token, env: Env) {
    && CodeOf(t).Some? && env(CodeOf(t).value).Some?
    && env(CodeOf(t).value).value.LuaMeta? && env(CodeOf(t).value).value.deps == []
  }

  lemma SpoilsOne(t: Token, env: Env)
    requires Expand(t, env).Ok?
    ensures AllDeps(Expand(t, env).value.1) <==> !Spoils(t, env)
  {
    var deps := Expand(t, env).value.1;
    if Spoils(t, env) {
      assert deps[0] == NotADep;
    } else if CodeOf(t).Some? && env(CodeOf(t).value).value.LuaMeta? {
      assert deps == Wrap(Results(env(CodeOf(t).value).value.deps));
    }
  }

  /**
    The dependencies collected by `f` can be read back if and only if no
    interpolated table had an empty list: such a list is appended as a table.
   */
  lemma {:induction false} ReadableIffNothingSpoils(ts: seq<Token>, env: Env)
    requires ExpandAll(ts, env).Ok?
    ensures Proper(Finish(ExpandAll(ts, env)).value) <==> forall t :: t in ts ==> !Spoils(t, env)
  {
    hide Expand, Spoils;
    AllDepsIff(ts, env);
  }

  lemma {:induction false} AllDepsIff(ts: seq<Token>, env: Env)
    requires ExpandAll(ts, env).Ok?
    ensures AllDeps(ExpandAll(ts, env).value.1) <==> forall t :: t in ts ==> !Spoils(t, env)
  {
    hide Expand, Spoils;
    if ts != [] {
      SpoilsOne(ts[0], env);
      AllDepsIff(ts[1..], env);
      AllDepsJoin(Expand(ts[0], env).value.1, ExpandAll(ts[1..], env).value.1);
      assert forall t :: t in ts <==> t == ts[0] || t in ts[1..];
    }
  }

  lemma AllDepsJoin(a: seq<LuaDep>, b: seq<LuaDep>)
    ensures AllDeps(a + b) <==> AllDeps(a) && AllDeps(b)
  {
    if AllDeps(a + b) {
      forall i | 0 <= i < |a| ensures a[i].Dep? {
        assert (a + b)[i] == a[i];
      }
      forall i | 0 <= i < |b| ensures b[i].Dep? {
        assert (a + b)[|a| + i] == b[i];
      }
    }
  }

  /** `{{x}}` is already such a template. */
  lemma EmptyListSpoils(env: Env)
    requires env("x") == Some(LuaMeta("text", []))
    ensures FSpec(Print([Code("x")]), env) == Ok(LuaMeta("text", [NotADep]))
    ensures !Proper(FSpec(Print([Code("x")]), env).value)
  {
    hide Tokens, ExpandAll, Print;
    FOnPrintedTemplate([Code("x")], env);
    ThenNothing(Meaning(Code("x"), env));
    assert MeaningAll([Code("x")], env) == Then(Meaning(Code("x"), env), MeaningAll([], env));
    var collected := [NotADep];
    assert !collected[0].Dep?;
  }
}
