/**
 The MilkDrop expression language as a function of its token stream: what the
 recursive-descent evaluator computes, for every stream, well formed or not.

 Floating point is abstract.  `Arith` carries the value type's operations, so every
 statement holds for whatever the C library computes.  Random numbers come from an
 oracle stream that is consumed one element at a time.
 */
module MilkTokens {
  const MAX_TOKENS: nat := 2048
  const MAX_VARS: nat := 192
  const MAX_DEPTH: nat := 128
  const NAME_MAX: nat := 63

  /** What a character buffer keeps of a word or number. */
  function Cut(s: string): (c: string)
    ensures |c| <= NAME_MAX
  {
    if |s| <= NAME_MAX then s else s[..NAME_MAX]
  }

  datatype Token =
    | Num(text: string)
    | Var(name: string)
    | Func(fn: string)
    | Plus | Minus | Mul | Div | Mod
    | Assign | Semi | LParen | RParen | Comma
    | Eof

  /** A lexed program: the end marker is last and nowhere else, and names fit their buffers. */
  ghost predicate Stream(toks: seq<Token>) {
    && 0 < |toks| <= MAX_TOKENS
    && toks[|toks| - 1] == Eof
    && (forall i :: 0 <= i < |toks| - 1 ==> toks[i] != Eof)
    && (forall i :: 0 <= i < |toks| && toks[i].Var? ==> |toks[i].name| <= NAME_MAX)
  }
}

module MilkValues {
  /** The operations of the value type. */
  datatype Arith<!F> = Arith(
    literal: string -> F,
    neg: F -> F,
    add: (F, F) -> F,
    sub: (F, F) -> F,
    mul: (F, F) -> F,
    div: (F, F) -> F,
    fmod: (F, F) -> F,
    less: (F, F) -> bool,
    equal: (F, F) -> bool,
    libm: (string, F) -> F,
    libm2: (string, F, F) -> F,
    toInt: F -> F,
    random: nat -> F)
  {
    function Zero(): F { literal("0") }
    function One(): F { literal("1") }
    function Abs(x: F): F { libm("fabsf", x) }
    function Flag(b: bool): F { if b then One() else Zero() }
    function Guarded(x: F): F { add(Abs(x), literal("1e-30")) }
    function Clamp(x: F): F { libm2("fminf", libm2("fmaxf", x, neg(One())), One()) }
    predicate Truthy(x: F) { less(literal("1e-5"), Abs(x)) }
    function SafeDiv(x: F, y: F): F { if equal(y, Zero()) then Zero() else div(x, y) }
    function SafeMod(x: F, y: F): F { if equal(y, Zero()) then Zero() else fmod(x, y) }

    /** The function table.  `seed` is the number of random draws made so far. */
    function Apply(fn: string, x: F, y: F, z: F, seed: nat): F {
      match fn
      case "sin" => libm("sinf", x)
      case "cos" => libm("cosf", x)
      case "tan" => libm("tanf", x)
      case "asin" => libm("asinf", Clamp(x))
      case "acos" => libm("acosf", Clamp(x))
      case "atan" => libm("atanf", x)
      case "atan2" => libm2("atan2f", x, y)
      case "pow" => libm2("powf", Guarded(x), y)
      case "exp" => libm("expf", libm2("fminf", x, literal("80")))
      case "log" => libm("logf", Guarded(x))
      case "log10" => libm("log10f", Guarded(x))
      case "sqrt" => libm("sqrtf", Abs(x))
      case "abs" => Abs(x)
      case "min" => libm2("fminf", x, y)
      case "max" => libm2("fmaxf", x, y)
      case "sign" => if less(Zero(), x) then One() else if less(x, Zero()) then neg(One()) else Zero()
      case "sqr" => mul(x, x)
      case "floor" => libm("floorf", x)
      case "ceil" => libm("ceilf", x)
      case "int" => toInt(x)
      case "fmod" => SafeMod(x, y)
      case "rand" => mul(random(seed), if less(Zero(), x) then x else One())
      case "sigmoid" => div(One(), add(One(), libm("expf", mul(neg(x), y))))
      case "avg" => mul(add(x, y), literal("0.5"))
      case "if" => if Truthy(x) then y else z
      case "above" => Flag(less(y, x))
      case "below" => Flag(less(x, y))
      case "equal" => Flag(less(Abs(sub(x, y)), literal("1e-5")))
      case "bnot" => Flag(less(Abs(x), literal("1e-5")))
      case "band" => Flag(Truthy(x) && Truthy(y))
      case "bor" => Flag(Truthy(x) || Truthy(y))
      case _ => Zero()
    }
  }

  /** Variables and the number of random draws made. */
  datatype Env<F> = Env(vars: map<string, F>, seed: nat)

  function Lookup<F>(a: Arith<F>, vars: map<string, F>, x: string): F {
    if x in vars then vars[x] else a.Zero()
  }
}

module MilkEval {
  import opened MilkTokens
  import opened MilkVars
  import opened MilkValues

  /** A position in the stream, the environment and the value there. */
  datatype Outcome<F> = Outcome(cur: nat, env: Env<F>, value: F)

  /** Looking a name up creates it, unless the table is full. */
  function Touch<F>(a: Arith<F>, env: Env<F>, x: string): Env<F> {
    env.(vars := Touched(env.vars, x, a.Zero()))
  }

  /** Assignment to a name the full table does not hold is ignored. */
  function Store<F>(env: Env<F>, x: string, v: F): Env<F> {
    env.(vars := Stored(env.vars, x, v))
  }

  function Updated<F>(a: Arith<F>, op: Token, current: F, rhs: F): F
    requires op in {Plus, Minus, Mul, Div}
  {
    match op
    case Plus => a.add(current, rhs)
    case Minus => a.sub(current, rhs)
    case Mul => a.mul(current, rhs)
    case Div => a.SafeDiv(current, rhs)
  }

  predicate IsUpdate(toks: seq<Token>, cur: nat)
    requires cur < |toks|
  {
    toks[cur] in {Plus, Minus, Mul, Div} && cur + 1 < |toks| && toks[cur + 1] == Assign
  }

  // The nonterminals.  Every one returns a position between `cur` and the end marker.

  function EvalAssign<F>(a: Arith<F>, toks: seq<Token>, cur: nat, depth: nat, env: Env<F>): (r: Outcome<F>)
    requires Stream(toks) && cur < |toks|
    ensures cur <= r.cur < |toks|
    ensures depth < MAX_DEPTH && toks[cur] != Eof ==> cur < r.cur
    decreases |toks| - cur, 5
  {
    if toks[cur].Var? && toks[cur + 1] == Assign then
      var r := EvalAssign(a, toks, cur + 2, depth, env);
      r.(env := Store(r.env, toks[cur].name, r.value))
    else if toks[cur].Var? && IsUpdate(toks, cur + 1) then
      var x := toks[cur].name;
      var r := EvalAssign(a, toks, cur + 3, depth, env);
      var env' := Touch(a, r.env, x);
      var v := Updated(a, toks[cur + 1], Lookup(a, env'.vars, x), r.value);
      Outcome(r.cur, Store(env', x, v), v)
    else
      EvalAdd(a, toks, cur, depth, env)
  }

  function EvalAdd<F>(a: Arith<F>, toks: seq<Token>, cur: nat, depth: nat, env: Env<F>): (r: Outcome<F>)
    requires Stream(toks) && cur < |toks|
    ensures cur <= r.cur < |toks|
    ensures depth < MAX_DEPTH && toks[cur] != Eof ==> cur < r.cur
    decreases |toks| - cur, 4
  {
    var l := EvalMul(a, toks, cur, depth, env);
    AddLoop(a, toks, l.cur, depth, l.env, l.value)
  }

  function AddLoop<F>(a: Arith<F>, toks: seq<Token>, cur: nat, depth: nat, env: Env<F>, v: F): (r: Outcome<F>)
    requires Stream(toks) && cur < |toks|
    ensures cur <= r.cur < |toks|
    decreases |toks| - cur, 0
  {
    if toks[cur] == Plus || toks[cur] == Minus then
      var r := EvalMul(a, toks, cur + 1, depth, env);
      var v' := if toks[cur] == Plus then a.add(v, r.value) else a.sub(v, r.value);
      AddLoop(a, toks, r.cur, depth, r.env, v')
    else
      Outcome(cur, env, v)
  }

  function EvalMul<F>(a: Arith<F>, toks: seq<Token>, cur: nat, depth: nat, env: Env<F>): (r: Outcome<F>)
    requires Stream(toks) && cur < |toks|
    ensures cur <= r.cur < |toks|
    ensures depth < MAX_DEPTH && toks[cur] != Eof ==> cur < r.cur
    decreases |toks| - cur, 3
  {
    var l := EvalUnary(a, toks, cur, depth, env);
    MulLoop(a, toks, l.cur, depth, l.env, l.value)
  }

  function Product<F>(a: Arith<F>, op: Token, v: F, r: F): F
    requires op in {Mul, Div, Mod}
  {
    match op
    case Mul => a.mul(v, r)
    case Div => a.SafeDiv(v, r)
    case Mod => a.SafeMod(v, r)
  }

  function MulLoop<F>(a: Arith<F>, toks: seq<Token>, cur: nat, depth: nat, env: Env<F>, v: F): (r: Outcome<F>)
    requires Stream(toks) && cur < |toks|
    ensures cur <= r.cur < |toks|
    decreases |toks| - cur, 0
  {
    if toks[cur] in {Mul, Div, Mod} then
      var r := EvalUnary(a, toks, cur + 1, depth, env);
      MulLoop(a, toks, r.cur, depth, r.env, Product(a, toks[cur], v, r.value))
    else
      Outcome(cur, env, v)
  }

  function EvalUnary<F>(a: Arith<F>, toks: seq<Token>, cur: nat, depth: nat, env: Env<F>): (r: Outcome<F>)
    requires Stream(toks) && cur < |toks|
    ensures cur <= r.cur < |toks|
    ensures depth < MAX_DEPTH && toks[cur] != Eof ==> cur < r.cur
    decreases |toks| - cur, 2
  {
    if toks[cur] == Minus then
      var r := EvalUnary(a, toks, cur + 1, depth, env);
      r.(value := a.neg(r.value))
    else if toks[cur] == Plus then
      EvalUnary(a, toks, cur + 1, depth, env)
    else
      EvalPrimary(a, toks, cur, depth, env)
  }

  /** Skips the token at `cur` when it is the given one. */
  function Skip(toks: seq<Token>, cur: nat, t: Token): (next: nat)
    requires Stream(toks) && cur < |toks| && t != Eof
    ensures cur <= next < |toks|
  {
    if toks[cur] == t then cur + 1 else cur
  }

  /** Past the nesting limit the evaluator gives 0 and consumes nothing. */
  function EvalPrimary<F>(a: Arith<F>, toks: seq<Token>, cur: nat, depth: nat, env: Env<F>): (r: Outcome<F>)
    requires Stream(toks) && cur < |toks|
    ensures cur <= r.cur < |toks|
    ensures depth < MAX_DEPTH && toks[cur] != Eof ==> cur < r.cur
    decreases |toks| - cur, 1
  {
    if depth >= MAX_DEPTH then Outcome(cur, env, a.Zero())
    else
      match toks[cur]
      case Num(text) => Outcome(cur + 1, env, a.literal(text))
      case LParen =>
        var r := EvalAssign(a, toks, cur + 1, depth + 1, env);
        r.(cur := Skip(toks, r.cur, RParen))
      case Func(fn) =>
        var open := Skip(toks, cur + 1, LParen);
        var (close, env', args) := EvalArgs(a, toks, open, depth + 1, env);
        CallResult(a, fn, args, Skip(toks, close, RParen), env')
      case Var(x) =>
        var env' := Touch(a, env, x);
        Outcome(cur + 1, env', Lookup(a, env'.vars, x))
      case Eof => Outcome(cur, env, a.Zero())
      case _ => Outcome(cur + 1, env, a.Zero())
  }

  /** The value of a call whose arguments are already evaluated; `rand` consumes a draw. */
  function CallResult<F>(a: Arith<F>, fn: string, args: seq<F>, cur: nat, env: Env<F>): Outcome<F> {
    var x := if |args| > 0 then args[0] else a.Zero();
    var y := if |args| > 1 then args[1] else a.Zero();
    var z := if |args| > 2 then args[2] else a.Zero();
    Outcome(cur,
            if fn == "rand" then env.(seed := env.seed + 1) else env,
            a.Apply(fn, x, y, z, env.seed))
  }

  function EvalArgs<F>(a: Arith<F>, toks: seq<Token>, cur: nat, depth: nat, env: Env<F>)
    : (r: (nat, Env<F>, seq<F>))
    requires Stream(toks) && cur < |toks|
    ensures cur <= r.0 < |toks|
    ensures |r.2| <= 8
    decreases |toks| - cur, 7
  {
    if toks[cur] == RParen then (cur, env, [])
    else
      var r := EvalAssign(a, toks, cur, depth, env);
      ArgLoop(a, toks, r.cur, depth, r.env, [r.value])
  }

  function ArgLoop<F>(a: Arith<F>, toks: seq<Token>, cur: nat, depth: nat, env: Env<F>, args: seq<F>)
    : (r: (nat, Env<F>, seq<F>))
    requires Stream(toks) && cur < |toks| && |args| <= 8
    ensures cur <= r.0 < |toks|
    ensures |r.2| <= 8
    decreases |toks| - cur, 6
  {
    if toks[cur] == Comma && |args| < 8 then
      var r := EvalAssign(a, toks, cur + 1, depth, env);
      ArgLoop(a, toks, r.cur, depth, r.env, args + [r.value])
    else
      (cur, env, args)
  }

  /** A program: statements until the end marker.  Each one starts at depth 0 and so consumes a token. */
  function EvalProgram<F>(a: Arith<F>, toks: seq<Token>, cur: nat, env: Env<F>, last: F): (r: Outcome<F>)
    requires Stream(toks) && cur < |toks|
    ensures r.cur == |toks| - 1
    decreases |toks| - cur
  {
    if toks[cur] == Eof then Outcome(cur, env, last)
    else
      var r := EvalAssign(a, toks, cur, 0, env);
      EvalProgram(a, toks, Skip(toks, r.cur, Semi), r.env, r.value)
  }
}
