/**
 Expression trees, their meaning, and their printed form: evaluating what is printed
 gives what is meant.
 */
module MilkTree {
  import opened Common
  import opened MilkTokens
  import opened MilkValues
  import opened MilkEval

  datatype Expr =
    | Lit(text: string)
    | Name(name: string)
    | Neg(e: Expr)
    | Pos(e: Expr)
    | Sum(op: Token, l: Expr, r: Expr)
    | Prod(op: Token, l: Expr, r: Expr)
    | Call(fn: string, args: seq<Expr>)
    | Set(x: string, rhs: Expr)
    | Update(op: Token, x: string, rhs: Expr)

  /** Operators in their places, at most eight arguments, names that fit. */
  ghost predicate WellFormed(e: Expr) {
    match e
    case Lit(_) => true
    case Name(x) => |x| <= NAME_MAX
    case Neg(e) => WellFormed(e)
    case Pos(e) => WellFormed(e)
    case Sum(op, l, r) => op in {Plus, Minus} && WellFormed(l) && WellFormed(r)
    case Prod(op, l, r) => op in {Mul, Div, Mod} && WellFormed(l) && WellFormed(r)
    case Call(_, args) => |args| <= 8 && forall i :: 0 <= i < |args| ==> WellFormed(args[i])
    case Set(x, rhs) => |x| <= NAME_MAX && WellFormed(rhs)
    case Update(op, x, rhs) => |x| <= NAME_MAX && op in {Plus, Minus, Mul, Div} && WellFormed(rhs)
  }

  // ------------------------------------------------------------ meaning

  /** What an expression does to the environment and what it yields.  A variable never
      assigned is 0; reading it leaves the variable defined. */
  function Meaning<F>(a: Arith<F>, e: Expr, env: Env<F>): (Env<F>, F)
    requires WellFormed(e)
    decreases e
  {
    match e
    case Lit(text) => (env, a.literal(text))
    case Name(x) => (Read(a, env, x), Lookup(a, env.vars, x))
    case Neg(e) => var (env', v) := Meaning(a, e, env); (env', a.neg(v))
    case Pos(e) => Meaning(a, e, env)
    case Sum(op, l, r) =>
      var (env1, v) := Meaning(a, l, env);
      var (env2, w) := Meaning(a, r, env1);
      (env2, if op == Plus then a.add(v, w) else a.sub(v, w))
    case Prod(op, l, r) =>
      var (env1, v) := Meaning(a, l, env);
      var (env2, w) := Meaning(a, r, env1);
      (env2, Product(a, op, v, w))
    case Call(fn, args) =>
      var (env', vs) := Meanings(a, args, env);
      var r := CallResult(a, fn, vs, 0, env');
      (r.env, r.value)
    case Set(x, rhs) =>
      var (env', v) := Meaning(a, rhs, env);
      (env'.(vars := env'.vars[x := v]), v)
    case Update(op, x, rhs) =>
      var (env', w) := Meaning(a, rhs, env);
      var v := Updated(a, op, Lookup(a, env'.vars, x), w);
      (env'.(vars := env'.vars[x := v]), v)
  }

  function Read<F>(a: Arith<F>, env: Env<F>, x: string): Env<F> {
    env.(vars := env.vars[x := Lookup(a, env.vars, x)])
  }

  function Meanings<F>(a: Arith<F>, es: seq<Expr>, env: Env<F>): (r: (Env<F>, seq<F>))
    requires forall i :: 0 <= i < |es| ==> WellFormed(es[i])
    ensures |r.1| == |es|
    decreases es
  {
    if es == [] then (env, [])
    else
      var (env1, v) := Meaning(a, es[0], env);
      var (env2, vs) := Meanings(a, es[1..], env1);
      (env2, [v] + vs)
  }

  function ProgramMeaning<F>(a: Arith<F>, es: seq<Expr>, env: Env<F>, last: F): (Env<F>, F)
    requires forall i :: 0 <= i < |es| ==> WellFormed(es[i])
  {
    if es == [] then (env, last)
    else
      var (env1, v) := Meaning(a, es[0], env);
      ProgramMeaning(a, es[1..], env1, v)
  }

  // ------------------------------------------------------------ printing

  // The five levels of the grammar.
  const ASSIGN: nat := 0
  const ADD: nat := 1
  const MUL: nat := 2
  const UNARY: nat := 3
  const PRIMARY: nat := 4

  function Level(e: Expr): nat {
    match e
    case Lit(_) => PRIMARY
    case Name(_) => PRIMARY
    case Call(_, _) => PRIMARY
    case Neg(_) => UNARY
    case Pos(_) => UNARY
    case Prod(_, _, _) => MUL
    case Sum(_, _, _) => ADD
    case Set(_, _) => ASSIGN
    case Update(_, _, _) => ASSIGN
  }

  /** The tokens of e where the grammar expects level `at`: parenthesised only if needed. */
  function Show(e: Expr, at: nat): (s: seq<Token>)
    ensures s != []
    decreases e, 1
  {
    if Level(e) < at then [LParen] + Bare(e) + [RParen] else Bare(e)
  }

  function Bare(e: Expr): (s: seq<Token>)
    ensures s != []
    decreases e, 0
  {
    match e
    case Lit(text) => [Num(text)]
    case Name(x) => [Var(x)]
    case Neg(e) => [Minus] + Show(e, UNARY)
    case Pos(e) => [Plus] + Show(e, UNARY)
    case Sum(op, l, r) => Show(l, ADD) + [op] + Show(r, MUL)
    case Prod(op, l, r) => Show(l, MUL) + [op] + Show(r, UNARY)
    case Call(fn, args) => [Func(fn), LParen] + ShowArgs(args) + [RParen]
    case Set(x, rhs) => [Var(x), Assign] + Show(rhs, ASSIGN)
    case Update(op, x, rhs) => [Var(x), op, Assign] + Show(rhs, ASSIGN)
  }

  function ShowArgs(es: seq<Expr>): (s: seq<Token>)
    ensures es != [] ==> s != []
    decreases es, 2
  {
    if es == [] then [] else Show(es[0], ASSIGN) + ShowMore(es[1..])
  }

  function ShowMore(es: seq<Expr>): seq<Token>
    decreases es, 2
  {
    if es == [] then [] else [Comma] + Show(es[0], ASSIGN) + ShowMore(es[1..])
  }

  /** A program's statements, each ended by a semicolon. */
  function ShowProgram(es: seq<Expr>): seq<Token> {
    if es == [] then [] else Show(es[0], ASSIGN) + [Semi] + ShowProgram(es[1..])
  }

  // ------------------------------------------------------------ the nesting an expression needs

  function Max(x: nat, y: nat): nat { if x > y then x else y }

  /** How deep the evaluator's primaries nest while it reads Show(e, at). */
  function Nesting(e: Expr, at: nat): (n: nat)
    ensures n >= 1
    decreases e, 1
  {
    if Level(e) < at then 1 + BareNesting(e) else BareNesting(e)
  }

  function BareNesting(e: Expr): (n: nat)
    ensures n >= 1
    decreases e, 0
  {
    match e
    case Lit(_) => 1
    case Name(_) => 1
    case Neg(e) => Nesting(e, UNARY)
    case Pos(e) => Nesting(e, UNARY)
    case Sum(_, l, r) => Max(Nesting(l, ADD), Nesting(r, MUL))
    case Prod(_, l, r) => Max(Nesting(l, MUL), Nesting(r, UNARY))
    case Call(_, args) => 1 + ArgsNesting(args)
    case Set(_, rhs) => Nesting(rhs, ASSIGN)
    case Update(_, _, rhs) => Nesting(rhs, ASSIGN)
  }

  function ArgsNesting(es: seq<Expr>): nat
    decreases es, 2
  {
    if es == [] then 0 else Max(Nesting(es[0], ASSIGN), ArgsNesting(es[1..]))
  }

  // ------------------------------------------------------------ names

  function Names(e: Expr): set<string>
    decreases e
  {
    match e
    case Lit(_) => {}
    case Name(x) => {x}
    case Neg(e) => Names(e)
    case Pos(e) => Names(e)
    case Sum(_, l, r) => Names(l) + Names(r)
    case Prod(_, l, r) => Names(l) + Names(r)
    case Call(_, args) => ArgsNames(args)
    case Set(x, rhs) => {x} + Names(rhs)
    case Update(_, x, rhs) => {x} + Names(rhs)
  }

  function ArgsNames(es: seq<Expr>): set<string>
    decreases es
  {
    if es == [] then {} else Names(es[0]) + ArgsNames(es[1..])
  }

  /** All names in play fit the variable table, so no lookup and no assignment is refused. */
  ghost predicate Fits<F>(env: Env<F>, names: set<string>, universe: set<string>) {
    env.vars.Keys <= universe && names <= universe && |universe| <= MAX_VARS
  }

  lemma StoreFits<F>(a: Arith<F>, env: Env<F>, x: string, v: F, universe: set<string>)
    requires Fits(env, {x}, universe)
    ensures Store(env, x, v) == env.(vars := env.vars[x := v])
    ensures Touch(a, env, x) == Read(a, env, x)
    ensures Fits(Store(env, x, v), {}, universe) && Fits(Touch(a, env, x), {}, universe)
  {
    if x !in env.vars {
      Smaller(env.vars.Keys, x, universe);
    } else {
      assert env.vars[x := env.vars[x]] == env.vars;
    }
  }

  lemma Smaller(s: set<string>, x: string, universe: set<string>)
    requires s <= universe && x in universe && x !in s
    ensures |s| < |universe|
  {
    var rest := universe - {x};
    assert s <= rest;
    SubsetSize(s, rest);
  }

  // ------------------------------------------------------------ evaluating the printed form

  predicate Starter(t: Token) {
    t.Num? || t.Var? || t.Func? || t == LParen || t == Minus || t == Plus
  }

  /** What may follow a whole expression. */
  predicate Closer(t: Token) {
    t in {RParen, Comma, Semi, Eof}
  }

  lemma {:induction false} StartsWell(e: Expr, at: nat)
    requires WellFormed(e)
    ensures Starter(Show(e, at)[0])
  {
    match e
    case Sum(_, l, _) => StartsWell(l, ADD);
    case Prod(_, l, _) => StartsWell(l, MUL);
    case _ =>
  }

  /** An expression that is not an assignment does not look like one. */
  lemma {:induction false} NotAnAssignment(e: Expr)
    requires WellFormed(e) && Level(e) >= ADD && Bare(e)[0].Var?
    ensures |Bare(e)| == 1 ||
            (|Bare(e)| >= 3 && Bare(e)[1] in {Plus, Minus, Mul, Div, Mod} && Bare(e)[2] != Assign)
  {
    match e
    case Sum(_, l, r) =>
      StartsWell(r, MUL);
      NotAnAssignment(l);
    case Prod(_, l, r) =>
      StartsWell(r, UNARY);
      NotAnAssignment(l);
    case _ =>
  }

  /** The tokens s stand at position cur, with a token after them. */
  ghost predicate At(toks: seq<Token>, cur: nat, s: seq<Token>) {
    cur + |s| < |toks| && forall i :: 0 <= i < |s| ==> s[i] == toks[cur + i]
  }

  lemma Parts(toks: seq<Token>, cur: nat, p: seq<Token>, q: seq<Token>, r: seq<Token>)
    requires At(toks, cur, p + q + r)
    ensures At(toks, cur, p) && At(toks, cur + |p|, q) && At(toks, cur + |p| + |q|, r)
  {
    var s := p + q + r;
    assert forall i :: 0 <= i < |p| ==> p[i] == s[i];
    assert forall i :: 0 <= i < |q| ==> q[i] == s[|p| + i];
    assert forall i :: 0 <= i < |r| ==> r[i] == s[|p| + |q| + i];
  }

  /** s stands at cur, and nesting and names fit. */
  ghost predicate Ready<F>(toks: seq<Token>, cur: nat, s: seq<Token>, depth: nat, need: nat,
                           env: Env<F>, names: set<string>, universe: set<string>)
  {
    Stream(toks) && At(toks, cur, s) && depth + need <= MAX_DEPTH && Fits(env, names, universe)
  }

  ghost predicate Done<F>(r: Outcome<F>, cur: nat, m: (Env<F>, F), universe: set<string>) {
    r == Outcome(cur, m.0, m.1) && m.0.vars.Keys <= universe
  }

  lemma AtAssign(e: Expr)
    ensures Show(e, ASSIGN) == Bare(e) && Nesting(e, ASSIGN) == BareNesting(e)
  {
  }

  lemma {:induction false} AssignShown<F>(a: Arith<F>, e: Expr, toks: seq<Token>, cur: nat, depth: nat,
                                          env: Env<F>, universe: set<string>)
    requires WellFormed(e)
    requires Ready(toks, cur, Bare(e), depth, BareNesting(e), env, Names(e), universe)
    requires Closer(toks[cur + |Bare(e)|])
    ensures Done(EvalAssign(a, toks, cur, depth, env), cur + |Bare(e)|, Meaning(a, e, env), universe)
    decreases e, 5
  {
    hide EvalAdd, EvalMul, EvalUnary, EvalPrimary, MulLoop, EvalArgs, ArgLoop, CallResult, Stream;
    var s := Bare(e);
    assert toks[cur] == s[0];
    if e.Set? {
      SetShown(a, e, toks, cur, depth, env, universe);
    } else if e.Update? {
      UpdateShown(a, e, toks, cur, depth, env, universe);
    } else {
      NoAssignmentAt(e, toks, cur);
      AddBare(a, e, toks, cur, depth, env, universe);
    }
  }

  lemma NoAssignmentAt(e: Expr, toks: seq<Token>, cur: nat)
    requires WellFormed(e) && Level(e) >= ADD && At(toks, cur, Bare(e)) && Closer(toks[cur + |Bare(e)|])
    ensures toks[cur].Var? ==> toks[cur + 1] != Assign && !IsUpdate(toks, cur + 1)
  {
    var s := Bare(e);
    assert toks[cur] == s[0];
    if toks[cur].Var? {
      NotAnAssignment(e);
      if |s| > 1 {
        assert toks[cur + 1] == s[1] && toks[cur + 2] == s[2];
      }
    }
  }

  lemma {:induction false} SetShown<F>(a: Arith<F>, e: Expr, toks: seq<Token>, cur: nat, depth: nat,
                                       env: Env<F>, universe: set<string>)
    requires WellFormed(e) && e.Set?
    requires Ready(toks, cur, Bare(e), depth, BareNesting(e), env, Names(e), universe)
    requires Closer(toks[cur + |Bare(e)|])
    ensures Done(EvalAssign(a, toks, cur, depth, env), cur + |Bare(e)|, Meaning(a, e, env), universe)
    decreases e, 4
  {
    hide EvalAdd, EvalMul, EvalUnary, EvalPrimary, MulLoop, EvalArgs, ArgLoop, CallResult, AddLoop, Stream;
    var s := Bare(e);
    assert toks[cur] == s[0] && toks[cur + 1] == s[1];
    assert s == [Var(e.x), Assign] + Show(e.rhs, ASSIGN) + [];
    Parts(toks, cur, [Var(e.x), Assign], Show(e.rhs, ASSIGN), []);
    AtAssign(e.rhs);
    AssignShown(a, e.rhs, toks, cur + 2, depth, env, universe);
    var (env', v) := Meaning(a, e.rhs, env);
    StoreFits(a, env', e.x, v, universe);
  }

  /** The right side is evaluated before the variable is read. */
  lemma {:induction false} UpdateShown<F>(a: Arith<F>, e: Expr, toks: seq<Token>, cur: nat, depth: nat,
                                          env: Env<F>, universe: set<string>)
    requires WellFormed(e) && e.Update?
    requires Ready(toks, cur, Bare(e), depth, BareNesting(e), env, Names(e), universe)
    requires Closer(toks[cur + |Bare(e)|])
    ensures Done(EvalAssign(a, toks, cur, depth, env), cur + |Bare(e)|, Meaning(a, e, env), universe)
    decreases e, 4
  {
    hide EvalAdd, EvalMul, EvalUnary, EvalPrimary, MulLoop, EvalArgs, ArgLoop, CallResult, AddLoop, Stream;
    var s := Bare(e);
    assert toks[cur] == s[0] && toks[cur + 1] == s[1] && toks[cur + 2] == s[2];
    assert s == [Var(e.x), e.op, Assign] + Show(e.rhs, ASSIGN) + [];
    Parts(toks, cur, [Var(e.x), e.op, Assign], Show(e.rhs, ASSIGN), []);
    AtAssign(e.rhs);
    AssignShown(a, e.rhs, toks, cur + 3, depth, env, universe);
    var (env', w) := Meaning(a, e.rhs, env);
    UpdateFits(a, env', e.x, e.op, w, universe);
  }

  lemma UpdateFits<F>(a: Arith<F>, env: Env<F>, x: string, op: Token, w: F, universe: set<string>)
    requires Fits(env, {x}, universe) && op in {Plus, Minus, Mul, Div}
    ensures
      var env' := Touch(a, env, x);
      var v := Updated(a, op, Lookup(a, env'.vars, x), w);
      && Lookup(a, env'.vars, x) == Lookup(a, env.vars, x)
      && Store(env', x, v) == env.(vars := env.vars[x := v])
      && Store(env', x, v).vars.Keys <= universe
  {
    StoreFits(a, env, x, w, universe);
    var env' := Touch(a, env, x);
    var v := Updated(a, op, Lookup(a, env'.vars, x), w);
    StoreFits(a, env', x, v, universe);
    assert env'.vars[x := v] == env.vars[x := v];
  }

  lemma {:induction false} AddBare<F>(a: Arith<F>, e: Expr, toks: seq<Token>, cur: nat, depth: nat,
                                      env: Env<F>, universe: set<string>)
    requires WellFormed(e) && Level(e) >= ADD
    requires Ready(toks, cur, Bare(e), depth, BareNesting(e), env, Names(e), universe)
    requires toks[cur + |Bare(e)|] !in {Mul, Div, Mod}
    ensures
      var (env', v) := Meaning(a, e, env);
      && EvalAdd(a, toks, cur, depth, env) == AddLoop(a, toks, cur + |Bare(e)|, depth, env', v)
      && env'.vars.Keys <= universe
    decreases e, 4
  {
    hide EvalMul, EvalUnary, EvalPrimary, EvalAssign, EvalArgs, ArgLoop, CallResult, Stream, Show, Nesting;
    if e.Sum? {
      SumBare(a, e, toks, cur, depth, env, universe);
    } else {
      MulBare(a, e, toks, cur, depth, env, universe);
    }
  }

  lemma {:induction false} SumBare<F>(a: Arith<F>, e: Expr, toks: seq<Token>, cur: nat, depth: nat,
                                      env: Env<F>, universe: set<string>)
    requires WellFormed(e) && e.Sum?
    requires Ready(toks, cur, Bare(e), depth, BareNesting(e), env, Names(e), universe)
    requires toks[cur + |Bare(e)|] !in {Mul, Div, Mod}
    ensures
      var (env', v) := Meaning(a, e, env);
      && EvalAdd(a, toks, cur, depth, env) == AddLoop(a, toks, cur + |Bare(e)|, depth, env', v)
      && env'.vars.Keys <= universe
    decreases e, 3
  {
    hide EvalAdd, EvalMul, EvalUnary, EvalPrimary, EvalAssign, EvalArgs, ArgLoop, CallResult, Stream, Show, Nesting;
    var op, l, r := e.op, e.l, e.r;
    var p, q := Show(l, ADD), Show(r, MUL);
    Parts(toks, cur, p, [op], q);
    assert toks[cur + |p|] == [op][0];
    AddShown(a, l, toks, cur, depth, env, universe);
    var (env1, v) := Meaning(a, l, env);
    MulShown(a, r, toks, cur + |p| + 1, depth, env1, universe);
    var (env2, w) := Meaning(a, r, env1);
    assert EvalMul(a, toks, cur + |p| + 1, depth, env1) == Outcome(cur + |Bare(e)|, env2, w);
  }

  lemma {:induction false} AddShown<F>(a: Arith<F>, e: Expr, toks: seq<Token>, cur: nat, depth: nat,
                                       env: Env<F>, universe: set<string>)
    requires WellFormed(e)
    requires Ready(toks, cur, Show(e, ADD), depth, Nesting(e, ADD), env, Names(e), universe)
    requires toks[cur + |Show(e, ADD)|] !in {Mul, Div, Mod}
    ensures
      var (env', v) := Meaning(a, e, env);
      && EvalAdd(a, toks, cur, depth, env) == AddLoop(a, toks, cur + |Show(e, ADD)|, depth, env', v)
      && env'.vars.Keys <= universe
    decreases e, 7
  {
    hide EvalPrimary, EvalAssign, EvalArgs, ArgLoop, CallResult, Stream, Bare, BareNesting;
    if Level(e) < ADD {
      Parenthesised(a, e, toks, cur, depth, env, universe);
      assert EvalUnary(a, toks, cur, depth, env) == EvalPrimary(a, toks, cur, depth, env);
      var (env', v) := Meaning(a, e, env);
      assert EvalMul(a, toks, cur, depth, env) == MulLoop(a, toks, cur + |Show(e, ADD)|, depth, env', v);
    } else {
      AddBare(a, e, toks, cur, depth, env, universe);
    }
  }

  lemma {:induction false} MulBare<F>(a: Arith<F>, e: Expr, toks: seq<Token>, cur: nat, depth: nat,
                                      env: Env<F>, universe: set<string>)
    requires WellFormed(e) && Level(e) >= MUL
    requires Ready(toks, cur, Bare(e), depth, BareNesting(e), env, Names(e), universe)
    ensures
      var (env', v) := Meaning(a, e, env);
      && EvalMul(a, toks, cur, depth, env) == MulLoop(a, toks, cur + |Bare(e)|, depth, env', v)
      && env'.vars.Keys <= universe
    decreases e, 3
  {
    hide EvalUnary, EvalPrimary, EvalAssign, EvalArgs, ArgLoop, CallResult, EvalAdd, AddLoop, Stream, Show, Nesting;
    if e.Prod? {
      ProdBare(a, e, toks, cur, depth, env, universe);
    } else {
      UnaryBare(a, e, toks, cur, depth, env, universe);
    }
  }

  lemma {:induction false} ProdBare<F>(a: Arith<F>, e: Expr, toks: seq<Token>, cur: nat, depth: nat,
                                       env: Env<F>, universe: set<string>)
    requires WellFormed(e) && e.Prod?
    requires Ready(toks, cur, Bare(e), depth, BareNesting(e), env, Names(e), universe)
    ensures
      var (env', v) := Meaning(a, e, env);
      && EvalMul(a, toks, cur, depth, env) == MulLoop(a, toks, cur + |Bare(e)|, depth, env', v)
      && env'.vars.Keys <= universe
    decreases e, 2
  {
    hide EvalMul, EvalUnary, EvalPrimary, EvalAssign, EvalArgs, ArgLoop, CallResult, EvalAdd, AddLoop, Stream, Show, Nesting;
    var op, l, r := e.op, e.l, e.r;
    var p, q := Show(l, MUL), Show(r, UNARY);
    Parts(toks, cur, p, [op], q);
    assert toks[cur + |p|] == [op][0];
    MulShown(a, l, toks, cur, depth, env, universe);
    var (env1, v) := Meaning(a, l, env);
    UnaryShown(a, r, toks, cur + |p| + 1, depth, env1, universe);
  }

  lemma {:induction false} MulShown<F>(a: Arith<F>, e: Expr, toks: seq<Token>, cur: nat, depth: nat,
                                       env: Env<F>, universe: set<string>)
    requires WellFormed(e)
    requires Ready(toks, cur, Show(e, MUL), depth, Nesting(e, MUL), env, Names(e), universe)
    ensures
      var (env', v) := Meaning(a, e, env);
      && EvalMul(a, toks, cur, depth, env) == MulLoop(a, toks, cur + |Show(e, MUL)|, depth, env', v)
      && env'.vars.Keys <= universe
    decreases e, 7
  {
    hide EvalPrimary, EvalAssign, EvalArgs, ArgLoop, CallResult, Stream, Bare, BareNesting;
    if Level(e) < MUL {
      Parenthesised(a, e, toks, cur, depth, env, universe);
      assert EvalUnary(a, toks, cur, depth, env) == EvalPrimary(a, toks, cur, depth, env);
    } else {
      MulBare(a, e, toks, cur, depth, env, universe);
    }
  }

  lemma {:induction false} UnaryBare<F>(a: Arith<F>, e: Expr, toks: seq<Token>, cur: nat, depth: nat,
                                        env: Env<F>, universe: set<string>)
    requires WellFormed(e) && Level(e) >= UNARY
    requires Ready(toks, cur, Bare(e), depth, BareNesting(e), env, Names(e), universe)
    ensures Done(EvalUnary(a, toks, cur, depth, env), cur + |Bare(e)|, Meaning(a, e, env), universe)
    decreases e, 2
  {
    hide EvalPrimary, EvalAssign, EvalArgs, ArgLoop, CallResult, EvalAdd, AddLoop, EvalMul, MulLoop, Stream, Show, Nesting;
    var s := Bare(e);
    assert toks[cur] == s[0];
    if e.Neg? || e.Pos? {
      assert s == [s[0]] + Show(e.e, UNARY) + [];
      Parts(toks, cur, [s[0]], Show(e.e, UNARY), []);
      UnaryShown(a, e.e, toks, cur + 1, depth, env, universe);
    } else {
      PrimaryBare(a, e, toks, cur, depth, env, universe);
    }
  }

  lemma {:induction false} UnaryShown<F>(a: Arith<F>, e: Expr, toks: seq<Token>, cur: nat, depth: nat,
                                         env: Env<F>, universe: set<string>)
    requires WellFormed(e)
    requires Ready(toks, cur, Show(e, UNARY), depth, Nesting(e, UNARY), env, Names(e), universe)
    ensures Done(EvalUnary(a, toks, cur, depth, env), cur + |Show(e, UNARY)|, Meaning(a, e, env), universe)
    decreases e, 7
  {
    hide EvalPrimary, EvalAssign, EvalArgs, ArgLoop, CallResult, Stream, Bare, BareNesting;
    if Level(e) < UNARY {
      Parenthesised(a, e, toks, cur, depth, env, universe);
    } else {
      UnaryBare(a, e, toks, cur, depth, env, universe);
    }
  }

  /** A parenthesised expression is a primary, so no operator loop or sign sees inside it. */
  lemma {:induction false} Parenthesised<F>(a: Arith<F>, e: Expr, toks: seq<Token>, cur: nat, depth: nat,
                                            env: Env<F>, universe: set<string>)
    requires WellFormed(e)
    requires Ready(toks, cur, [LParen] + Bare(e) + [RParen], depth, 1 + BareNesting(e), env, Names(e), universe)
    ensures toks[cur] == LParen
    ensures Done(EvalPrimary(a, toks, cur, depth, env), cur + |Bare(e)| + 2, Meaning(a, e, env), universe)
    decreases e, 6
  {
    hide EvalAssign, EvalArgs, ArgLoop, CallResult, Stream, Bare, BareNesting, Meaning;
    var s := Bare(e);
    Parts(toks, cur, [LParen], s, [RParen]);
    assert toks[cur] == [LParen][0] && toks[cur + 1 + |s|] == [RParen][0];
    AssignShown(a, e, toks, cur + 1, depth + 1, env, universe);
  }

  lemma {:induction false} PrimaryBare<F>(a: Arith<F>, e: Expr, toks: seq<Token>, cur: nat, depth: nat,
                                          env: Env<F>, universe: set<string>)
    requires WellFormed(e) && Level(e) >= PRIMARY
    requires Ready(toks, cur, Bare(e), depth, BareNesting(e), env, Names(e), universe)
    ensures Done(EvalPrimary(a, toks, cur, depth, env), cur + |Bare(e)|, Meaning(a, e, env), universe)
    decreases e, 1
  {
    hide EvalAssign, EvalArgs, ArgLoop, CallResult, Stream;
    assert toks[cur] == Bare(e)[0];
    match e
    case Lit(_) =>
    case Name(x) =>
      StoreFits(a, env, x, a.Zero(), universe);
      assert Lookup(a, Touch(a, env, x).vars, x) == Lookup(a, env.vars, x);
    case Call(fn, args) =>
      CallBare(a, e, toks, cur, depth, env, universe);
  }

  lemma {:induction false} CallBare<F>(a: Arith<F>, e: Expr, toks: seq<Token>, cur: nat, depth: nat,
                                       env: Env<F>, universe: set<string>)
    requires WellFormed(e) && e.Call?
    requires Ready(toks, cur, Bare(e), depth, BareNesting(e), env, Names(e), universe)
    ensures Done(EvalPrimary(a, toks, cur, depth, env), cur + |Bare(e)|, Meaning(a, e, env), universe)
    decreases e, 0
  {
    hide EvalAssign, EvalArgs, ArgLoop, Stream, MilkValues.Arith.Apply;
    var t := ShowArgs(e.args);
    Parts(toks, cur, [Func(e.fn), LParen], t, [RParen]);
    assert toks[cur] == [Func(e.fn), LParen][0] && toks[cur + 1] == [Func(e.fn), LParen][1];
    assert toks[cur + 2 + |t|] == [RParen][0];
    ArgsShown(a, e.args, toks, cur + 2, depth + 1, env, universe);
  }

  lemma {:induction false} ArgsShown<F>(a: Arith<F>, es: seq<Expr>, toks: seq<Token>, cur: nat, depth: nat,
                                        env: Env<F>, universe: set<string>)
    requires |es| <= 8 && forall i :: 0 <= i < |es| ==> WellFormed(es[i])
    requires Ready(toks, cur, ShowArgs(es), depth, ArgsNesting(es), env, ArgsNames(es), universe)
    requires toks[cur + |ShowArgs(es)|] == RParen
    ensures
      var (env', vs) := Meanings(a, es, env);
      && EvalArgs(a, toks, cur, depth, env) == (cur + |ShowArgs(es)|, env', vs)
      && env'.vars.Keys <= universe
    decreases es, 2
  {
    hide EvalAssign, ArgLoop, Stream, Bare, BareNesting, Meaning;
    if es != [] {
      var s, t := Show(es[0], ASSIGN), ShowMore(es[1..]);
      assert ShowArgs(es) == [] + s + t;
      Parts(toks, cur, [], s, t);
      MoreStart(es[1..], toks, cur + |s|);
      StartsWell(es[0], ASSIGN);
      assert toks[cur] == s[0];
      AtAssign(es[0]);
      AssignShown(a, es[0], toks, cur, depth, env, universe);
      var (env1, v) := Meaning(a, es[0], env);
      MoreArgs(a, es[1..], toks, cur + |s|, depth, env1, [v], universe);
    }
  }

  lemma MoreStart(es: seq<Expr>, toks: seq<Token>, cur: nat)
    requires At(toks, cur, ShowMore(es))
    ensures toks[cur] == if es == [] then toks[cur + |ShowMore(es)|] else Comma
  {
    if es != [] {
      assert toks[cur] == ShowMore(es)[0];
    }
  }

  lemma {:induction false} MoreArgs<F>(a: Arith<F>, es: seq<Expr>, toks: seq<Token>, cur: nat, depth: nat,
                                       env: Env<F>, done: seq<F>, universe: set<string>)
    requires 0 < |done| && |done| + |es| <= 8 && forall i :: 0 <= i < |es| ==> WellFormed(es[i])
    requires Ready(toks, cur, ShowMore(es), depth, ArgsNesting(es), env, ArgsNames(es), universe)
    requires toks[cur + |ShowMore(es)|] == RParen
    ensures
      var (env', vs) := Meanings(a, es, env);
      && ArgLoop(a, toks, cur, depth, env, done) == (cur + |ShowMore(es)|, env', done + vs)
      && env'.vars.Keys <= universe
    decreases es, 1
  {
    hide EvalAssign, Stream, Bare, BareNesting, Meaning;
    MoreStart(es, toks, cur);
    if es != [] {
      var s, t := Show(es[0], ASSIGN), ShowMore(es[1..]);
      Parts(toks, cur, [Comma], s, t);
      MoreStart(es[1..], toks, cur + 1 + |s|);
      AtAssign(es[0]);
      AssignShown(a, es[0], toks, cur + 1, depth, env, universe);
      var (env1, v) := Meaning(a, es[0], env);
      MoreArgs(a, es[1..], toks, cur + 1 + |s|, depth, env1, done + [v], universe);
      var (env2, vs) := Meanings(a, es[1..], env1);
      assert (done + [v]) + vs == done + ([v] + vs);
    } else {
      assert done + [] == done;
    }
  }
}
