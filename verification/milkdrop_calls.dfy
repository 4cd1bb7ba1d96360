/**
 What calls, products and compound assignments mean, stated on expressions and on the operations of the value type
 alone: each function of the language by its own equation, and the laws that relate one form of expression to another.
 */
module MilkCalls {
  import opened MilkTokens
  import opened MilkValues
  import opened MilkTree
  import opened MilkProgram
  import L = MilkLex

  /** The i-th argument; a missing one is zero. */
  function Arg<F>(a: Arith<F>, vs: seq<F>, i: nat): F {
    if i < |vs| then vs[i] else a.literal("0")
  }

  function Bit<F>(a: Arith<F>, b: bool): F {
    a.literal(if b then "1" else "0")
  }

  /** Further from zero than 1e-5. */
  predicate Large<F>(a: Arith<F>, x: F) {
    a.less(a.literal("1e-5"), a.libm("fabsf", x))
  }

  ghost predicate Callable(es: seq<Expr>) {
    |es| <= 8 && forall i :: 0 <= i < |es| ==> WellFormed(es[i])
  }

  // ------------------------------------------------------------ argument lists

  lemma OneArg<F>(a: Arith<F>, e: Expr, env: Env<F>)
    requires WellFormed(e)
    ensures Meanings(a, [e], env) == (Meaning(a, e, env).0, [Meaning(a, e, env).1])
  {
    hide Meaning;
    var (env1, v) := Meaning(a, e, env);
    assert [e][1..] == [];
    assert Meanings(a, [], env1) == (env1, []);
    assert [v] + [] == [v];
  }

  lemma {:induction false} MeaningsSnoc<F>(a: Arith<F>, es: seq<Expr>, e: Expr, env: Env<F>)
    requires (forall i :: 0 <= i < |es| ==> WellFormed(es[i])) && WellFormed(e)
    ensures
      var (env1, vs) := Meanings(a, es, env);
      var (env2, v) := Meaning(a, e, env1);
      Meanings(a, es + [e], env) == (env2, vs + [v])
    decreases |es|
  {
    hide Meaning;
    if es == [] {
      assert es + [e] == [e];
      OneArg(a, e, env);
      assert [] + [Meaning(a, e, env).1] == [Meaning(a, e, env).1];
    } else {
      var (env1, v) := Meaning(a, es[0], env);
      assert (es + [e])[1..] == es[1..] + [e];
      MeaningsSnoc(a, es[1..], e, env1);
      var w := Meaning(a, e, Meanings(a, es[1..], env1).0).1;
      assert [v] + (Meanings(a, es[1..], env1).1 + [w]) == ([v] + Meanings(a, es[1..], env1).1) + [w];
    }
  }

  lemma Joined2<T>(x: T, y: T)
    ensures [x] + [y] == [x, y]
  {
  }

  lemma Joined3<T>(x: T, y: T, z: T)
    ensures [x, y] + [z] == [x, y, z]
  {
  }

  lemma TwoArgs<F>(a: Arith<F>, l: Expr, r: Expr, env: Env<F>)
    requires WellFormed(l) && WellFormed(r)
    ensures
      var (env1, v) := Meaning(a, l, env);
      var (env2, w) := Meaning(a, r, env1);
      Meanings(a, [l, r], env) == (env2, [v, w])
  {
    hide Meaning, Meanings;
    var (env1, v) := Meaning(a, l, env);
    var (env2, w) := Meaning(a, r, env1);
    OneArg(a, l, env);
    MeaningsSnoc(a, [l], r, env);
    Joined2(l, r);
    Joined2(v, w);
  }

  lemma ThreeArgs<F>(a: Arith<F>, c: Expr, t: Expr, e: Expr, env: Env<F>)
    requires WellFormed(c) && WellFormed(t) && WellFormed(e)
    ensures
      var (env1, x) := Meaning(a, c, env);
      var (env2, y) := Meaning(a, t, env1);
      var (env3, z) := Meaning(a, e, env2);
      Meanings(a, [c, t, e], env) == (env3, [x, y, z])
  {
    hide Meaning, Meanings;
    var (env1, x) := Meaning(a, c, env);
    var (env2, y) := Meaning(a, t, env1);
    var (env3, z) := Meaning(a, e, env2);
    TwoArgs(a, c, t, env);
    MeaningsSnoc(a, [c, t], e, env);
    Joined3(c, t, e);
    Joined3(x, y, z);
  }

  /** A call takes the values of its first three arguments from the table, after all arguments are evaluated. */
  lemma CallMeaning<F>(a: Arith<F>, fn: string, es: seq<Expr>, env: Env<F>)
    requires Callable(es)
    ensures
      var (after, vs) := Meanings(a, es, env);
      && WellFormed(Call(fn, es))
      && Meaning(a, Call(fn, es), env).1 == a.Apply(fn, Arg(a, vs, 0), Arg(a, vs, 1), Arg(a, vs, 2), after.seed)
  {
    hide Meanings, Arith.Apply;
  }

  // ------------------------------------------------------------ the value of each function

  /** `if` is strict: all three arguments are evaluated, in order, and the first selects the second or the third. */
  lemma IfSelects<F>(a: Arith<F>, c: Expr, t: Expr, e: Expr, env: Env<F>)
    requires WellFormed(c) && WellFormed(t) && WellFormed(e)
    ensures
      var (env1, x) := Meaning(a, c, env);
      var (env2, y) := Meaning(a, t, env1);
      var (env3, z) := Meaning(a, e, env2);
      && WellFormed(Call("if", [c, t, e]))
      && Meaning(a, Call("if", [c, t, e]), env) == (env3, if Large(a, x) then y else z)
  {
    hide Meaning, Meanings;
    ThreeArgs(a, c, t, e, env);
    CallMeaning(a, "if", [c, t, e], env);
    OnlyRandDraws(a, "if", [c, t, e], env);
  }

  /** Angles, their arguments clamped where the C library needs it. */
  lemma Trigonometry<F>(a: Arith<F>, es: seq<Expr>, env: Env<F>)
    requires Callable(es)
    ensures
      var vs := Meanings(a, es, env).1;
      var x, y := Arg(a, vs, 0), Arg(a, vs, 1);
      var clamped := a.libm2("fminf", a.libm2("fmaxf", x, a.neg(a.literal("1"))), a.literal("1"));
      && Meaning(a, Call("sin", es), env).1 == a.libm("sinf", x)
      && Meaning(a, Call("cos", es), env).1 == a.libm("cosf", x)
      && Meaning(a, Call("tan", es), env).1 == a.libm("tanf", x)
      && Meaning(a, Call("asin", es), env).1 == a.libm("asinf", clamped)
      && Meaning(a, Call("acos", es), env).1 == a.libm("acosf", clamped)
      && Meaning(a, Call("atan", es), env).1 == a.libm("atanf", x)
      && Meaning(a, Call("atan2", es), env).1 == a.libm2("atan2f", x, y)
  {
    hide Meaning, Meanings;
    CallMeaning(a, "sin", es, env);
    CallMeaning(a, "cos", es, env);
    CallMeaning(a, "tan", es, env);
    CallMeaning(a, "asin", es, env);
    CallMeaning(a, "acos", es, env);
    CallMeaning(a, "atan", es, env);
    CallMeaning(a, "atan2", es, env);
  }

  /** Powers and logarithms, kept away from zero and negative arguments. */
  lemma Powers<F>(a: Arith<F>, es: seq<Expr>, env: Env<F>)
    requires Callable(es)
    ensures
      var vs := Meanings(a, es, env).1;
      var x, y := Arg(a, vs, 0), Arg(a, vs, 1);
      var above0 := a.add(a.libm("fabsf", x), a.literal("1e-30"));
      && Meaning(a, Call("pow", es), env).1 == a.libm2("powf", above0, y)
      && Meaning(a, Call("exp", es), env).1 == a.libm("expf", a.libm2("fminf", x, a.literal("80")))
      && Meaning(a, Call("log", es), env).1 == a.libm("logf", above0)
      && Meaning(a, Call("log10", es), env).1 == a.libm("log10f", above0)
      && Meaning(a, Call("sqrt", es), env).1 == a.libm("sqrtf", a.libm("fabsf", x))
      && Meaning(a, Call("sqr", es), env).1 == a.mul(x, x)
  {
    hide Meaning, Meanings;
    CallMeaning(a, "pow", es, env);
    CallMeaning(a, "exp", es, env);
    CallMeaning(a, "log", es, env);
    CallMeaning(a, "log10", es, env);
    CallMeaning(a, "sqrt", es, env);
    CallMeaning(a, "sqr", es, env);
  }

  /** Sizes and rounding. */
  lemma Rounding<F>(a: Arith<F>, es: seq<Expr>, env: Env<F>)
    requires Callable(es)
    ensures
      var vs := Meanings(a, es, env).1;
      var x, y := Arg(a, vs, 0), Arg(a, vs, 1);
      && Meaning(a, Call("abs", es), env).1 == a.libm("fabsf", x)
      && Meaning(a, Call("min", es), env).1 == a.libm2("fminf", x, y)
      && Meaning(a, Call("max", es), env).1 == a.libm2("fmaxf", x, y)
      && Meaning(a, Call("floor", es), env).1 == a.libm("floorf", x)
      && Meaning(a, Call("ceil", es), env).1 == a.libm("ceilf", x)
      && Meaning(a, Call("int", es), env).1 == a.toInt(x)
  {
    hide Meaning, Meanings;
    CallMeaning(a, "abs", es, env);
    CallMeaning(a, "min", es, env);
    CallMeaning(a, "max", es, env);
    CallMeaning(a, "floor", es, env);
    CallMeaning(a, "ceil", es, env);
    CallMeaning(a, "int", es, env);
  }

  /** Comparisons give one or zero. */
  lemma Comparisons<F>(a: Arith<F>, es: seq<Expr>, env: Env<F>)
    requires Callable(es)
    ensures
      var vs := Meanings(a, es, env).1;
      var x, y := Arg(a, vs, 0), Arg(a, vs, 1);
      && Meaning(a, Call("above", es), env).1 == Bit(a, a.less(y, x))
      && Meaning(a, Call("below", es), env).1 == Bit(a, a.less(x, y))
      && Meaning(a, Call("equal", es), env).1 == Bit(a, a.less(a.libm("fabsf", a.sub(x, y)), a.literal("1e-5")))
  {
    hide Meaning, Meanings;
    CallMeaning(a, "above", es, env);
    CallMeaning(a, "below", es, env);
    CallMeaning(a, "equal", es, env);
  }

  /** So does logic. */
  lemma Logic<F>(a: Arith<F>, es: seq<Expr>, env: Env<F>)
    requires Callable(es)
    ensures
      var vs := Meanings(a, es, env).1;
      var x, y := Arg(a, vs, 0), Arg(a, vs, 1);
      && Meaning(a, Call("bnot", es), env).1 == Bit(a, a.less(a.libm("fabsf", x), a.literal("1e-5")))
      && Meaning(a, Call("band", es), env).1 == Bit(a, Large(a, x) && Large(a, y))
      && Meaning(a, Call("bor", es), env).1 == Bit(a, Large(a, x) || Large(a, y))
  {
    hide Meaning, Meanings;
    CallMeaning(a, "bnot", es, env);
    CallMeaning(a, "band", es, env);
    CallMeaning(a, "bor", es, env);
  }

  lemma Sign<F>(a: Arith<F>, es: seq<Expr>, env: Env<F>)
    requires Callable(es)
    ensures
      var x, v := Arg(a, Meanings(a, es, env).1, 0), Meaning(a, Call("sign", es), env).1;
      var positive, negative := a.less(a.literal("0"), x), a.less(x, a.literal("0"));
      && (positive ==> v == a.literal("1"))
      && (!positive && negative ==> v == a.neg(a.literal("1")))
      && (!positive && !negative ==> v == a.literal("0"))
  {
    hide Meaning, Meanings;
    CallMeaning(a, "sign", es, env);
  }

  /** The random source is scaled by its argument, if that is positive; its draw is the first after the arguments'. */
  lemma Random<F>(a: Arith<F>, es: seq<Expr>, env: Env<F>)
    requires Callable(es)
    ensures
      var (after, vs) := Meanings(a, es, env);
      var x, v := Arg(a, vs, 0), Meaning(a, Call("rand", es), env).1;
      && (a.less(a.literal("0"), x) ==> v == a.mul(a.random(after.seed), x))
      && (!a.less(a.literal("0"), x) ==> v == a.mul(a.random(after.seed), a.literal("1")))
  {
    hide Meaning, Meanings;
    CallMeaning(a, "rand", es, env);
  }

  lemma Sigmoid<F>(a: Arith<F>, es: seq<Expr>, env: Env<F>)
    requires Callable(es)
    ensures
      var vs, one := Meanings(a, es, env).1, a.literal("1");
      Meaning(a, Call("sigmoid", es), env).1 ==
        a.div(one, a.add(one, a.libm("expf", a.mul(a.neg(Arg(a, vs, 0)), Arg(a, vs, 1)))))
  {
    hide Meaning, Meanings;
    CallMeaning(a, "sigmoid", es, env);
  }

  /** A call leaves what its arguments leave; only `rand` makes a draw. */
  lemma OnlyRandDraws<F>(a: Arith<F>, fn: string, es: seq<Expr>, env: Env<F>)
    requires Callable(es)
    ensures
      var after := Meanings(a, es, env).0;
      Meaning(a, Call(fn, es), env).0 == Env(after.vars, if fn == "rand" then after.seed + 1 else after.seed)
  {
    hide Meanings, Arith.Apply;
  }

  /** The lexer's list of functions is complete: any other name would be called for nothing. */
  lemma UnknownIsZero<F>(a: Arith<F>, fn: string, es: seq<Expr>, env: Env<F>)
    requires Callable(es) && !L.IsFunction(fn)
    ensures Meaning(a, Call(fn, es), env).1 == a.literal("0")
  {
    hide Meaning, Meanings;
    CallMeaning(a, fn, es, env);
  }

  // ------------------------------------------------------------ laws

  /** A missing argument counts as zero, in every function. */
  lemma MissingIsZero<F>(a: Arith<F>, fn: string, es: seq<Expr>, env: Env<F>)
    requires Callable(es) && |es| < 3
    ensures Meaning(a, Call(fn, es), env) == Meaning(a, Call(fn, es + [Lit("0")]), env)
  {
    hide Meanings, Arith.Apply;
    MeaningsSnoc(a, es, Lit("0"), env);
  }

  /** Arguments after the third are evaluated, for what they do, and not used: the value is that of a call without the
      last one, for all functions but `rand`, whose draw comes after theirs. */
  lemma FourthUnused<F>(a: Arith<F>, fn: string, es: seq<Expr>, e: Expr, env: Env<F>)
    requires Callable(es + [e]) && Callable(es) && WellFormed(e) && |es| >= 3 && fn != "rand"
    ensures Meaning(a, Call(fn, es + [e]), env).1 == Meaning(a, Call(fn, es), env).1
    ensures Meaning(a, Call(fn, es + [e]), env).0 == Meaning(a, e, Meaning(a, Call(fn, es), env).0).0
  {
    hide Meanings, Meaning, Arith.Apply;
    MeaningsSnoc(a, es, e, env);
    CallMeaning(a, fn, es, env);
    CallMeaning(a, fn, es + [e], env);
    OnlyRandDraws(a, fn, es, env);
    OnlyRandDraws(a, fn, es + [e], env);
    var (after, vs) := Meanings(a, es, env);
    SeedUnused(a, fn, Arg(a, vs, 0), Arg(a, vs, 1), Arg(a, vs, 2), after.seed, Meaning(a, e, after).0.seed);
  }

  lemma SeedUnused<F>(a: Arith<F>, fn: string, x: F, y: F, z: F, seed: nat, later: nat)
    requires fn != "rand"
    ensures a.Apply(fn, x, y, z, seed) == a.Apply(fn, x, y, z, later)
  {
  }

  lemma WellFormedBoth(l: Expr, r: Expr)
    requires WellFormed(l) && WellFormed(r)
    ensures Callable([l, r]) && Callable([l]) && Callable([r, l])
    ensures WellFormed(Prod(Mod, l, r)) && WellFormed(Prod(Mul, Sum(Plus, l, r), Lit("0.5")))
  {
  }

  /** fmod(l, r) is l % r, and avg(l, r) is (l + r) * 0.5, with the same effects in the same order. */
  lemma FmodAndAvg<F>(a: Arith<F>, l: Expr, r: Expr, env: Env<F>)
    requires WellFormed(l) && WellFormed(r)
    ensures Meaning(a, Call("fmod", [l, r]), env) == Meaning(a, Prod(Mod, l, r), env)
    ensures Meaning(a, Call("avg", [l, r]), env) == Meaning(a, Prod(Mul, Sum(Plus, l, r), Lit("0.5")), env)
  {
    hide Meaning, Meanings;
    WellFormedBoth(l, r);
    TwoArgs(a, l, r, env);
    CallMeaning(a, "fmod", [l, r], env);
    CallMeaning(a, "avg", [l, r], env);
    OnlyRandDraws(a, "fmod", [l, r], env);
    OnlyRandDraws(a, "avg", [l, r], env);
    ProductValue(a, l, r, env);
    ProductValue(a, Sum(Plus, l, r), Lit("0.5"), env);
    SumValue(a, l, r, env);
    LitValue(a, "0.5", Meaning(a, Sum(Plus, l, r), env).0);
  }

  lemma LitValue<F>(a: Arith<F>, text: string, env: Env<F>)
    ensures Meaning(a, Lit(text), env) == (env, a.literal(text))
  {
  }

  lemma SumValue<F>(a: Arith<F>, l: Expr, r: Expr, env: Env<F>)
    requires WellFormed(l) && WellFormed(r)
    ensures
      var (env1, v) := Meaning(a, l, env);
      var (env2, w) := Meaning(a, r, env1);
      && Meaning(a, Sum(Plus, l, r), env) == (env2, a.add(v, w))
      && Meaning(a, Sum(Minus, l, r), env) == (env2, a.sub(v, w))
  {
  }

  /** Division and remainder by zero give zero; otherwise they are the value type's own. */
  lemma ProductValue<F>(a: Arith<F>, l: Expr, r: Expr, env: Env<F>)
    requires WellFormed(l) && WellFormed(r)
    ensures
      var (env1, v) := Meaning(a, l, env);
      var (env2, w) := Meaning(a, r, env1);
      var zero := a.literal("0");
      && Meaning(a, Prod(Mul, l, r), env) == (env2, a.mul(v, w))
      && (a.equal(w, zero) ==> Meaning(a, Prod(Div, l, r), env) == (env2, zero) && Meaning(a, Prod(Mod, l, r), env) == (env2, zero))
      && (!a.equal(w, zero) ==>
            Meaning(a, Prod(Div, l, r), env) == (env2, a.div(v, w)) && Meaning(a, Prod(Mod, l, r), env) == (env2, a.fmod(v, w)))
  {
  }

  /** An expression that assigns nothing and draws nothing. */
  ghost predicate Quiet(e: Expr) {
    match e
    case Lit(_) => true
    case Name(_) => true
    case Neg(e) => Quiet(e)
    case Pos(e) => Quiet(e)
    case Sum(_, l, r) => Quiet(l) && Quiet(r)
    case Prod(_, l, r) => Quiet(l) && Quiet(r)
    case Call(fn, args) => fn != "rand" && forall i :: 0 <= i < |args| ==> Quiet(args[i])
    case Set(_, _) => false
    case Update(_, _, _) => false
  }

  /** Evaluating it cannot be observed afterwards. */
  lemma {:induction false} QuietUnseen<F>(a: Arith<F>, e: Expr, env: Env<F>)
    requires WellFormed(e) && Quiet(e)
    ensures Alike(a, Meaning(a, e, env).0, env)
    decreases e
  {
    match e
    case Lit(_) =>
    case Name(x) => ReadInvisible(a, env, x);
    case Neg(x) => QuietUnseen(a, x, env);
    case Pos(x) => QuietUnseen(a, x, env);
    case Sum(_, l, r) =>
      QuietUnseen(a, l, env);
      QuietUnseen(a, r, Meaning(a, l, env).0);
    case Prod(_, l, r) =>
      QuietUnseen(a, l, env);
      QuietUnseen(a, r, Meaning(a, l, env).0);
    case Call(fn, args) =>
      QuietArgs(a, args, env);
      OnlyRandDraws(a, fn, args, env);
  }

  lemma {:induction false} QuietArgs<F>(a: Arith<F>, es: seq<Expr>, env: Env<F>)
    requires forall i :: 0 <= i < |es| ==> WellFormed(es[i]) && Quiet(es[i])
    ensures Alike(a, Meanings(a, es, env).0, env)
    decreases es
  {
    if es != [] {
      QuietUnseen(a, es[0], env);
      QuietArgs(a, es[1..], Meaning(a, es[0], env).0);
    }
  }

  /** sqr(e) is e * e, and above(e, f) is below(f, e), for expressions without effects. */
  lemma QuietLaws<F>(a: Arith<F>, e: Expr, f: Expr, env: Env<F>)
    requires WellFormed(e) && WellFormed(f) && Quiet(e) && Quiet(f)
    ensures Meaning(a, Call("sqr", [e]), env).1 == Meaning(a, Prod(Mul, e, e), env).1
    ensures Meaning(a, Call("above", [e, f]), env).1 == Meaning(a, Call("below", [f, e]), env).1
  {
    hide Alike, Meaning, Meanings;
    var (env1, v) := Meaning(a, e, env);
    var (env2, w) := Meaning(a, f, env);
    QuietUnseen(a, e, env);
    QuietUnseen(a, f, env);
    UnsetIsZero(a, e, env1, env);
    UnsetIsZero(a, f, env1, env);
    UnsetIsZero(a, e, env2, env);
    WellFormedBoth(e, f);
    WellFormedBoth(f, e);
    OneArg(a, e, env);
    CallMeaning(a, "sqr", [e], env);
    TwoArgs(a, e, f, env);
    TwoArgs(a, f, e, env);
    Comparisons(a, [e, f], env);
    Comparisons(a, [f, e], env);
    ProductValue(a, e, e, env);
  }

  // ------------------------------------------------------------ compound assignment

  /** Whether evaluating an expression may assign x. */
  ghost predicate Assigns(e: Expr, x: string) {
    match e
    case Lit(_) => false
    case Name(_) => false
    case Neg(e) => Assigns(e, x)
    case Pos(e) => Assigns(e, x)
    case Sum(_, l, r) => Assigns(l, x) || Assigns(r, x)
    case Prod(_, l, r) => Assigns(l, x) || Assigns(r, x)
    case Call(_, args) => exists i :: 0 <= i < |args| && Assigns(args[i], x)
    case Set(y, rhs) => y == x || Assigns(rhs, x)
    case Update(_, y, rhs) => y == x || Assigns(rhs, x)
  }

  lemma ReadReads<F>(a: Arith<F>, env: Env<F>, x: string, y: string)
    ensures Lookup(a, Read(a, env, x).vars, y) == Lookup(a, env.vars, y)
    ensures Read(a, Read(a, env, x), y) == Read(a, Read(a, env, y), x)
  {
    if x != y {
      assert Read(a, Read(a, env, x), y).vars == Read(a, Read(a, env, y), x).vars;
    }
  }

  lemma WriteRead<F>(a: Arith<F>, env: Env<F>, x: string, y: string, v: F)
    requires x != y
    ensures Read(a, env, x).(vars := Read(a, env, x).vars[y := v]) == Read(a, env.(vars := env.vars[y := v]), x)
    ensures Lookup(a, env.vars[y := v], x) == Lookup(a, env.vars, x)
  {
    assert env.vars[x := Lookup(a, env.vars, x)][y := v] == env.vars[y := v][x := Lookup(a, env.vars, x)];
  }

  /** Reading x may as well come before an expression that does not assign it. */
  lemma {:induction false} ReadEarlier<F>(a: Arith<F>, e: Expr, env: Env<F>, x: string)
    requires WellFormed(e) && !Assigns(e, x)
    ensures Meaning(a, e, Read(a, env, x)) == (Read(a, Meaning(a, e, env).0, x), Meaning(a, e, env).1)
    ensures Lookup(a, Meaning(a, e, env).0.vars, x) == Lookup(a, env.vars, x)
    decreases e
  {
    hide Read, Lookup;
    match e
    case Lit(_) =>
    case Name(y) =>
      ReadReads(a, env, x, y);
      ReadReads(a, env, y, x);
    case Neg(f) => ReadEarlier(a, f, env, x);
    case Pos(f) => ReadEarlier(a, f, env, x);
    case Sum(_, l, r) =>
      ReadEarlier(a, l, env, x);
      ReadEarlier(a, r, Meaning(a, l, env).0, x);
    case Prod(_, l, r) =>
      ReadEarlier(a, l, env, x);
      ReadEarlier(a, r, Meaning(a, l, env).0, x);
    case Call(fn, args) => CallEarlier(a, fn, args, env, x);
    case Set(y, rhs) =>
      ReadEarlier(a, rhs, env, x);
      WriteRead(a, Meaning(a, rhs, env).0, x, y, Meaning(a, e, env).1);
    case Update(_, y, rhs) =>
      ReadEarlier(a, rhs, env, x);
      ReadReads(a, Meaning(a, rhs, env).0, x, y);
      WriteRead(a, Meaning(a, rhs, env).0, x, y, Meaning(a, e, env).1);
  }

  lemma {:induction false} CallEarlier<F>(a: Arith<F>, fn: string, args: seq<Expr>, env: Env<F>, x: string)
    requires Callable(args) && forall i :: 0 <= i < |args| ==> !Assigns(args[i], x)
    ensures var e := Call(fn, args);
            && Meaning(a, e, Read(a, env, x)) == (Read(a, Meaning(a, e, env).0, x), Meaning(a, e, env).1)
            && Lookup(a, Meaning(a, e, env).0.vars, x) == Lookup(a, env.vars, x)
    decreases args, 1
  {
    ArgsEarlier(a, args, env, x);
    OnlyRandDraws(a, fn, args, env);
    OnlyRandDraws(a, fn, args, Read(a, env, x));
  }

  lemma {:induction false} ArgsEarlier<F>(a: Arith<F>, es: seq<Expr>, env: Env<F>, x: string)
    requires forall i :: 0 <= i < |es| ==> WellFormed(es[i]) && !Assigns(es[i], x)
    ensures Meanings(a, es, Read(a, env, x)) == (Read(a, Meanings(a, es, env).0, x), Meanings(a, es, env).1)
    ensures Lookup(a, Meanings(a, es, env).0.vars, x) == Lookup(a, env.vars, x)
    decreases es, 0
  {
    hide Read, Lookup, Meaning;
    if es != [] {
      ReadEarlier(a, es[0], env, x);
      ArgsEarlier(a, es[1..], Meaning(a, es[0], env).0, x);
    }
  }

  /** The operator of a compound assignment, applied to two expressions. */
  function Applied(op: Token, l: Expr, r: Expr): Expr {
    if op == Plus || op == Minus then Sum(op, l, r) else Prod(op, l, r)
  }

  /** x op= e is x = x op (e), value, variables and draws, unless e assigns x itself. */
  lemma UpdateIsSet<F>(a: Arith<F>, op: Token, x: string, e: Expr, env: Env<F>)
    requires WellFormed(Update(op, x, e)) && !Assigns(e, x)
    ensures WellFormed(Set(x, Applied(op, Name(x), e)))
    ensures Meaning(a, Update(op, x, e), env) == Meaning(a, Set(x, Applied(op, Name(x), e)), env)
  {
    hide Meaning;
    var (after, w) := Meaning(a, e, env);
    NameValue(a, x, env);
    ReadEarlier(a, e, env, x);
    ReadReads(a, after, x, x);
    if op == Plus || op == Minus {
      SumValue(a, Name(x), e, env);
    } else {
      ProductValue(a, Name(x), e, env);
    }
    var v := Meaning(a, Applied(op, Name(x), e), env).1;
    SetValue(a, x, Applied(op, Name(x), e), env);
    UpdateValue(a, op, x, e, env);
    assert after.vars[x := Lookup(a, after.vars, x)][x := v] == after.vars[x := v];
  }

  lemma NameValue<F>(a: Arith<F>, x: string, env: Env<F>)
    requires |x| <= NAME_MAX
    ensures Meaning(a, Name(x), env) == (Read(a, env, x), Lookup(a, env.vars, x))
  {
  }

  lemma SetValue<F>(a: Arith<F>, x: string, e: Expr, env: Env<F>)
    requires WellFormed(Set(x, e))
    ensures var (after, v) := Meaning(a, e, env); Meaning(a, Set(x, e), env) == (after.(vars := after.vars[x := v]), v)
  {
  }

  /** A compound assignment: the right side, then the variable as it is by then. */
  lemma UpdateValue<F>(a: Arith<F>, op: Token, x: string, e: Expr, env: Env<F>)
    requires WellFormed(Update(op, x, e))
    ensures
      var (after, w) := Meaning(a, e, env);
      var (end, v) := Meaning(a, Update(op, x, e), env);
      var current, zero := Lookup(a, after.vars, x), a.literal("0");
      && end == after.(vars := after.vars[x := v])
      && (op == Plus ==> v == a.add(current, w))
      && (op == Minus ==> v == a.sub(current, w))
      && (op == Mul ==> v == a.mul(current, w))
      && (op == Div && a.equal(w, zero) ==> v == zero)
      && (op == Div && !a.equal(w, zero) ==> v == a.div(current, w))
  {
  }

  /** If e does assign x, the new value is combined: the right side comes first. */
  lemma UpdateReadsLate<F>(a: Arith<F>, x: string, v: string, env: Env<F>)
    requires |x| <= NAME_MAX
    ensures WellFormed(Update(Plus, x, Set(x, Lit(v))))
    ensures Meaning(a, Update(Plus, x, Set(x, Lit(v))), env).1 == a.add(a.literal(v), a.literal(v))
  {
    hide Meaning;
    LitValue(a, v, env);
    SetValue(a, x, Lit(v), env);
    UpdateValue(a, Plus, x, Set(x, Lit(v)), env);
  }
}
