/**
 Whole MilkDrop programs: from source text to the final variables, and the evaluator
 itself, working in place on a position, a nesting depth and the variable table.
 */
module MilkProgram {
  import opened MilkTokens
  import opened MilkValues
  import opened MilkEval
  import opened MilkTree
  import opened MilkLex

  /** The nesting every statement of a program stays within, and the names it uses. */
  ghost predicate Bounded(es: seq<Expr>, names: set<string>) {
    forall i :: 0 <= i < |es| ==>
      WellFormed(es[i]) && BareNesting(es[i]) <= MAX_DEPTH && Names(es[i]) <= names
  }

  lemma {:induction false} ProgramShown<F>(a: Arith<F>, es: seq<Expr>, toks: seq<Token>, cur: nat,
                                           env: Env<F>, last: F, universe: set<string>)
    requires Bounded(es, universe) && Fits(env, {}, universe)
    requires Stream(toks) && At(toks, cur, ShowProgram(es)) && toks[cur + |ShowProgram(es)|] == Eof
    ensures
      var (env', v) := ProgramMeaning(a, es, env, last);
      EvalProgram(a, toks, cur, env, last) == Outcome(cur + |ShowProgram(es)|, env', v)
    decreases es
  {
    hide EvalAssign, Bare, BareNesting, Meaning;
    if es != [] {
      var e, rest := es[0], ShowProgram(es[1..]);
      var s := Show(e, ASSIGN);
      Parts(toks, cur, s, [Semi], rest);
      AtAssign(e);
      assert toks[cur + |s|] == [Semi][0];
      StartsWell(e, ASSIGN);
      assert toks[cur] == s[0];
      AssignShown(a, e, toks, cur, 0, env, universe);
      var (env1, v) := Meaning(a, e, env);
      ProgramShown(a, es[1..], toks, cur + |s| + 1, env1, v, universe);
    }
  }

  /** The main theorem: text to meaning.  Every legal spelling of a program that fits the
      evaluator's bounds evaluates to what the program means. */
  lemma PrintedProgramMeans<F>(a: Arith<F>, es: seq<Expr>, gaps: seq<string>, env: Env<F>, universe: set<string>)
    requires Bounded(es, universe) && Fits(env, {}, universe)
    requires |ShowProgram(es)| < MAX_TOKENS
    requires |gaps| == |ShowProgram(es)| + 1 && Legal(ShowProgram(es), gaps)
    ensures
      var toks := Lex(Spell(ShowProgram(es), gaps), MAX_TOKENS - 1) + [Eof];
      var (env', v) := ProgramMeaning(a, es, env, a.Zero());
      && Stream(toks)
      && EvalProgram(a, toks, 0, env, a.Zero()) == Outcome(|toks| - 1, env', v)
  {
    hide Lex, EvalProgram, ProgramMeaning, ShowProgram, Spell, Legal;
    var toks := ShowProgram(es);
    LexSpell(toks, gaps, MAX_TOKENS - 1);
    LexIsStream(Spell(toks, gaps));
    ProgramShown(a, es, toks + [Eof], 0, env, a.Zero(), universe);
  }

  // ------------------------------------------------------------ ordinary spacing is legal

  /** Names and literals the language can spell. */
  ghost predicate Writable(e: Expr) {
    match e
    case Lit(text) => IsLiteral(text)
    case Name(x) => IsName(x)
    case Neg(e) => Writable(e)
    case Pos(e) => Writable(e)
    case Sum(_, l, r) => Writable(l) && Writable(r)
    case Prod(_, l, r) => Writable(l) && Writable(r)
    case Call(fn, args) => IsName(fn) && IsFunction(fn) && forall i :: 0 <= i < |args| ==> Writable(args[i])
    case Set(x, rhs) => IsName(x) && Writable(rhs)
    case Update(_, x, rhs) => IsName(x) && Writable(rhs)
  }

  /** Spellable tokens in which exactly the functions stand before parentheses. */
  ghost predicate Nice(toks: seq<Token>) {
    forall i :: 0 <= i < |toks| ==> NiceAt(toks, i)
  }

  ghost predicate NiceAt(toks: seq<Token>, i: nat)
    requires i < |toks|
  {
    && Spellable(toks[i])
    && (toks[i].Func? ==> i + 1 < |toks| && toks[i + 1] == LParen)
    && (toks[i].Var? && i + 1 < |toks| ==> toks[i + 1] != LParen)
  }

  lemma NiceJoin(p: seq<Token>, q: seq<Token>)
    requires Nice(p) && Nice(q)
    requires p != [] && q != [] && p[|p| - 1].Var? ==> q[0] != LParen
    ensures Nice(p + q)
  {
    hide Spellable;
    forall i | 0 <= i < |p + q| ensures NiceAt(p + q, i) {
      if i < |p| {
        assert NiceAt(p, i);
      } else {
        assert NiceAt(q, i - |p|);
      }
    }
  }

  /** p, then one operator or separator, then q. */
  lemma NiceAround(p: seq<Token>, t: Token, q: seq<Token>)
    requires Nice(p) && Nice(q) && Spellable(t) && !t.Func? && !t.Var? && t != LParen
    ensures Nice(p + [t] + q)
  {
    hide Spellable;
    NiceJoin(p, [t]);
    NiceJoin(p + [t], q);
  }

  lemma {:induction false} NiceShow(e: Expr, at: nat)
    requires WellFormed(e) && Writable(e)
    ensures Nice(Show(e, at))
    decreases e, 1
  {
    hide Spellable, NiceAt, Bare;
    NiceBare(e);
    NicePunctuation();
    if Level(e) < at {
      NiceJoin([LParen], Bare(e));
      NiceJoin([LParen] + Bare(e), [RParen]);
    }
  }

  lemma NicePunctuation()
    ensures Nice([LParen]) && Nice([RParen])
  {
    Punctuation();
  }

  lemma Punctuation()
    ensures Spellable(Plus) && Spellable(Minus) && Spellable(Mul) && Spellable(Div) && Spellable(Mod)
    ensures Spellable(Assign) && Spellable(Semi) && Spellable(LParen) && Spellable(RParen) && Spellable(Comma)
  {
  }

  lemma WordsSpellable(x: string)
    requires IsName(x)
    ensures Spellable(Var(x)) && (IsFunction(x) ==> Spellable(Func(x)))
  {
    hide IsName, IsFunction;
  }

  lemma {:induction false} NiceBare(e: Expr)
    requires WellFormed(e) && Writable(e)
    ensures Nice(Bare(e))
    decreases e, 0
  {
    hide Spellable, IsName, IsFunction, Show;
    Punctuation();
    match e
    case Lit(text) => assert Spellable(Num(text)) by { LiteralSpellable(text); }
    case Name(x) => WordsSpellable(x);
    case Neg(x) => NiceShow(x, UNARY); NiceJoin([Minus], Show(x, UNARY));
    case Pos(x) => NiceShow(x, UNARY); NiceJoin([Plus], Show(x, UNARY));
    case Sum(op, l, r) =>
      NiceShow(l, ADD);
      NiceShow(r, MUL);
      NiceAround(Show(l, ADD), op, Show(r, MUL));
    case Prod(op, l, r) =>
      NiceShow(l, MUL);
      NiceShow(r, UNARY);
      NiceAround(Show(l, MUL), op, Show(r, UNARY));
    case Call(fn, args) =>
      WordsSpellable(fn);
      NiceArgs(args);
      NiceJoin([Func(fn), LParen], ShowArgs(args));
      NiceJoin([Func(fn), LParen] + ShowArgs(args), [RParen]);
    case Set(x, rhs) =>
      WordsSpellable(x);
      NiceShow(rhs, ASSIGN);
      NiceJoin([Var(x), Assign], Show(rhs, ASSIGN));
    case Update(op, x, rhs) =>
      WordsSpellable(x);
      NiceShow(rhs, ASSIGN);
      NiceJoin([Var(x), op, Assign], Show(rhs, ASSIGN));
  }

  lemma LiteralSpellable(text: string)
    requires IsLiteral(text)
    ensures Spellable(Num(text))
  {
  }

  lemma {:induction false} NiceArgs(es: seq<Expr>)
    requires forall i :: 0 <= i < |es| ==> WellFormed(es[i]) && Writable(es[i])
    ensures Nice(ShowArgs(es))
    decreases es, 3
  {
    hide Spellable, Show, WellFormed, Writable;
    if es != [] {
      NiceShow(es[0], ASSIGN);
      NiceMore(es[1..]);
      NiceJoin(Show(es[0], ASSIGN), ShowMore(es[1..]));
    }
  }

  lemma {:induction false} NiceMore(es: seq<Expr>)
    requires forall i :: 0 <= i < |es| ==> WellFormed(es[i]) && Writable(es[i])
    ensures Nice(ShowMore(es)) && (es != [] ==> ShowMore(es)[0] == Comma)
    decreases es, 2
  {
    hide Spellable, Show, WellFormed, Writable;
    if es != [] {
      Punctuation();
      NiceShow(es[0], ASSIGN);
      NiceMore(es[1..]);
      NiceJoin([Comma], Show(es[0], ASSIGN));
      NiceJoin([Comma] + Show(es[0], ASSIGN), ShowMore(es[1..]));
    }
  }

  lemma {:induction false} NiceProgram(es: seq<Expr>)
    requires forall i :: 0 <= i < |es| ==> WellFormed(es[i]) && Writable(es[i])
    ensures Nice(ShowProgram(es))
  {
    hide Spellable, Show, WellFormed, Writable;
    if es != [] {
      Punctuation();
      NiceShow(es[0], ASSIGN);
      NiceProgram(es[1..]);
      NiceAround(Show(es[0], ASSIGN), Semi, ShowProgram(es[1..]));
    }
  }

  /** One or more blanks. */
  ghost predicate Blanks(g: string) {
    g != "" && forall i :: 0 <= i < |g| ==> IsBlank(g[i])
  }

  lemma {:induction false} BlanksFill(g: string)
    requires forall i :: 0 <= i < |g| ==> IsBlank(g[i])
    ensures Filler(g) && Span(IsBlank, g) == |g|
  {
    if g != "" {
      BlanksFill(g[1..]);
    }
  }

  /** Any printed program with blanks around its tokens is a legal spelling. */
  lemma {:induction false} SpacedIsLegal(toks: seq<Token>, gaps: seq<string>)
    requires Nice(toks) && |gaps| == |toks| + 1
    requires forall i :: 0 <= i < |gaps| ==> Blanks(gaps[i])
    ensures Legal(toks, gaps)
  {
    hide Spellable, Filler, Separated, Spell, Nice, Blanks;
    BlanksAreBlank(gaps[0]);
    if toks != [] {
      var t, rest, more := toks[0], toks[1..], gaps[1..];
      assert forall i :: 0 <= i < |more| ==> more[i] == gaps[i + 1];
      NiceTail(toks);
      SpacedIsLegal(rest, more);
      CallSeen(rest, more);
      BlankSeparates(t, Spell(rest, more));
    }
  }

  lemma BlanksAreBlank(g: string)
    requires Blanks(g)
    ensures Filler(g) && Span(IsBlank, g) == |g| && g != "" && IsBlank(g[0])
  {
    BlanksFill(g);
  }

  lemma NiceTail(toks: seq<Token>)
    requires Nice(toks) && toks != []
    ensures Nice(toks[1..]) && Spellable(toks[0]) && (|toks| > 1 ==> Spellable(toks[1]))
    ensures toks[0].Func? ==> |toks| > 1 && toks[1] == LParen
    ensures toks[0].Var? && |toks| > 1 ==> toks[1] != LParen
  {
    hide Spellable;
    assert NiceAt(toks, 0) && (|toks| > 1 ==> NiceAt(toks, 1));
    forall i | 0 <= i < |toks[1..]| ensures NiceAt(toks[1..], i) {
      assert NiceAt(toks, i + 1);
    }
  }

  lemma TextStart(t: Token)
    requires Spellable(t)
    ensures Text(t) != "" && !IsBlank(Text(t)[0]) && (Text(t)[0] == '(' <==> t == LParen)
  {
    hide IsFunction, NumberLength, Span;
  }

  lemma CallSeen(toks: seq<Token>, gaps: seq<string>)
    requires |gaps| == |toks| + 1 && Blanks(gaps[0]) && (toks != [] ==> Spellable(toks[0]))
    ensures CallFollows(Spell(toks, gaps)) <==> toks != [] && toks[0] == LParen
    ensures Spell(toks, gaps) != "" && IsBlank(Spell(toks, gaps)[0])
  {
    hide Spellable, Filler, Text, Span;
    var g := gaps[0];
    BlanksAreBlank(g);
    if toks != [] {
      TextStart(toks[0]);
      var t, rest := Text(toks[0]), Spell(toks[1..], gaps[1..]);
      assert (t + rest)[0] == t[0];
      SpanAppend(IsBlank, g, t + rest);
      NoSpan(IsBlank, t + rest);
      assert (g + (t + rest))[|g|] == t[0];
    }
  }

  lemma BlankSeparates(t: Token, rest: string)
    requires rest != "" && IsBlank(rest[0])
    requires t.Func? ==> CallFollows(rest)
    requires t.Var? ==> !CallFollows(rest)
    ensures Separated(t, rest)
  {
    hide CallFollows, IsFunction;
  }

  // ------------------------------------------------------------ unset variables

  /** Environments that differ only in which zero variables they list. */
  ghost predicate Alike<F>(a: Arith<F>, p: Env<F>, q: Env<F>) {
    p.seed == q.seed && forall x :: Lookup(a, p.vars, x) == Lookup(a, q.vars, x)
  }

  /** A variable that was never assigned cannot be told from one that holds zero. */
  lemma {:induction false} UnsetIsZero<F>(a: Arith<F>, e: Expr, p: Env<F>, q: Env<F>)
    requires WellFormed(e) && Alike(a, p, q)
    ensures Meaning(a, e, p).1 == Meaning(a, e, q).1
    ensures Alike(a, Meaning(a, e, p).0, Meaning(a, e, q).0)
    decreases e
  {
    match e
    case Lit(_) =>
    case Name(x) =>
      ReadInvisible(a, p, x);
      ReadInvisible(a, q, x);
    case Neg(x) => UnsetIsZero(a, x, p, q);
    case Pos(x) => UnsetIsZero(a, x, p, q);
    case Sum(_, l, r) =>
      UnsetIsZero(a, l, p, q);
      UnsetIsZero(a, r, Meaning(a, l, p).0, Meaning(a, l, q).0);
    case Prod(_, l, r) =>
      UnsetIsZero(a, l, p, q);
      UnsetIsZero(a, r, Meaning(a, l, p).0, Meaning(a, l, q).0);
    case Call(_, args) => UnsetArgs(a, args, p, q);
    case Set(x, rhs) =>
      UnsetIsZero(a, rhs, p, q);
      WriteAlike(a, Meaning(a, rhs, p).0, Meaning(a, rhs, q).0, x, Meaning(a, e, p).1);
    case Update(_, x, rhs) =>
      UnsetIsZero(a, rhs, p, q);
      WriteAlike(a, Meaning(a, rhs, p).0, Meaning(a, rhs, q).0, x, Meaning(a, e, p).1);
  }

  lemma WriteAlike<F>(a: Arith<F>, p: Env<F>, q: Env<F>, x: string, v: F)
    requires Alike(a, p, q)
    ensures Alike(a, p.(vars := p.vars[x := v]), q.(vars := q.vars[x := v]))
  {
    var p', q' := p.(vars := p.vars[x := v]), q.(vars := q.vars[x := v]);
    forall y ensures Lookup(a, p'.vars, y) == Lookup(a, q'.vars, y) {
      assert Lookup(a, p.vars, y) == Lookup(a, q.vars, y);
    }
  }

  lemma ReadInvisible<F>(a: Arith<F>, p: Env<F>, x: string)
    ensures Alike(a, Read(a, p, x), p)
  {
    forall y ensures Lookup(a, Read(a, p, x).vars, y) == Lookup(a, p.vars, y) {}
  }

  lemma {:induction false} UnsetArgs<F>(a: Arith<F>, es: seq<Expr>, p: Env<F>, q: Env<F>)
    requires (forall i :: 0 <= i < |es| ==> WellFormed(es[i])) && Alike(a, p, q)
    ensures Meanings(a, es, p).1 == Meanings(a, es, q).1
    ensures Alike(a, Meanings(a, es, p).0, Meanings(a, es, q).0)
    decreases es
  {
    if es != [] {
      UnsetIsZero(a, es[0], p, q);
      UnsetArgs(a, es[1..], Meaning(a, es[0], p).0, Meaning(a, es[0], q).0);
    }
  }
}

module MilkMachine {
  import opened MilkTokens
  import opened MilkValues
  import opened MilkVars
  import E = MilkEval
  import L = MilkLex

  lemma Inside(toks: seq<Token>, i: nat)
    requires Stream(toks) && i < |toks| && toks[i] != Eof
    ensures i + 1 < |toks| && (toks[i].Var? ==> |toks[i].name| <= NAME_MAX)
  {
  }

  /** The result of updating x by the operator at cur: the right side first, then the variable. */
  ghost function UpdateResult<F>(a: Arith<F>, toks: seq<Token>, cur: nat, depth: nat, env: Env<F>, x: string): E.Outcome<F>
    requires Stream(toks) && cur + 2 < |toks| && toks[cur] in {Plus, Minus, Mul, Div}
  {
    var r := E.EvalAssign(a, toks, cur + 2, depth, env);
    var env' := E.Touch(a, r.env, x);
    var v := E.Updated(a, toks[cur], Lookup(a, env'.vars, x), r.value);
    E.Outcome(r.cur, E.Store(env', x, v), v)
  }

  /** A lexed program, its evaluation state and the variables it works on. */
  class Evaluator<F(0)> {
    const a: Arith<F>
    const toks: seq<Token>
    const vars: VarTable<F>
    var cur: nat
    var depth: nat
    var seed: nat

    ghost predicate Valid()
      reads this, vars, vars.names, vars.values, vars.buckets
    {
      Stream(toks) && cur < |toks| && vars.Valid() && Fitting(vars.keys) && vars.zero == a.Zero()
    }

    ghost function State(): Env<F>
      requires Valid()
      reads this, vars, vars.names, vars.values, vars.buckets
    {
      Env(vars.Contents(), seed)
    }

    /** Takes a lexed program over at the position and depth its lexer stands at. */
    constructor (a: Arith<F>, toks: seq<Token>, vars: VarTable<F>, seed: nat, cur: nat, depth: nat)
      requires Stream(toks) && cur < |toks| && vars.Valid() && Fitting(vars.keys) && vars.zero == a.Zero()
      ensures Valid() && this.cur == cur && this.depth == depth
      ensures this.a == a && this.toks == toks && this.vars == vars && State() == Env(vars.Contents(), seed)
    {
      this.a, this.toks, this.vars, this.seed := a, toks, vars, seed;
      this.cur, this.depth := cur, depth;
    }

    /** Moves on, except at the end marker. */
    method Advance()
      requires Valid()
      modifies this`cur
      ensures Valid() && State() == old(State())
      ensures cur == if toks[old(cur)] == Eof then old(cur) else old(cur) + 1
    {
      if toks[cur] != Eof {
        cur := cur + 1;
      }
    }

    /** Moves past a token if it is the one at cur. */
    method SkipOver(t: Token)
      requires Valid() && t != Eof
      modifies this`cur
      ensures Valid() && State() == old(State()) && cur == E.Skip(toks, old(cur), t)
    {
      hide Evaluator.State, VarTable.Valid, VarTable.Contents, Good, Fitting;
      if toks[cur] == t {
        Advance();
      }
    }

    method Nest(d: nat)
      requires Valid()
      modifies this`depth
      ensures Valid() && State() == old(State()) && depth == d
    {
      depth := d;
    }

    method Rewind(save: nat)
      requires Valid() && save < |toks|
      modifies this`cur
      ensures Valid() && State() == old(State()) && cur == save
    {
      cur := save;
    }

    method Read(x: string) returns (v: F)
      requires Valid() && |x| <= NAME_MAX
      modifies vars, vars.names, vars.values, vars.buckets
      ensures Valid() && State() == E.Touch(a, old(State()), x) && v == Lookup(a, State().vars, x)
    {
      v := vars.Read(x);
    }

    method Write(x: string, v: F)
      requires Valid() && |x| <= NAME_MAX
      modifies vars, vars.names, vars.values, vars.buckets
      ensures Valid() && State() == E.Store(old(State()), x, v)
    {
      vars.Set(x, v);
    }

    /** Reads the variable only now, after the right side. */
    method ApplyUpdate(op: Token, x: string, rhs: F) returns (v: F)
      requires Valid() && |x| <= NAME_MAX && op in {Plus, Minus, Mul, Div}
      modifies vars, vars.names, vars.values, vars.buckets
      ensures Valid()
      ensures
        var env := E.Touch(a, old(State()), x);
        v == E.Updated(a, op, Lookup(a, env.vars, x), rhs) && State() == E.Store(env, x, v)
    {
      hide VarTable.Valid, VarTable.Contents, Good, Fitting, Touched, Stored, Lookup;
      var current := Read(x);
      v := E.Updated(a, op, current, rhs);
      Write(x, v);
    }

    /** At the `=` of an assignment to x. */
    method AssignTo(x: string) returns (v: F)
      requires Valid() && |x| <= NAME_MAX && toks[cur] == Assign
      modifies this`cur, this`depth, this`seed, vars, vars.names, vars.values, vars.buckets
      ensures Valid() && depth == old(depth)
      ensures
        var r := old(E.EvalAssign(a, toks, cur + 1, depth, State()));
        E.Outcome(cur, State(), v) == r.(env := E.Store(r.env, x, r.value))
      decreases |toks| - cur, 4
    {
      hide Evaluator.State, Stream, VarTable.Valid, VarTable.Contents, Good, Fitting, Touched, Stored, Lookup, E.EvalAssign, E.EvalAdd, E.AddLoop, E.EvalMul, E.MulLoop, E.EvalUnary, E.EvalPrimary, E.EvalArgs, E.ArgLoop, E.Updated, E.Store, E.Touch;
      Advance();
      v := EvalAssign();
      Write(x, v);
    }

    /** At the operator of an update of x; the variable is read only after the right side. */
    method UpdateTo(x: string) returns (v: F)
      requires Valid() && |x| <= NAME_MAX && E.IsUpdate(toks, cur)
      modifies this`cur, this`depth, this`seed, vars, vars.names, vars.values, vars.buckets
      ensures Valid() && depth == old(depth)
      ensures
        && old(cur) + 2 < |toks|
        && E.Outcome(cur, State(), v) == UpdateResult(a, toks, old(cur), old(depth), old(State()), x)
      decreases |toks| - cur, 4
    {
      hide Evaluator.State, Stream, VarTable.Valid, VarTable.Contents, Good, Fitting, Touched, Stored, Lookup, E.EvalAssign, E.EvalAdd, E.AddLoop, E.EvalMul, E.MulLoop, E.EvalUnary, E.EvalPrimary, E.EvalArgs, E.ArgLoop, E.Updated, E.Store, E.Touch;
      var op := toks[cur];
      Inside(toks, cur + 1);
      Advance();
      Advance();
      var rhs := EvalAssign();
      v := ApplyUpdate(op, x, rhs);
    }

    method EvalAssign() returns (v: F)
      requires Valid()
      modifies this`cur, this`depth, this`seed, vars, vars.names, vars.values, vars.buckets
      ensures Valid() && depth == old(depth)
      ensures E.Outcome(cur, State(), v) == old(E.EvalAssign(a, toks, cur, depth, State()))
      decreases |toks| - cur, 5
    {
      hide Evaluator.State, Stream, VarTable.Valid, VarTable.Contents, Good, Fitting, Touched, Stored, Lookup, E.EvalAdd, E.AddLoop, E.EvalMul, E.MulLoop, E.EvalUnary, E.EvalPrimary, E.EvalArgs, E.ArgLoop, E.Updated, E.Store, E.Touch;
      if toks[cur].Var? {
        Inside(toks, cur);
        var save, x := cur, toks[cur].name;
        Advance();
        if toks[cur] == Assign {
          v := AssignTo(x);
          return;
        }
        if E.IsUpdate(toks, cur) {
          v := UpdateTo(x);
          return;
        }
        Rewind(save);
      }
      v := EvalAdd();
    }

    method EvalAdd() returns (v: F)
      requires Valid()
      modifies this`cur, this`depth, this`seed, vars, vars.names, vars.values, vars.buckets
      ensures Valid() && depth == old(depth)
      ensures E.Outcome(cur, State(), v) == old(E.EvalAdd(a, toks, cur, depth, State()))
      decreases |toks| - cur, 4
    {
      hide Evaluator.State, Stream, VarTable.Valid, VarTable.Contents, Good, Fitting, Touched, Stored, Lookup, E.EvalAssign, E.EvalMul, E.MulLoop, E.EvalUnary, E.EvalPrimary, E.EvalArgs, E.ArgLoop;
      v := EvalMul();
      while toks[cur] == Plus || toks[cur] == Minus
        invariant Valid() && depth == old(depth) && old(cur) <= cur
        invariant E.AddLoop(a, toks, cur, depth, State(), v) == old(E.EvalAdd(a, toks, cur, depth, State()))
        decreases |toks| - cur
      {
        var op := toks[cur];
        Advance();
        var r := EvalMul();
        v := if op == Plus then a.add(v, r) else a.sub(v, r);
      }
    }

    method EvalMul() returns (v: F)
      requires Valid()
      modifies this`cur, this`depth, this`seed, vars, vars.names, vars.values, vars.buckets
      ensures Valid() && depth == old(depth)
      ensures E.Outcome(cur, State(), v) == old(E.EvalMul(a, toks, cur, depth, State()))
      decreases |toks| - cur, 3
    {
      hide Evaluator.State, Stream, VarTable.Valid, VarTable.Contents, Good, Fitting, Touched, Stored, Lookup, E.EvalAssign, E.EvalAdd, E.AddLoop, E.EvalUnary, E.EvalPrimary, E.EvalArgs, E.ArgLoop, E.Product;
      v := EvalUnary();
      while toks[cur] in {Mul, Div, Mod}
        invariant Valid() && depth == old(depth) && old(cur) <= cur
        invariant E.MulLoop(a, toks, cur, depth, State(), v) == old(E.EvalMul(a, toks, cur, depth, State()))
        decreases |toks| - cur
      {
        var op := toks[cur];
        Advance();
        var r := EvalUnary();
        v := E.Product(a, op, v, r);
      }
    }

    method EvalUnary() returns (v: F)
      requires Valid()
      modifies this`cur, this`depth, this`seed, vars, vars.names, vars.values, vars.buckets
      ensures Valid() && depth == old(depth)
      ensures E.Outcome(cur, State(), v) == old(E.EvalUnary(a, toks, cur, depth, State()))
      decreases |toks| - cur, 2
    {
      hide Evaluator.State, Stream, VarTable.Valid, VarTable.Contents, Good, Fitting, Touched, Stored, Lookup, E.EvalAssign, E.EvalAdd, E.AddLoop, E.EvalMul, E.MulLoop, E.EvalPrimary, E.EvalArgs, E.ArgLoop;
      if toks[cur] == Minus {
        Advance();
        v := EvalUnary();
        v := a.neg(v);
      } else if toks[cur] == Plus {
        Advance();
        v := EvalUnary();
      } else {
        v := EvalPrimary();
      }
    }

    method EvalPrimary() returns (v: F)
      requires Valid()
      modifies this`cur, this`depth, this`seed, vars, vars.names, vars.values, vars.buckets
      ensures Valid() && depth == old(depth)
      ensures E.Outcome(cur, State(), v) == old(E.EvalPrimary(a, toks, cur, depth, State()))
      decreases |toks| - cur, 1
    {
      hide Evaluator.State, Stream, VarTable.Valid, VarTable.Contents, Good, Fitting, Touched, Stored, Lookup, E.EvalAssign, E.EvalAdd, E.AddLoop, E.EvalMul, E.MulLoop, E.EvalUnary, E.EvalArgs, E.ArgLoop, E.CallResult, E.Touch;
      if depth >= MAX_DEPTH {
        return a.Zero();
      }
      Nest(depth + 1);
      if toks[cur] == LParen {
        v := EvalParen();
      } else if toks[cur].Func? {
        v := EvalCall(toks[cur].fn);
      } else {
        v := EvalLeaf();
      }
      Nest(depth - 1);
    }

    /** A number, a variable, or a token no expression starts with, which is skipped. */
    method EvalLeaf() returns (v: F)
      requires Valid() && toks[cur] != LParen && !toks[cur].Func?
      modifies this`cur, vars, vars.names, vars.values, vars.buckets
      ensures Valid()
      ensures E.Outcome(cur, State(), v) == old(E.EvalPrimary(a, toks, cur, 0, State()))
    {
      hide Evaluator.State, Stream, VarTable.Valid, VarTable.Contents, Good, Fitting, Touched, Stored, Lookup, E.EvalAssign, E.EvalArgs, E.CallResult, E.Touch;
      var t := toks[cur];
      if t != Eof {
        Inside(toks, cur);
      }
      v := a.Zero();
      Advance();
      if t.Num? {
        v := a.literal(t.text);
      } else if t.Var? {
        v := Read(t.name);
      }
    }

    /** An opening parenthesis at cur; the closing one may be missing. */
    method EvalParen() returns (v: F)
      requires Valid() && toks[cur] == LParen
      modifies this`cur, this`depth, this`seed, vars, vars.names, vars.values, vars.buckets
      ensures Valid() && depth == old(depth)
      ensures
        var r := old(E.EvalAssign(a, toks, cur + 1, depth, State()));
        E.Outcome(cur, State(), v) == r.(cur := E.Skip(toks, r.cur, RParen))
      decreases |toks| - cur, 0
    {
      hide Evaluator.State, Stream, VarTable.Valid, VarTable.Contents, Good, Fitting, E.EvalAssign;
      Advance();
      v := EvalAssign();
      SkipOver(RParen);
    }

    /** A function token at cur; the depth is already that of the call. */
    method EvalCall(fn: string) returns (v: F)
      requires Valid() && toks[cur] == Func(fn)
      modifies this`cur, this`depth, this`seed, vars, vars.names, vars.values, vars.buckets
      ensures Valid() && depth == old(depth)
      ensures
        var open := E.Skip(toks, old(cur) + 1, LParen);
        var (close, env, args) := old(E.EvalArgs(a, toks, open, depth, State()));
        E.Outcome(cur, State(), v) == E.CallResult(a, fn, args, E.Skip(toks, close, RParen), env)
      decreases |toks| - cur, 0
    {
      hide Evaluator.State, Stream, VarTable.Valid, VarTable.Contents, Good, Fitting, Touched, Stored, Lookup, E.EvalAssign, E.EvalAdd, E.AddLoop, E.EvalMul, E.MulLoop, E.EvalUnary, E.EvalPrimary, E.EvalArgs, E.ArgLoop, E.CallResult;
      Advance();
      SkipOver(LParen);
      var args := EvalArgs();
      SkipOver(RParen);
      v := Invoke(fn, args);
    }

    method Invoke(fn: string, args: seq<F>) returns (v: F)
      requires Valid()
      modifies this`seed
      ensures Valid()
      ensures E.Outcome(cur, State(), v) == E.CallResult(a, fn, args, cur, old(State()))
    {
      hide Stream, VarTable.Valid, VarTable.Contents, Good, Fitting, Arith.Apply;
      var x := if |args| > 0 then args[0] else a.Zero();
      var y := if |args| > 1 then args[1] else a.Zero();
      var z := if |args| > 2 then args[2] else a.Zero();
      v := a.Apply(fn, x, y, z, seed);
      if fn == "rand" {
        seed := seed + 1;
      }
    }

    method EvalArgs() returns (args: seq<F>)
      requires Valid()
      modifies this`cur, this`depth, this`seed, vars, vars.names, vars.values, vars.buckets
      ensures Valid() && depth == old(depth)
      ensures (cur, State(), args) == old(E.EvalArgs(a, toks, cur, depth, State()))
      decreases |toks| - cur, 7
    {
      hide Evaluator.State, Stream, VarTable.Valid, VarTable.Contents, Good, Fitting, Touched, Stored, Lookup, E.EvalAssign, E.EvalAdd, E.AddLoop, E.EvalMul, E.MulLoop, E.EvalUnary, E.EvalPrimary;
      args := [];
      if toks[cur] != RParen {
        var v := EvalAssign();
        args := [v];
        while toks[cur] == Comma && |args| < 8
          invariant Valid() && depth == old(depth) && old(cur) <= cur && |args| <= 8
          invariant E.ArgLoop(a, toks, cur, depth, State(), args) == old(E.EvalArgs(a, toks, cur, depth, State()))
          decreases |toks| - cur
        {
          Advance();
          v := EvalAssign();
          args := args + [v];
        }
      }
    }

    /** Statements until the end marker.  Terminates on every token stream. */
    method EvalProgram() returns (v: F)
      requires Valid() && depth == 0
      modifies this`cur, this`depth, this`seed, vars, vars.names, vars.values, vars.buckets
      ensures Valid() && depth == 0
      ensures E.Outcome(cur, State(), v) == old(E.EvalProgram(a, toks, cur, State(), a.Zero()))
    {
      hide Evaluator.State, VarTable.Valid, VarTable.Contents, Good, Fitting, Touched, Stored, Lookup, E.EvalAssign, E.EvalAdd, E.AddLoop, E.EvalMul, E.MulLoop, E.EvalUnary, E.EvalPrimary, E.EvalArgs, E.ArgLoop;
      v := a.Zero();
      while toks[cur] != Eof
        invariant Valid() && depth == 0
        invariant E.EvalProgram(a, toks, cur, State(), v) == old(E.EvalProgram(a, toks, cur, State(), a.Zero()))
        decreases |toks| - cur
      {
        v := EvalAssign();
        SkipOver(Semi);
      }
    }
  }

  /** Evaluates a lexed text on some variables.  Wherever earlier evaluations, of other variables perhaps, have left the
      lexer's position and depth, the outcome is that of the text's tokens from the start, and the tokens stay. */
  method Replay<F(0)>(lexer: L.Lexer, ghost src: string, a: Arith<F>, vars: VarTable<F>, seed: nat) returns (v: F, draws: nat)
    requires lexer.Holds(src) && vars.Valid() && Fitting(vars.keys) && vars.zero == a.Zero()
    requires lexer.tokens as object != vars.values as object
    modifies lexer`cur, lexer`depth, vars, vars.names, vars.values, vars.buckets
    ensures lexer.Holds(src) && vars.Valid() && Fitting(vars.keys)
    ensures Evaluates(a, src, old(Env(vars.Contents(), seed)), Env(vars.Contents(), draws), v)
    ensures lexer.count > 0 ==> lexer.cur == lexer.count && lexer.depth == 0
  {
    hide L.Lex, VarTable.Valid, VarTable.Contents, Good, Fitting, Stream, E.EvalProgram;
    L.LexIsStream(src);
    if lexer.count == 0 {
      NoStatements(a, lexer.tokens[..lexer.count + 1], Env(vars.Contents(), seed));
      return a.Zero(), seed;
    }
    lexer.cur, lexer.depth := 0, 0;
    v, draws, lexer.cur, lexer.depth := Continue(a, lexer.tokens[..lexer.count + 1], vars, seed, lexer.cur, lexer.depth);
  }

  /** Evaluates a token stream from a position on, at depth 0, and says where it stops. */
  method Continue<F(0)>(a: Arith<F>, toks: seq<Token>, vars: VarTable<F>, seed: nat, from: nat, depth: nat)
    returns (v: F, draws: nat, cur: nat, left: nat)
    requires Stream(toks) && from < |toks| && depth == 0
    requires vars.Valid() && Fitting(vars.keys) && vars.zero == a.Zero()
    modifies vars, vars.names, vars.values, vars.buckets
    ensures vars.Valid() && Fitting(vars.keys) && left == 0
    ensures E.Outcome(cur, Env(vars.Contents(), draws), v) == E.EvalProgram(a, toks, from, old(Env(vars.Contents(), seed)), a.Zero())
  {
    hide VarTable.Valid, VarTable.Contents, Good, Fitting, Stream, E.EvalProgram;
    var evaluator := new Evaluator(a, toks, vars, seed, from, depth);
    v := evaluator.EvalProgram();
    draws, cur, left := evaluator.seed, evaluator.cur, evaluator.depth;
  }

  lemma NoStatements<F>(a: Arith<F>, toks: seq<Token>, env: Env<F>)
    requires Stream(toks) && |toks| == 1
    ensures E.EvalProgram(a, toks, 0, env, a.Zero()) == E.Outcome(0, env, a.Zero())
  {
  }

  /** The outcome of evaluating a text: the value, the variables and the random draws used. */
  ghost predicate Evaluates<F>(a: Arith<F>, src: string, before: Env<F>, after: Env<F>, v: F) {
    var toks := L.Lex(src, MAX_TOKENS - 1) + [Eof];
    Stream(toks) && E.EvalProgram(a, toks, 0, before, a.Zero()) == E.Outcome(|toks| - 1, after, v)
  }

  /** Lexes a text afresh and evaluates it. */
  method Run<F(0)>(a: Arith<F>, src: string, vars: VarTable<F>, seed: nat) returns (v: F, draws: nat)
    requires vars.Valid() && Fitting(vars.keys) && vars.zero == a.Zero()
    modifies vars, vars.names, vars.values, vars.buckets
    ensures vars.Valid() && Fitting(vars.keys)
    ensures Evaluates(a, src, old(Env(vars.Contents(), seed)), Env(vars.Contents(), draws), v)
  {
    hide L.Lex, VarTable.Valid, VarTable.Contents, Good, Fitting, Evaluates;
    var lexer := new L.Lexer();
    lexer.Run(src);
    v, draws := Replay(lexer, src, a, vars, seed);
  }

  /** A text has one outcome, so a replay and a fresh run from equal variables and draws agree. */
  lemma OneOutcome<F>(a: Arith<F>, src: string, before: Env<F>, after: Env<F>, v: F, after': Env<F>, v': F)
    requires Evaluates(a, src, before, after, v) && Evaluates(a, src, before, after', v')
    ensures after == after' && v == v'
  {
  }

  /** Replaying on a used lexer gives what lexing the text again gives, variable for variable. */
  method ReplayAgrees<F(0)>(lexer: L.Lexer, src: string, a: Arith<F>, vars: VarTable<F>, other: VarTable<F>, seed: nat)
    returns (v: F, w: F)
    requires lexer.Holds(src) && vars.Valid() && other.Valid() && Fitting(vars.keys) && Fitting(other.keys)
    requires vars.zero == other.zero == a.Zero() && vars.Contents() == other.Contents()
    requires lexer.tokens as object != vars.values as object
    requires {vars, vars.names, vars.values, vars.buckets, lexer, lexer.tokens} !! {other, other.names, other.values, other.buckets}
    modifies lexer`cur, lexer`depth, vars, vars.names, vars.values, vars.buckets
    modifies other, other.names, other.values, other.buckets
    ensures vars.Valid() && other.Valid() && v == w && vars.Contents() == other.Contents()
  {
    hide L.Lex, VarTable.Valid, VarTable.Contents, Good, Fitting, Evaluates, L.Lexer.Holds;
    ghost var before := Env(vars.Contents(), seed);
    var draws, draws';
    v, draws := Replay(lexer, src, a, vars, seed);
    w, draws' := Run(a, src, other, seed);
    OneOutcome(a, src, before, Env(vars.Contents(), draws), v, Env(other.Contents(), draws'), w);
  }
}
