/**
 The MilkDrop lexer: what it makes of every string, and that it reads back any legal
 spelling of a token sequence.
 */
module MilkLex {
  import opened MilkTokens

  /** The names the lexer takes for functions when a parenthesis follows. */
  predicate IsFunction(name: string) {
    name in ["sin", "cos", "tan", "asin", "acos", "atan", "atan2",
             "pow", "log", "log10", "sqrt", "abs", "min", "max",
             "sign", "sqr", "if", "above", "below", "equal",
             "bnot", "band", "bor", "rand", "floor", "ceil",
             "int", "sigmoid", "avg", "exp", "fmod"]
  }

  predicate IsBlank(c: char) { c == ' ' || c == '\t' }
  predicate IsSpace(c: char) { IsBlank(c) || c == '\r' || c == '\n' }
  predicate IsDigit(c: char) { '0' <= c <= '9' }
  predicate IsNumChar(c: char) { IsDigit(c) || c == '.' }
  predicate IsAlpha(c: char) { 'a' <= c <= 'z' || 'A' <= c <= 'Z' || c == '_' }
  predicate IsNameChar(c: char) { IsAlpha(c) || IsDigit(c) }
  predicate IsExp(c: char) { c == 'e' || c == 'E' }
  predicate IsSign(c: char) { c == '+' || c == '-' }
  predicate InLine(c: char) { c != '\n' }

  /** The character classes, letters by their ASCII codes. */
  lemma CharacterClasses(c: char)
    ensures IsBlank(c) <==> c in " \t"
    ensures IsSpace(c) <==> c in " \t\r\n"
    ensures IsDigit(c) <==> c in "0123456789"
    ensures IsNumChar(c) <==> c in ".0123456789"
    ensures IsAlpha(c) <==> c == '_' || 65 <= c as int <= 90 || 97 <= c as int <= 122
    ensures IsNameChar(c) <==> IsAlpha(c) || IsDigit(c)
    ensures IsExp(c) <==> c in "eE"
    ensures IsSign(c) <==> c in "+-"
  {
  }

  /** Length of the longest prefix of s whose characters all satisfy p. */
  function Span(p: char -> bool, s: string): (n: nat)
    ensures n <= |s|
    ensures forall i :: 0 <= i < n ==> p(s[i])
    ensures n < |s| ==> !p(s[n])
  {
    if s == "" || !p(s[0]) then 0 else 1 + Span(p, s[1..])
  }

  function Symbol(c: char): Token {
    match c
    case '+' => Plus
    case '-' => Minus
    case '*' => Mul
    case '/' => Div
    case '%' => Mod
    case '=' => Assign
    case ';' => Semi
    case '(' => LParen
    case ')' => RParen
    case ',' => Comma
    case _ => Eof
  }

  predicate StartsNumber(s: string) {
    |s| > 0 && (IsDigit(s[0]) || (s[0] == '.' && |s| > 1 && IsDigit(s[1])))
  }

  predicate StartsName(s: string) {
    |s| > 0 && IsAlpha(s[0])
  }

  predicate StartsComment(s: string) {
    |s| > 1 && s[0] == '/' && s[1] == '/'
  }

  /** Where the exponent's digits start, when s[k] is the exponent letter. */
  function ExponentStart(s: string, k: nat): (n: nat)
    requires k < |s|
    ensures k < n <= |s|
  {
    if k + 1 < |s| && IsSign(s[k + 1]) then k + 2 else k + 1
  }

  /** Digits and points, then optionally an exponent. */
  function NumberLength(s: string): (n: nat)
    ensures n <= |s|
    ensures StartsNumber(s) ==> n > 0
  {
    var k := Span(IsNumChar, s);
    if k < |s| && IsExp(s[k]) then
      var d := ExponentStart(s, k);
      d + Span(IsDigit, s[d..])
    else k
  }

  /** An opening parenthesis follows, after blanks only. */
  predicate CallFollows(rest: string) {
    var k := Span(IsBlank, rest); k < |rest| && rest[k] == '('
  }

  function Word(name: string, rest: string): Token {
    if CallFollows(rest) && IsFunction(name) then Func(name) else Var(name)
  }

  /** What the lexer does at the start of s: the token read, if any, and the text consumed. */
  function Next(s: string): (r: (seq<Token>, nat))
    requires s != ""
    ensures |r.0| <= 1 && 0 < r.1 <= |s|
    ensures r.0 != [] ==> r.0[0] != Eof && (r.0[0].Var? ==> |r.0[0].name| <= NAME_MAX)
  {
    if IsSpace(s[0]) then ([], 1)
    else if StartsComment(s) then ([], Span(InLine, s))
    else if StartsNumber(s) then
      var n := NumberLength(s);
      ([Num(Cut(s[..n]))], n)
    else if StartsName(s) then
      var n := Span(IsNameChar, s);
      ([Word(Cut(s[..n]), s[n..])], n)
    else if Symbol(s[0]) != Eof then ([Symbol(s[0])], 1)
    else ([], 1)
  }

  /** The tokens of s, at most `room` of them. */
  function Lex(s: string, room: nat): (toks: seq<Token>)
    ensures |toks| <= room
    ensures forall i :: 0 <= i < |toks| ==> toks[i] != Eof && (toks[i].Var? ==> |toks[i].name| <= NAME_MAX)
    decreases |s|
  {
    if s == "" || room == 0 then []
    else
      var (t, n) := Next(s);
      t + Lex(s[n..], room - |t|)
  }

  /** A lexed string with its end marker is a stream the evaluator accepts. */
  lemma LexIsStream(s: string)
    ensures Stream(Lex(s, MAX_TOKENS - 1) + [Eof])
  {
  }

  // ------------------------------------------------------------ spelling

  function Text(t: Token): string {
    match t
    case Num(text) => text
    case Var(name) => name
    case Func(fn) => fn
    case Plus => "+"
    case Minus => "-"
    case Mul => "*"
    case Div => "/"
    case Mod => "%"
    case Assign => "="
    case Semi => ";"
    case LParen => "("
    case RParen => ")"
    case Comma => ","
    case Eof => ""
  }

  predicate IsLiteral(s: string) {
    |s| <= NAME_MAX && StartsNumber(s) && NumberLength(s) == |s|
  }

  predicate IsName(s: string) {
    |s| <= NAME_MAX && StartsName(s) && Span(IsNameChar, s) == |s|
  }

  predicate Spellable(t: Token) {
    match t
    case Num(text) => IsLiteral(text)
    case Var(name) => IsName(name)
    case Func(fn) => IsName(fn) && IsFunction(fn)
    case Eof => false
    case _ => true
  }

  /** White space and comments, any number of either. */
  predicate Filler(g: string)
    decreases |g|
  {
    || g == ""
    || (IsSpace(g[0]) && Filler(g[1..]))
    || (StartsComment(g) && Span(InLine, g) < |g| && Filler(g[Span(InLine, g)..]))
  }

  /** The text after t does not extend it, and is a call's parenthesis exactly if t is a function. */
  predicate Separated(t: Token, rest: string) {
    match t
    case Num(text) =>
      rest != "" && |text| > 0 ==>
        && !IsNumChar(rest[0]) && !IsExp(rest[0])
        && (IsSign(rest[0]) ==> !IsExp(text[|text| - 1]))
    case Var(name) =>
      && (rest != "" ==> !IsNameChar(rest[0]))
      && (IsFunction(name) ==> !CallFollows(rest))
    case Func(_) => (rest != "" ==> !IsNameChar(rest[0])) && CallFollows(rest)
    case Div => rest != "" ==> rest[0] != '/'
    case _ => true
  }

  /** The tokens' texts with the given gaps before, between and after them. */
  function Spell(toks: seq<Token>, gaps: seq<string>): string
    requires |gaps| == |toks| + 1
  {
    if toks == [] then gaps[0]
    else gaps[0] + (Text(toks[0]) + Spell(toks[1..], gaps[1..]))
  }

  predicate Legal(toks: seq<Token>, gaps: seq<string>)
    requires |gaps| == |toks| + 1
  {
    && Filler(gaps[0])
    && (toks != [] ==>
          && Spellable(toks[0])
          && Separated(toks[0], Spell(toks[1..], gaps[1..]))
          && Legal(toks[1..], gaps[1..]))
  }

  lemma {:induction false} SpanAppend(p: char -> bool, x: string, y: string)
    ensures Span(p, x + y) == if Span(p, x) < |x| then Span(p, x) else |x| + Span(p, y)
  {
    if x == "" {
      assert x + y == y;
    } else if p(x[0]) {
      SpanAppend(p, x[1..], y);
      assert (x + y)[1..] == x[1..] + y;
    }
  }

  lemma {:induction false} FillerSkipped(g: string, s: string, room: nat)
    requires Filler(g)
    ensures Lex(g + s, room) == Lex(s, room)
    decreases |g|
  {
    hide IsFunction, Lex, NumberLength, Cut, Word, Symbol;
    if g == "" {
      assert g + s == s;
    } else if room > 0 {
      var n := if IsSpace(g[0]) then 1 else Span(InLine, g);
      SpanAppend(InLine, g, s);
      assert Next(g + s) == ([], n);
      FillerSkipped(g[n..], s, room);
      assert (g + s)[n..] == g[n..] + s;
      SkippedLex(g + s, n, room);
    }
  }

  lemma SkippedLex(s: string, n: nat, room: nat)
    requires s != "" && room > 0 && Next(s) == ([], n)
    ensures Lex(s, room) == Lex(s[n..], room)
  {
    hide Next;
  }

  lemma LiteralEnds(text: string, rest: string)
    requires IsLiteral(text) && Separated(Num(text), rest)
    ensures NumberLength(text + rest) == |text|
  {
    hide Span, IsDigit;
    var k, s := Span(IsNumChar, text), text + rest;
    SpanAppend(IsNumChar, text, rest);
    if k < |text| {
      var d := ExponentStart(text, k);
      assert s[k] == text[k] && IsExp(text[k]);
      SameExponent(text, rest, k);
      assert s[d..] == text[d..] + rest;
      SpanAppend(IsDigit, text[d..], rest);
      NoSpan(IsDigit, rest);
    } else {
      NoSpan(IsNumChar, rest);
    }
  }

  lemma NoSpan(p: char -> bool, s: string)
    requires s != "" ==> !p(s[0])
    ensures Span(p, s) == 0
  {
  }

  lemma SameExponent(text: string, rest: string, k: nat)
    requires k < |text| && IsExp(text[k])
    requires rest != "" && IsSign(rest[0]) ==> !IsExp(text[|text| - 1])
    ensures ExponentStart(text + rest, k) == ExponentStart(text, k)
  {
    var s := text + rest;
    if k + 1 < |text| {
      assert s[k + 1] == text[k + 1];
    } else if rest != "" {
      assert s[k + 1] == rest[0];
    }
  }

  /** The lexer reads one token and goes on behind it. */
  lemma OneToken(t: Token, rest: string, room: nat)
    requires Spellable(t) && Separated(t, rest) && room > 0
    ensures Lex(Text(t) + rest, room) == [t] + Lex(rest, room - 1)
  {
    hide IsFunction, Lex, NumberLength, Span, CallFollows;
    var x := Text(t);
    var s := x + rest;
    assert s[..|x|] == x && s[|x|..] == rest;
    assert s[0] == x[0];
    match t {
      case Num(text) => LiteralEnds(text, rest);
      case Var(name) => SpanAppend(IsNameChar, name, rest);
      case Func(fn) => SpanAppend(IsNameChar, fn, rest);
      case _ =>
    }
    assert Next(s) == ([t], |x|);
    ReadLex(s, t, |x|, room);
  }

  lemma ReadLex(s: string, t: Token, n: nat, room: nat)
    requires s != "" && room > 0 && Next(s) == ([t], n)
    ensures Lex(s, room) == [t] + Lex(s[n..], room - 1)
  {
    hide Next;
  }

  /** Reading back: every legal spelling lexes to the tokens it spells. */
  lemma {:induction false} LexSpell(toks: seq<Token>, gaps: seq<string>, room: nat)
    requires |gaps| == |toks| + 1 && Legal(toks, gaps) && |toks| <= room
    ensures Lex(Spell(toks, gaps), room) == toks
  {
    hide Lex, Spellable, Separated, Filler, Text, Spell, Legal;
    Unfolded(toks, gaps);
    if toks == [] {
      FillerSkipped(gaps[0], "", room);
      LexDone("", room);
      assert gaps[0] + "" == gaps[0];
    } else {
      var t, rest := toks[0], Spell(toks[1..], gaps[1..]);
      FillerSkipped(gaps[0], Text(t) + rest, room);
      OneToken(t, rest, room);
      LexSpell(toks[1..], gaps[1..], room - 1);
      assert [t] + toks[1..] == toks;
    }
  }

  lemma Unfolded(toks: seq<Token>, gaps: seq<string>)
    requires |gaps| == |toks| + 1 && Legal(toks, gaps)
    ensures Filler(gaps[0])
    ensures toks == [] ==> Spell(toks, gaps) == gaps[0]
    ensures toks != [] ==>
              var rest := Spell(toks[1..], gaps[1..]);
              && Spellable(toks[0]) && Separated(toks[0], rest) && Legal(toks[1..], gaps[1..])
              && Spell(toks, gaps) == gaps[0] + (Text(toks[0]) + rest)
  {
    hide Spellable, Separated, Filler, Text;
  }

  // ------------------------------------------------------------ the lexer itself

  /** The token buffer with its position and the evaluator's nesting depth. */
  class Lexer {
    const tokens: array<Token>
    var count: nat
    var cur: nat
    var depth: nat

    /** The buffer holds the tokens of src and the end marker. */
    ghost predicate Holds(src: string)
      reads this, tokens
    {
      tokens.Length == MAX_TOKENS && count < MAX_TOKENS && tokens[..count + 1] == Lex(src, MAX_TOKENS - 1) + [Eof]
    }

    constructor ()
      ensures tokens.Length == MAX_TOKENS && fresh(tokens) && count == cur == depth == 0
    {
      tokens := new Token[MAX_TOKENS](i => Eof);
      count, cur, depth := 0, 0, 0;
    }

    /** Lexes src into the buffer, with the end marker after the last token. */
    method Run(src: string)
      requires tokens.Length == MAX_TOKENS
      modifies this`count, this`cur, tokens
      ensures cur == 0 && Holds(src)
    {
      hide Next, Lex;
      count, cur := 0, 0;
      var pos := 0;
      assert src[0..] == src;
      while pos < |src| && count < MAX_TOKENS - 1
        invariant pos <= |src| && count <= MAX_TOKENS - 1 && cur == 0
        invariant tokens[..count] + Lex(src[pos..], MAX_TOKENS - 1 - count) == Lex(src, MAX_TOKENS - 1)
        decreases |src| - pos
      {
        ghost var before := tokens[..count];
        var t, end := ReadToken(src, pos);
        LexStep(before, src, pos, MAX_TOKENS - 1 - count, t, end);
        if t != [] {
          tokens[count] := t[0];
          count := count + 1;
        }
        assert tokens[..count] == before + t;
        pos := end;
      }
      LexDone(src[pos..], MAX_TOKENS - 1 - count);
      assert tokens[..count] + [] == tokens[..count];
      tokens[count] := Eof;
    }
  }

  lemma LexDone(s: string, room: nat)
    requires s == "" || room == 0
    ensures Lex(s, room) == []
  {
  }

  lemma LexStep(before: seq<Token>, src: string, pos: nat, room: nat, t: seq<Token>, end: nat)
    requires pos < end <= |src| && room > 0 && (t, end - pos) == Next(src[pos..])
    ensures (before + t) + Lex(src[end..], room - |t|) == before + Lex(src[pos..], room)
  {
    hide Next, Lex;
    assert src[pos..][end - pos..] == src[end..];
    LexNext(src[pos..], room);
    Regrouped(before, t, Lex(src[end..], room - |t|));
  }

  lemma LexNext(s: string, room: nat)
    requires s != "" && room > 0
    ensures var (t, n) := Next(s); Lex(s, room) == t + Lex(s[n..], room - |t|)
  {
    hide Next;
  }

  lemma Regrouped(a: seq<Token>, b: seq<Token>, c: seq<Token>)
    ensures (a + b) + c == a + (b + c)
  {
  }

  /** Advances over the characters that satisfy p. */
  method Scan(src: string, start: nat, p: char -> bool) returns (pos: nat)
    requires start <= |src|
    ensures pos == start + Span(p, src[start..])
  {
    pos := start;
    while pos < |src| && p(src[pos])
      invariant start <= pos <= |src|
      invariant start + Span(p, src[start..]) == pos + Span(p, src[pos..])
    {
      assert src[pos..][1..] == src[pos + 1..];
      pos := pos + 1;
    }
  }

  method ScanNumber(src: string, start: nat) returns (pos: nat)
    requires start <= |src|
    ensures pos == start + NumberLength(src[start..])
  {
    pos := Scan(src, start, IsNumChar);
    if pos < |src| && IsExp(src[pos]) {
      pos := pos + 1;
      if pos < |src| && IsSign(src[pos]) {
        pos := pos + 1;
      }
      assert src[start..][pos - start..] == src[pos..];
      pos := Scan(src, pos, IsDigit);
    }
  }

  method ReadWord(src: string, pos: nat) returns (t: Token, end: nat)
    requires pos <= |src|
    ensures end <= |src|
    ensures var s := src[pos..]; var n := Span(IsNameChar, s);
            end - pos == n && t == Word(Cut(s[..n]), s[n..])
  {
    hide IsFunction, Span, Cut;
    end := Scan(src, pos, IsNameChar);
    assert src[pos..][..end - pos] == src[pos..end] && src[pos..][end - pos..] == src[end..];
    var name := Cut(src[pos..end]);
    var next := Scan(src, end, IsBlank);
    t := if next < |src| && src[next] == '(' && IsFunction(name) then Func(name) else Var(name);
  }

  /** One turn of the lexer's loop at position pos. */
  method ReadToken(src: string, pos: nat) returns (t: seq<Token>, end: nat)
    requires pos < |src|
    ensures pos < end <= |src| && (t, end - pos) == Next(src[pos..])
  {
    hide IsFunction, NumberLength, Span, Symbol, Word;
    var c := src[pos];
    ghost var s := src[pos..];
    assert s[0] == c && (pos + 1 < |src| ==> s[1] == src[pos + 1]);
    if IsSpace(c) {
      return [], pos + 1;
    }
    if c == '/' && pos + 1 < |src| && src[pos + 1] == '/' {
      end := Scan(src, pos, InLine);
      return [], end;
    }
    if IsDigit(c) || (c == '.' && pos + 1 < |src| && IsDigit(src[pos + 1])) {
      end := ScanNumber(src, pos);
      assert s[..end - pos] == src[pos..end];
      return [Num(Cut(src[pos..end]))], end;
    }
    if IsAlpha(c) {
      var word;
      word, end := ReadWord(src, pos);
      return [word], end;
    }
    return if Symbol(c) != Eof then [Symbol(c)] else [], pos + 1;
  }
}
