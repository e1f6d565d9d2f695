/** The tokenizer shared by the evaluator and the syntax validator, and a printer it inverts. */
module Tokenizer {
  import opened Results
  import opened Values

  datatype Operator = OrOp | AndOp | NotOp | EqOp | NeOp | LtOp | GtOp | LeOp | GeOp

  /** A token's type and value. Types whose value is fixed, or one of a few, have a constructor per value. */
  datatype Symbol =
    | Number(text: string)
    | Text(value: string)
    | Ident(name: string)
    | Op(op: Operator)
    | Open
    | Close
    | BracketOpen
    | BracketClose
    | Comma
    | Dot
    | Arrow

  /** `pos` is the offset of the token's first character in the expression. */
  datatype Token = Token(sym: Symbol, pos: nat)

  datatype LexError = UnexpectedCharacter(c: char, pos: nat) | UnterminatedString(pos: nat)

  // ----- Specification: one token at a time, from the text that is left -----

  function TwoCharOp(c: char, d: char): Option<Operator> {
    if c == '=' && d == '=' then Some(EqOp)
    else if c == '!' && d == '=' then Some(NeOp)
    else if c == '<' && d == '=' then Some(LeOp)
    else if c == '>' && d == '=' then Some(GeOp)
    else if c == '&' && d == '&' then Some(AndOp)
    else if c == '|' && d == '|' then Some(OrOp)
    else None
  }

  function OneCharSymbol(c: char): Option<Symbol> {
    match c
    case '<' => Some(Op(LtOp))
    case '>' => Some(Op(GtOp))
    case '!' => Some(Op(NotOp))
    case '(' => Some(Open)
    case ')' => Some(Close)
    case '[' => Some(BracketOpen)
    case ']' => Some(BracketClose)
    case ',' => Some(Comma)
    case _ => None
  }

  predicate IsIdentStart(c: char) {
    'a' <= c <= 'z' || 'A' <= c <= 'Z' || c == '_'
  }

  predicate IsIdentChar(c: char) {
    IsIdentStart(c) || IsDigit(c)
  }

  predicate IsNumberChar(c: char) {
    IsDigit(c) || c == '.'
  }

  function IdentRun(s: string): (n: nat)
    ensures n <= |s|
  {
    Run(s, IsIdentChar)
  }

  function NumberRun(s: string): (n: nat)
    ensures n <= |s|
  {
    Run(s, IsNumberChar)
  }

  predicate IsEscape(s: string) {
    |s| > 1 && s[0] == '\\' && (s[1] == '\'' || s[1] == '\\')
  }

  /** The rest of a string literal: its value after `acc`, and the text behind the closing quote. */
  function ScanText(s: string, acc: string): (r: Option<(string, string)>)
    ensures r.Some? ==> |r.value.1| < |s|
  {
    if s == "" then None
    else if s[0] == '\'' then Some((acc, s[1..]))
    else if IsEscape(s) then ScanText(s[2..], acc + [s[1]])
    else ScanText(s[1..], acc + [s[0]])
  }

  datatype Step = Next(rest: string, tokens: seq<Token>) | Stop(error: LexError)

  predicate EndsInNumber(tokens: seq<Token>) {
    tokens != [] && tokens[|tokens| - 1].sym.Number?
  }

  /** Read one token (or one white-space character) off `s`, which starts at offset `off`. */
  function LexStep(s: string, off: nat, tokens: seq<Token>): (r: Step)
    requires s != ""
    ensures r.Next? ==> |r.rest| < |s|
  {
    var c := s[0];
    if IsSpace(c) then Next(s[1..], tokens)
    else if c == '=' && |s| > 1 && s[1] == '>' then Next(s[2..], tokens + [Token(Arrow, off)])
    else if |s| > 1 && TwoCharOp(c, s[1]).Some? then
      Next(s[2..], tokens + [Token(Op(TwoCharOp(c, s[1]).value), off)])
    else if OneCharSymbol(c).Some? then Next(s[1..], tokens + [Token(OneCharSymbol(c).value, off)])
    else if c == '.' then
      if |s| > 1 && IsDigit(s[1]) && EndsInNumber(tokens) then
        var prev := tokens[|tokens| - 1];
        var n := DigitRun(s[1..]);
        Next(s[1..][n..], tokens[..|tokens| - 1] + [Token(Number(prev.sym.text + "." + s[1..][..n]), prev.pos)])
      else Next(s[1..], tokens + [Token(Dot, off)])
    else if c == '\'' then
      match ScanText(s[1..], "")
      case None => Stop(UnterminatedString(off))
      case Some((value, rest)) => Next(rest, tokens + [Token(Text(value), off)])
    else if IsDigit(c) then
      var n := NumberRun(s);
      Next(s[n..], tokens + [Token(Number(s[..n]), off)])
    else if IsIdentStart(c) then
      var n := IdentRun(s);
      Next(s[n..], tokens + [Token(Ident(s[..n]), off)])
    else Stop(UnexpectedCharacter(c, off))
  }

  /** The tokens of the text `s`, which starts at offset `off`, after those already found. */
  function Lex(s: string, off: nat, tokens: seq<Token>): Result<seq<Token>, LexError>
    decreases |s|
  {
    if s == "" then Success(tokens)
    else
      match LexStep(s, off, tokens)
      case Next(rest, tokens') => Lex(rest, off + |s| - |rest|, tokens')
      case Stop(e) => Failure(e)
  }

  // ----- The tokenizer itself -----

  method Tokenize(expr: string) returns (r: Result<seq<Token>, LexError>)
    ensures r == Lex(expr, 0, [])
  {
    hide LexStep;
    var tokens: seq<Token> := [];
    var i := 0;
    assert expr[0..] == expr;
    while i < |expr|
      invariant 0 <= i <= |expr|
      invariant Lex(expr[i..], i, tokens) == Lex(expr, 0, [])
    {
      var next, tokens', error := ReadToken(expr, i, tokens);
      if error.Some? {
        return Failure(error.value);
      }
      i, tokens := next, tokens';
    }
    r := Success(tokens);
  }

  /** The body of the tokenizer's loop: the index behind the next token and the tokens with it, or the error. */
  method ReadToken(expr: string, i: nat, tokens: seq<Token>)
    returns (next: nat, tokens': seq<Token>, error: Option<LexError>)
    requires i < |expr|
    ensures error.Some? ==> LexStep(expr[i..], i, tokens) == Stop(error.value)
    ensures error.None? ==> i < next <= |expr| && LexStep(expr[i..], i, tokens) == Next(expr[next..], tokens')
  {
    hide Lex, Run, ScanText, IsSpace, OneCharSymbol, TwoCharOp, IsIdentStart,
      DigitRun;
    ghost var s := expr[i..];
    assert s[1..] == expr[i + 1..];
    assert |s| > 1 ==> s[2..] == expr[i + 2..];
    next, tokens', error := i, tokens, None;
    if IsSpace(expr[i]) {
      next := i + 1;
    } else if expr[i] == '=' && i + 1 < |expr| && expr[i + 1] == '>' {
      tokens' := tokens + [Token(Arrow, i)];
      next := i + 2;
    } else if i + 1 < |expr| && TwoCharOp(expr[i], expr[i + 1]).Some? {
      tokens' := tokens + [Token(Op(TwoCharOp(expr[i], expr[i + 1]).value), i)];
      next := i + 2;
    } else if OneCharSymbol(expr[i]).Some? {
      tokens' := tokens + [Token(OneCharSymbol(expr[i]).value, i)];
      next := i + 1;
    } else if expr[i] == '.' {
      if i + 1 < |expr| && IsDigit(expr[i + 1]) && EndsInNumber(tokens) {
        next, tokens' := MergeFraction(expr, i, tokens);
      } else {
        tokens' := tokens + [Token(Dot, i)];
        next := i + 1;
      }
    } else if expr[i] == '\'' {
      var text := ReadText(expr, i + 1);
      if text.None? {
        error := Some(UnterminatedString(i));
      } else {
        tokens' := tokens + [Token(Text(text.value.0), i)];
        next := text.value.1;
      }
    } else if IsDigit(expr[i]) {
      next := TakeWhile(expr, i, IsNumberChar);
      tokens' := tokens + [Token(Number(expr[i..next]), i)];
    } else if IsIdentStart(expr[i]) {
      next := TakeWhile(expr, i, IsIdentChar);
      tokens' := tokens + [Token(Ident(expr[i..next]), i)];
    } else {
      error := Some(UnexpectedCharacter(expr[i], i));
    }
  }

  /** A dot and digits behind a number token become part of that token. */
  method MergeFraction(expr: string, i: nat, tokens: seq<Token>) returns (next: nat, tokens': seq<Token>)
    requires i + 1 < |expr| && EndsInNumber(tokens)
    ensures i < next <= |expr|
    ensures var n := DigitRun(expr[i + 1..]);
            var prev := tokens[|tokens| - 1];
            && expr[next..] == expr[i + 1..][n..]
            && tokens' == tokens[..|tokens| - 1]
                          + [Token(Number(prev.sym.text + "." + expr[i + 1..][..n]), prev.pos)]
  {
    var prev := tokens[|tokens| - 1];
    next := TakeWhile(expr, i + 1, IsDigit);
    tokens' := tokens[..|tokens| - 1] + [Token(Number(prev.sym.text + "." + expr[i + 1..next]), prev.pos)];
  }

  /** The scanning loops over digits, number characters and identifier characters: the first index from
      `start` on whose character is not of the class. */
  method TakeWhile(expr: string, start: nat, inClass: char -> bool) returns (i: nat)
    requires start <= |expr|
    ensures start <= i <= |expr|
    ensures i == start + Run(expr[start..], inClass)
    ensures expr[start..][..i - start] == expr[start..i] && expr[start..][i - start..] == expr[i..]
  {
    i := start;
    while i < |expr| && inClass(expr[i])
      invariant start <= i <= |expr|
      invariant i + Run(expr[i..], inClass) == start + Run(expr[start..], inClass)
    {
      assert expr[i..][1..] == expr[i + 1..];
      i := i + 1;
    }
  }

  /** The loop over the characters of a string literal. */
  method ReadText(expr: string, start: nat) returns (r: Option<(string, nat)>)
    requires start <= |expr|
    ensures r.None? <==> ScanText(expr[start..], "").None?
    ensures r.Some? ==> start < r.value.1 <= |expr|
    ensures r.Some? ==> ScanText(expr[start..], "") == Some((r.value.0, expr[r.value.1..]))
  {
    var str, i := "", start;
    while i < |expr| && expr[i] != '\''
      invariant start <= i <= |expr|
      invariant ScanText(expr[i..], str) == ScanText(expr[start..], "")
    {
      assert expr[i..][1..] == expr[i + 1..];
      if expr[i] == '\\' && i + 1 < |expr| && (expr[i + 1] == '\'' || expr[i + 1] == '\\') {
        assert expr[i..][2..] == expr[i + 2..];
        str := str + [expr[i + 1]];
        i := i + 2;
      } else {
        str := str + [expr[i]];
        i := i + 1;
      }
    }
    if i >= |expr| {
      return None;
    }
    assert expr[i..][1..] == expr[i + 1..];
    return Some((str, i + 1));
  }

  // ----- Printing tokens -----

  predicate IsIdentifier(s: string) {
    s != "" && IsIdentStart(s[0]) && forall i :: 0 <= i < |s| ==> IsIdentChar(s[i])
  }

  predicate IsNumeral(s: string) {
    s != "" && IsDigit(s[0]) && forall i :: 0 <= i < |s| ==> IsNumberChar(s[i])
  }

  /** Symbols that have a spelling. */
  predicate Spellable(t: Symbol) {
    (t.Number? ==> IsNumeral(t.text)) && (t.Ident? ==> IsIdentifier(t.name))
  }

  function EscapeText(s: string): string {
    if s == "" then ""
    else (if s[0] == '\'' || s[0] == '\\' then ['\\', s[0]] else [s[0]]) + EscapeText(s[1..])
  }

  function SpellOp(op: Operator): string {
    match op
    case OrOp => "||"
    case AndOp => "&&"
    case NotOp => "!"
    case EqOp => "=="
    case NeOp => "!="
    case LtOp => "<"
    case GtOp => ">"
    case LeOp => "<="
    case GeOp => ">="
  }

  /** The `value` of a token. */
  function ValueOf(t: Symbol): string {
    match t
    case Number(text) => text
    case Text(value) => value
    case Ident(name) => name
    case Op(op) => SpellOp(op)
    case Open => "("
    case Close => ")"
    case BracketOpen => "["
    case BracketClose => "]"
    case Comma => ","
    case Dot => "."
    case Arrow => "=>"
  }

  function Spell(t: Symbol): string {
    if t.Text? then ['\''] + EscapeText(t.value) + ['\''] else ValueOf(t)
  }

  predicate Spaced(t: Symbol) {
    t.Arrow? || (t.Op? && !t.op.NotOp?)
  }

  function Lead(t: Symbol): string {
    if Spaced(t) then " " else ""
  }

  function Trail(t: Symbol): string {
    if Spaced(t) || t.Comma? then " " else ""
  }

  /** Symbols as text: one space around binary operators and arrows, one after a comma, none elsewhere. */
  function Render(ts: seq<Symbol>): string {
    if ts == [] then "" else Lead(ts[0]) + (Spell(ts[0]) + (Trail(ts[0]) + Render(ts[1..])))
  }

  function Width(t: Symbol): nat {
    |Lead(t)| + |Spell(t)| + |Trail(t)|
  }

  lemma RenderCons(s: Symbol, ts: seq<Symbol>)
    ensures Render([s] + ts) == Lead(s) + (Spell(s) + (Trail(s) + Render(ts)))
  {
    assert ([s] + ts)[1..] == ts;
  }

  lemma NoPrefix(a: string)
    ensures "" + a == a
  {
  }

  /** Words, parentheses, brackets and dots are printed without spaces. */
  lemma RenderPlain(s: Symbol, ts: seq<Symbol>)
    requires !Spaced(s) && !s.Comma? && !s.Text?
    ensures Render([s] + ts) == ValueOf(s) + Render(ts)
  {
    hide Render, ValueOf;
    RenderCons(s, ts);
    NoPrefix(Render(ts));
    NoPrefix(Spell(s) + Render(ts));
  }

  lemma RenderComma(ts: seq<Symbol>)
    ensures Render([Comma] + ts) == ", " + Render(ts)
  {
    hide Render;
    RenderCons(Comma, ts);
    NoPrefix("," + (" " + Render(ts)));
    Assoc(",", " ", Render(ts));
  }

  /** The tokens of `ts` at the positions they have in `Render(ts)` when that text starts at `off`. */
  function Placed(ts: seq<Symbol>, off: nat): seq<Token> {
    if ts == [] then []
    else
      [Token(ts[0], off + |Lead(ts[0])|)]
      + Placed(ts[1..], off + Width(ts[0]))
  }

  /** Whether `t` and `u` stay two tokens when printed one after the other. */
  predicate Apart(t: Symbol, u: Symbol) {
    && (t.Ident? ==> !u.Ident? && !u.Number?)
    && (t.Number? ==> !u.Number? && !u.Dot?)
  }

  /** Every symbol has a spelling, and stays apart from the next one. */
  predicate Printable(ts: seq<Symbol>) {
    ts != [] ==>
      && Spellable(ts[0])
      && (|ts| > 1 ==> Apart(ts[0], ts[1]))
      && Printable(ts[1..])
  }

  /** Whether the text `s` may follow `t` without changing it. */
  predicate Ends(t: Symbol, s: string) {
    s == "" ||
    match t
    case Ident(_) => !IsIdentChar(s[0])
    case Number(_) => !IsNumberChar(s[0])
    case Op(_) => |Spell(t)| == 1 ==> s[0] != '='
    case _ => true
  }

  /** Scanning an escaped string gives the string back. */
  lemma {:induction false} ScanEscaped(v: string, s: string, acc: string)
    ensures ScanText(EscapeText(v) + ['\''] + s, acc) == Some((acc + v, s))
  {
    var text := EscapeText(v) + ['\''] + s;
    if v == "" {
      assert text == ['\''] + s && text[1..] == s && acc + v == acc;
    } else {
      ScanEscaped(v[1..], s, acc + [v[0]]);
      var rest := EscapeText(v[1..]) + ['\''] + s;
      assert acc + [v[0]] + v[1..] == acc + v;
      if v[0] == '\'' || v[0] == '\\' {
        assert text == ['\\', v[0]] + rest && text[2..] == rest;
      } else {
        assert text == [v[0]] + rest && text[1..] == rest;
      }
    }
  }

  /** A spelled token is read back as itself: first as one step, kind by kind. */
  lemma StepWord(t: Symbol, s: string, off: nat, tokens: seq<Token>)
    requires Spellable(t) && Ends(t, s) && (t.Number? || t.Ident?)
    ensures LexStep(Spell(t) + s, off, tokens) == Next(s, tokens + [Token(t, off)])
  {
    hide Run, ScanText, EscapeText;
    var v := Spell(t);
    var text := v + s;
    assert text[|v|..] == s && text[..|v|] == v && text[0] == v[0];
    if t.Number? {
      RunOf(v, s, IsNumberChar);
    } else {
      RunOf(v, s, IsIdentChar);
    }
  }

  lemma Quoted(d: char)
    ensures TwoCharOp('\'', d).None?
  {
  }

  lemma StepText(t: Symbol, s: string, off: nat, tokens: seq<Token>)
    requires t.Text?
    ensures LexStep(Spell(t) + s, off, tokens) == Next(s, tokens + [Token(t, off)])
  {
    hide ScanText, EscapeText, Run, TwoCharOp;
    var text := Spell(t) + s;
    assert text[1..] == EscapeText(t.value) + ['\''] + s;
    assert text[0] == '\'';
    assert TwoCharOp('\'', text[1]).None? by {
      Quoted(text[1]);
    }
    ScanEscaped(t.value, s, "");
    assert "" + t.value == t.value;
  }

  lemma StepMark(t: Symbol, s: string, off: nat, tokens: seq<Token>)
    requires Ends(t, s)
    requires !t.Number? && !t.Text? && !t.Ident?
    requires t.Dot? ==> !EndsInNumber(tokens)
    ensures LexStep(Spell(t) + s, off, tokens) == Next(s, tokens + [Token(t, off)])
  {
    var v := Spell(t);
    var text := v + s;
    assert text[0] == v[0];
    if |v| == 1 {
      assert text[1..] == s && (s != "" ==> text[1] == s[0]);
    } else {
      assert text[1] == v[1] && text[2..] == s;
    }
  }

  lemma LexSpelled(t: Symbol, s: string, off: nat, tokens: seq<Token>)
    requires Spellable(t) && Ends(t, s)
    requires t.Dot? ==> !EndsInNumber(tokens)
    ensures Lex(Spell(t) + s, off, tokens) == Lex(s, off + |Spell(t)|, tokens + [Token(t, off)])
  {
    hide LexStep;
    match t {
      case Number(_) => StepWord(t, s, off, tokens);
      case Ident(_) => StepWord(t, s, off, tokens);
      case Text(_) => StepText(t, s, off, tokens);
      case _ => StepMark(t, s, off, tokens);
    }
  }

  lemma LexSpace(s: string, off: nat, tokens: seq<Token>)
    ensures Lex(" " + s, off, tokens) == Lex(s, off + 1, tokens)
  {
    assert (" " + s)[1..] == s;
  }

  /** The text printed after a symbol never runs into it. */
  lemma EndsBefore(ts: seq<Symbol>)
    requires Printable(ts) && ts != []
    ensures Ends(ts[0], Trail(ts[0]) + Render(ts[1..]))
  {
    if |ts| > 1 {
      var u := ts[1];
      assert ts[1..][0] == u && Printable(ts[1..]);
      assert Spell(u) != "";
      assert Render(ts[1..])[0] == (if Spaced(u) then ' ' else Spell(u)[0]);
    }
  }

  /** The first printed symbol, with the spaces around it, is read back as itself. */
  lemma LexFirst(ts: seq<Symbol>, off: nat, tokens: seq<Token>)
    requires Printable(ts) && ts != []
    requires ts[0].Dot? ==> !EndsInNumber(tokens)
    ensures Lex(Render(ts), off, tokens)
         == Lex(Render(ts[1..]), off + Width(ts[0]), tokens + [Token(ts[0], off + |Lead(ts[0])|)])
  {
    hide LexStep, Spell, Ends, Spellable, Lex;
    var t, rest := ts[0], Render(ts[1..]);
    var tail := Trail(t) + rest;
    var off1 := off + |Lead(t)|;
    if Spaced(t) {
      LexSpace(Spell(t) + tail, off, tokens);
    } else {
      assert "" + (Spell(t) + tail) == Spell(t) + tail;
    }
    EndsBefore(ts);
    LexSpelled(t, tail, off1, tokens);
    if Trail(t) == "" {
      assert tail == rest;
    } else {
      LexSpace(rest, off1 + |Spell(t)|, tokens + [Token(t, off1)]);
    }
  }

  lemma LexEmpty(off: nat, tokens: seq<Token>)
    ensures Lex("", off, tokens) == Success(tokens)
  {
  }

  lemma {:induction false} LexRenderFrom(ts: seq<Symbol>, off: nat, tokens: seq<Token>)
    requires Printable(ts)
    requires ts != [] && tokens != [] ==> Apart(tokens[|tokens| - 1].sym, ts[0])
    ensures Lex(Render(ts), off, tokens) == Success(tokens + Placed(ts, off))
  {
    hide Lex, Spell, Lead, Trail, Width;
    if ts == [] {
      LexEmpty(off, tokens);
      assert tokens + [] == tokens;
    } else {
      LexFirst(ts, off, tokens);
      var first := [Token(ts[0], off + |Lead(ts[0])|)];
      var others := Placed(ts[1..], off + Width(ts[0]));
      LexRenderFrom(ts[1..], off + Width(ts[0]), tokens + first);
      assert tokens + (first + others) == tokens + first + others;
    }
  }

  /** Tokenizing printed symbols gives the symbols back, at their positions in the text. */
  lemma LexRender(ts: seq<Symbol>)
    requires Printable(ts)
    ensures Lex(Render(ts), 0, []) == Success(Placed(ts, 0))
  {
    LexRenderFrom(ts, 0, []);
    assert [] + Placed(ts, 0) == Placed(ts, 0);
  }
}
