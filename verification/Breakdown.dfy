/** Texts that are no expressions: what the evaluator and the validator make of them. */
module Breakdown {
  import opened Results
  import opened Values
  import opened Tokenizer
  import opened Syntax
  import opened Semantics
  import opened Evaluator
  import opened Printing
  import opened RoundTrip
  import opened Grammar
  import opened Acceptance
  import opened Refusal
  import opened Texts
  import opened Laws

  // ----- Printed symbols -----

  lemma PrintedTokens(ts: seq<Symbol>)
    requires Printable(ts)
    ensures Lex(Render(ts), 0, []) == Success(Placed(ts, 0)) && Symbols(Placed(ts, 0)) == ts
  {
    LexRender(ts);
    SymbolsPlaced(ts, 0);
  }

  lemma {:induction false} PlacedAppend(us: seq<Symbol>, ts: seq<Symbol>, off: nat)
    ensures Placed(us + ts, off) == Placed(us, off) + Placed(ts, off + |Render(us)|)
  {
    hide Lead, Spell, Trail;
    if us == [] {
      assert [] + ts == ts;
    } else {
      assert (us + ts)[1..] == us[1..] + ts;
      PlacedAppend(us[1..], ts, off + Width(us[0]));
    }
  }

  lemma {:induction false} PlacedSize(ts: seq<Symbol>, off: nat)
    ensures |Placed(ts, off)| == |ts|
  {
    if ts != [] {
      PlacedSize(ts[1..], off + Width(ts[0]));
    }
  }

  /** The symbol that comes after `us`, unless it is printed between spaces, is at the end of their text. */
  lemma PositionBehind(us: seq<Symbol>, sym: Symbol)
    requires !Spaced(sym)
    ensures |Placed(us + [sym], 0)| == |us| + 1
    ensures PositionOf(Placed(us + [sym], 0), |us|) == |Render(us)|
    ensures PositionOf(Placed(us + [sym], 0), |us| + 1) == |Render(us)| + |ValueOf(sym)|
  {
    hide Render, ValueOf;
    PlacedAppend(us, [sym], 0);
    PlacedSize(us, 0);
    assert Placed([sym], |Render(us)|) == [Token(sym, |Render(us)|)] + Placed([], |Render(us)| + Width(sym));
  }

  /** What the two parsers make of printed symbols. */
  lemma OnSymbols(ts: seq<Symbol>, data: Data)
    requires Printable(ts)
    ensures Evaluate(Render(ts), data) == Lift(Eval(ReadExpr(ts, 0).t, data))
    ensures |Placed(ts, 0)| == |ts|
    ensures Validate(Render(ts)) ==
            match CheckExpr(ts, 0, false)
            case Reject(error, rest) => Invalid(Syntactic(error), PositionOf(Placed(ts, 0), |ts| - |rest|))
            case Accept(rest, _, _) =>
              if rest == [] then Valid
              else Invalid(Syntactic(UnexpectedToken(rest[0])), PositionOf(Placed(ts, 0), |ts| - |rest|))
  {
    hide Lex, ReadExpr, CheckExpr, Eval, Render, Placed, PositionOf, Symbols;
    PlacedSize(ts, 0);
    PrintedTokens(ts);
  }

  // ----- Where no operand starts -----

  /** Where no operand starts, an error is raised. */
  lemma NoOperand(ts: seq<Symbol>, d: nat)
    requires d + 1 <= MAX_EXPRESSION_DEPTH && !At(ts, Op(NotOp))
    ensures ReadPrimary(ts, d + 1).Err? ==> ReadExpr(ts, d) == ReadPrimary(ts, d + 1)
    ensures CheckPrimary(ts, d + 1, false).Reject? ==> CheckExpr(ts, d, false) == CheckPrimary(ts, d + 1, false)
  {
    hide ReadPrimary, CheckPrimary;
    if ReadPrimary(ts, d + 1).Err? {
      var r := ReadPrimary(ts, d + 1);
      assert ReadUnary(ts, d + 1) == r;
      assert ReadComparison(ts, d + 1) == r;
      assert ReadAnd(ts, d + 1) == r;
      assert ReadOr(ts, d + 1) == r;
    }
    if CheckPrimary(ts, d + 1, false).Reject? {
      var c := CheckPrimary(ts, d + 1, false);
      assert CheckUnary(ts, d + 1, false) == c;
      assert CheckComparison(ts, d + 1, false) == c;
      assert CheckAnd(ts, d + 1, false) == c;
      assert CheckOr(ts, d + 1, false) == c;
    }
  }

  lemma BadFails(error: Error, data: Data)
    ensures Eval(Bad(error), data) == Failure(error)
  {
  }

  /** Nothing is no expression. */
  lemma EmptyExpression(data: Data)
    ensures Evaluate("", data) == Failure(Syntactic(UnexpectedEnd))
    ensures Validate("") == Invalid(Syntactic(UnexpectedEnd), 0)
  {
    hide ReadExpr, CheckExpr, Evaluate, Validate;
    NoOperand([], 0);
    OnSymbols([], data);
    RenderEmpty();
  }

  /** A symbol that starts no operand. */
  lemma NoStart(sym: Symbol, data: Data)
    requires sym in [Close, BracketClose, Comma, Dot, Arrow] || (sym.Op? && sym != Op(NotOp))
    ensures Evaluate(Render([sym]), data) == Failure(Syntactic(UnexpectedToken(sym)))
    ensures Validate(Render([sym])) == Invalid(Syntactic(UnexpectedToken(sym)), if Spaced(sym) then 1 else 0)
  {
    hide ReadExpr, CheckExpr, Evaluate, Validate, Render, Eval;
    var ts := [sym];
    assert ts[1..] == [];
    NoStartSymbols(sym);
    OnSymbols(ts, data);
    assert Placed(ts, 0)[0].pos == |Lead(sym)|;
    BadFails(UnexpectedToken(sym), data);
  }

  lemma NoStartSymbols(sym: Symbol)
    requires sym in [Close, BracketClose, Comma, Dot, Arrow] || (sym.Op? && sym != Op(NotOp))
    ensures ReadExpr([sym], 0) == Err(Bad(UnexpectedToken(sym)))
    ensures CheckExpr([sym], 0, false) == Reject(UnexpectedToken(sym), [sym])
  {
    hide ReadExpr, CheckExpr;
    NoOperand([sym], 0);
  }

  /** The name of a function, standing alone: the evaluator asks for its arguments, and so does the validator, if it
      knows the function as one. */
  lemma BareName(name: string, f: Builtin, data: Data)
    requires IsIdentifier(name) && WordOf(name) == Function(f)
    ensures Evaluate(name, data) == Failure(Syntactic(Expected(Open, None)))
    ensures Validate(name) == if KnownCall(f) then Invalid(Syntactic(Expected(Open, None)), |name|) else Valid
  {
    hide ReadExpr, CheckExpr, Evaluate, Validate, WordOf, IsIdentifier, Render, Placed, PositionOf, Eval;
    var ts := [Ident(name)];
    PrintableFirst(Ident(name), []);
    assert ts == [Ident(name)] + [];
    RenderLast(Ident(name));
    OnSymbols(ts, data);
    BareSymbols(name, f);
    assert [] + ts == ts;
    RenderEmpty();
    PositionBehind([], Ident(name));
    BadFails(Expected(Open, None), data);
  }

  lemma BareSymbols(name: string, f: Builtin)
    requires WordOf(name) == Function(f)
    ensures ReadExpr([Ident(name)], 0) == Err(Bad(Expected(Open, None)))
    ensures CheckExpr([Ident(name)], 0, false)
         == if KnownCall(f) then Reject(Expected(Open, None), []) else Entered(Free([]))
  {
    hide ReadExpr, CheckExpr, WordOf;
    var ts := [Ident(name)];
    assert ts[1..] == [];
    assert ReadPrimary(ts, 1) == Err(Bad(Expected(Open, None)));
    if KnownCall(f) {
      KnownName(name, f, 1);
    } else {
      UnknownName(name, f, 1);
      CheckOperand(ts, 0, false);
    }
    NoOperand(ts, 0);
  }

  lemma KnownName(name: string, f: Builtin, d: nat)
    requires WordOf(name) == Function(f) && KnownCall(f)
    ensures CheckPrimary([Ident(name)], d, false) == Reject(Expected(Open, None), [])
  {
    hide WordOf;
    assert [Ident(name)][1..] == [];
  }

  lemma UnknownName(name: string, f: Builtin, d: nat)
    requires WordOf(name) == Function(f) && !KnownCall(f)
    ensures CheckPrimary([Ident(name)], d, false) == Free([])
  {
    hide WordOf;
    var ts := [Ident(name)];
    assert ts[1..] == [];
    assert CheckField(ts, d, false, false) == Free([]);
    hide CheckField;
    if f.Two? {
      assert !f.f.BigintGte? && !f.f.BigintGt?;
    }
    assert CheckPrimary(ts, d, false) == CheckField(ts, d, false, false);
  }

  // ----- What is left over -----

  /** A closing parenthesis or bracket too many is ignored by the evaluator, and an error at its place to the
      validator. */
  lemma TooManyClosed(e: Expr, bracket: bool, data: Data)
    requires Sound(e)
    ensures var text := TextOf(e) + if bracket then "]" else ")";
            && Evaluate(text, data) == ValueIn(e, data)
            && (CheckableExpr(e, 0, false) ==>
                  Validate(text)
                  == Invalid(Syntactic(UnexpectedToken(if bracket then BracketClose else Close)), |TextOf(e)|))
  {
    hide ReadExpr, CheckExpr, Evaluate, Validate, HasText, FitsExpr, CheckableExpr, ShowAt, Render, Placed, PositionOf;
    hide Eval, ValueOf, Printable;
    var sym := if bracket then BracketClose else Close;
    var shown := ShowAt(e, 0, []);
    BracketText(bracket);
    RenderAppend(shown, [sym]);
    LeftOver(e, sym);
    OnSymbols(shown + [sym], data);
    PositionBehind(shown, sym);
    ValueIs(e, data);
  }

  lemma LeftOver(e: Expr, sym: Symbol)
    requires Sound(e) && (sym == Close || sym == BracketClose)
    ensures var ts := ShowAt(e, 0, []) + [sym];
            && Printable(ts) && ReadExpr(ts, 0).t == e
            && (CheckableExpr(e, 0, false) ==> var c := CheckExpr(ts, 0, false); c.Accept? && c.rest == [sym])
  {
    hide ReadExpr, CheckExpr, HasText, FitsExpr, CheckableExpr, ShowAt, Printable, Clear, Stops;
    ClosedIsClear(sym);
    ShowAppend(e, 0, [], [sym]);
    assert [] + [sym] == [sym];
    PrintableTree(e, 0, [sym]);
    ReadShownExpr(e, [sym], 0);
    if CheckableExpr(e, 0, false) {
      CheckShownExpr(e, [sym], 0, false, 0);
    }
  }

  lemma BracketText(bracket: bool)
    ensures Render([if bracket then BracketClose else Close]) == if bracket then "]" else ")"
  {
    RenderLast(if bracket then BracketClose else Close);
  }

  lemma ClosedIsClear(sym: Symbol)
    requires sym == Close || sym == BracketClose
    ensures Printable([sym]) && Clear([sym]) && Stops([sym], 0)
  {
    assert [sym][1..] == [];
  }

  // ----- What is missing -----

  /** An opening parenthesis that is never closed. */
  lemma Unclosed(e: Expr, data: Data)
    requires HasText(e) && FitsExpr(e, 1)
    ensures Sound(e)
    ensures Evaluate("(" + TextOf(e), data)
         == if ValueIn(e, data).Success? then Failure(Syntactic(Expected(Close, None))) else ValueIn(e, data)
    ensures CheckableExpr(e, 1, false) ==>
              var v := Validate("(" + TextOf(e));
              v.Invalid? && v.problem == Syntactic(Expected(Close, None))
  {
    hide ReadExpr, CheckExpr, Evaluate, Validate, HasText, FitsExpr, CheckableExpr, ShowAt, Render, Placed, PositionOf;
    hide Eval;
    InnerFits(e, 1);
    var shown := ShowAt(e, 0, []);
    RenderPlain(Open, shown);
    PrintableTree(e, 0, []);
    PrintableFirst(Open, shown);
    OnSymbols([Open] + shown, data);
    ValueIs(e, data);
    UnclosedSymbols(e);
    StuckBehind(e, Expected(Close, None), data);
  }

  lemma StuckBehind(e: Expr, error: Error, data: Data)
    ensures Eval(Stuck(e, error), data)
         == if Eval(e, data).Success? then Failure(error) else Eval(e, data)
  {
  }

  lemma UnclosedSymbols(e: Expr)
    requires HasText(e) && FitsExpr(e, 1)
    ensures ReadExpr([Open] + ShowAt(e, 0, []), 0) == Err(Stuck(e, Expected(Close, None)))
    ensures CheckableExpr(e, 1, false) ==>
              CheckExpr([Open] + ShowAt(e, 0, []), 0, false) == Reject(Expected(Close, None), [])
  {
    hide ReadExpr, CheckExpr, HasText, FitsExpr, CheckableExpr, ShowAt;
    var ts := [Open] + ShowAt(e, 0, []);
    assert ts[1..] == ShowAt(e, 0, []);
    ReadShownExpr(e, [], 1);
    if CheckableExpr(e, 1, false) {
      CheckShownExpr(e, [], 1, false, 0);
    }
    NoOperand(ts, 0);
  }

  /** A function of two arguments with one. */
  lemma MissingArgument(f: TwoArguments, a: Expr, data: Data)
    requires HasText(a) && FitsExpr(a, 1)
    ensures Sound(a)
    ensures Evaluate(FunctionName(f) + "(" + (TextOf(a) + ")"), data)
         == if ValueIn(a, data).Success? then Failure(Syntactic(Expected(Comma, Some(Close)))) else ValueIn(a, data)
    ensures (f.BigintGte? || f.BigintGt?) && CheckableExpr(a, 1, false) ==>
              Validate(FunctionName(f) + "(" + (TextOf(a) + ")"))
              == Invalid(Syntactic(Expected(Comma, Some(Close))), |FunctionName(f) + "(" + TextOf(a)|)
  {
    hide ReadExpr, CheckExpr, Evaluate, Validate, HasText, FitsExpr, CheckableExpr, ShowAt, Render, Placed, PositionOf;
    hide Eval, FunctionName, ValueOf, WordOf, Printable;
    InnerFits(a, 1);
    var before := [Ident(FunctionName(f)), Open] + ShowAt(a, 0, []);
    CallOfOne(FunctionName(f), a);
    OnSymbols(before + [Close], data);
    PositionBehind(before, Close);
    ValueIs(a, data);
    MissingSymbols(f, a);
    StuckBehind(a, Expected(Comma, Some(Close)), data);
  }

  lemma CallOfOne(name: string, a: Expr)
    requires IsIdentifier(name) && HasText(a)
    ensures var before := [Ident(name), Open] + ShowAt(a, 0, []);
            && [Ident(name), Open] + ShowAt(a, 0, [Close]) == before + [Close]
            && Printable(before + [Close])
            && Render(before) == name + "(" + TextOf(a)
            && Render(before + [Close]) == name + "(" + (TextOf(a) + ")")
  {
    hide HasText, ShowAt, Render, IsIdentifier, Printable, Clear;
    var inner := ShowAt(a, 0, [Close]);
    ShowAppend(a, 0, [], [Close]);
    assert [] + [Close] == [Close];
    assert [Ident(name), Open] + inner == [Ident(name), Open] + ShowAt(a, 0, []) + [Close];
    RenderCall(name, inner);
    RenderCall(name, ShowAt(a, 0, []));
    WrittenBefore(a, 0, [Close]);
    RenderEmpty();
    ClosedIsClear(Close);
    PrintableTree(a, 0, [Close]);
    PrintableCall(name, inner);
  }

  lemma MissingSymbols(f: TwoArguments, a: Expr)
    requires HasText(a) && FitsExpr(a, 1)
    ensures var ts := [Ident(FunctionName(f)), Open] + ShowAt(a, 0, [Close]);
            && ReadExpr(ts, 0) == Err(Stuck(a, Expected(Comma, Some(Close))))
            && ((f.BigintGte? || f.BigintGt?) && CheckableExpr(a, 1, false) ==>
                  CheckExpr(ts, 0, false) == Reject(Expected(Comma, Some(Close)), [Close]))
  {
    hide ReadExpr, CheckExpr, HasText, FitsExpr, CheckableExpr, ShowAt, FunctionName, WordOf, ReadPrimary, CheckPrimary;
    var inner := ShowAt(a, 0, [Close]);
    ReadShownExpr(a, [Close], 1);
    ReadWithOne(f, inner, a);
    if (f.BigintGte? || f.BigintGt?) && CheckableExpr(a, 1, false) {
      CheckShownExpr(a, [Close], 1, false, 0);
      CheckWithOne(f, inner);
    }
    NoOperand([Ident(FunctionName(f)), Open] + inner, 0);
  }

  lemma ReadWithOne(f: TwoArguments, inner: seq<Symbol>, a: Expr)
    requires ReadExpr(inner, 1).Ok? && ReadExpr(inner, 1).t == a && ReadExpr(inner, 1).rest == [Close]
    ensures ReadPrimary([Ident(FunctionName(f)), Open] + inner, 1) == Err(Stuck(a, Expected(Comma, Some(Close))))
  {
    hide ReadExpr, FunctionName, WordOf, ReadPrimary;
    ReadPrimaryCall(FunctionName(f), Two(f), inner, 1);
    assert ([Open] + inner)[1..] == inner;
  }

  lemma CheckWithOne(f: TwoArguments, inner: seq<Symbol>)
    requires f.BigintGte? || f.BigintGt?
    requires CheckExpr(inner, 1, false).Accept? && CheckExpr(inner, 1, false).rest == [Close]
    ensures CheckPrimary([Ident(FunctionName(f)), Open] + inner, 1, false)
         == Reject(Expected(Comma, Some(Close)), [Close])
  {
    hide CheckExpr, FunctionName, WordOf, CheckPrimary;
    CheckPrimaryCall(FunctionName(f), Two(f), inner, 1, false);
    assert ([Open] + inner)[1..] == inner;
  }

  // ----- Calls that are never closed -----

  predicate IsCall(e: Expr) {
    e.LenCall? || e.SumList? || e.SumField? || e.Call? || e.Temporal?
  }

  /** The symbols of a call without the last parenthesis. */
  function OpenCall(e: Expr): seq<Symbol>
    requires IsCall(e)
  {
    match e
    case LenCall(a) => [Ident("len"), Open] + ShowAt(a, 0, [])
    case SumList(a) => [Ident("bigint_sum"), Open] + ShowAt(a, 5, [])
    case SumField(a, b) => [Ident("bigint_sum"), Open] + ShowAt(a, 5, [Comma] + ShowAt(b, 5, []))
    case Call(f, a, b) => [Ident(FunctionName(f)), Open] + ShowAt(a, 0, [Comma] + ShowAt(b, 0, []))
    case Temporal(op, path) => [Ident(TemporalName(op)), Open] + ShowPath(path, [])
  }

  lemma OpenCallShown(e: Expr)
    requires IsCall(e)
    ensures ShowAt(e, 0, []) == OpenCall(e) + [Close]
  {
    hide FunctionName, TemporalName, ShowPath;
    var closed: seq<Symbol> := [Close];
    assert [Close] + [] == closed && [] + closed == closed;
    match e
    case LenCall(a) => ShowAppend(a, 0, [], closed);
    case SumList(a) => ShowAppend(a, 5, [], closed);
    case SumField(a, b) =>
      ShowAppend(b, 5, [], closed);
      ShowAppend(a, 5, [Comma] + ShowAt(b, 5, []), closed);
      assert [Comma] + ShowAt(b, 5, closed) == [Comma] + ShowAt(b, 5, []) + closed;
    case Call(f, a, b) =>
      ShowAppend(b, 0, [], closed);
      ShowAppend(a, 0, [Comma] + ShowAt(b, 0, []), closed);
      assert [Comma] + ShowAt(b, 0, closed) == [Comma] + ShowAt(b, 0, []) + closed;
    case Temporal(op, path) => PathAppend(path, [], closed);
  }

  lemma {:induction false} PrintablePrefix(us: seq<Symbol>, ts: seq<Symbol>)
    requires Printable(us + ts)
    ensures Printable(us)
  {
    if us != [] {
      assert (us + ts)[1..] == us[1..] + ts;
      PrintablePrefix(us[1..], ts);
    }
  }

  /** The tree of a call that is never closed. */
  function OpenTree(e: Expr): Expr
    requires IsCall(e)
  {
    match e
    case LenCall(a) => Stuck(a, Expected(Close, None))
    case SumList(a) => Stuck(a, Expected(Close, None))
    case Temporal(_, _) => Bad(Expected(Close, None))
    case _ => Stuck(e, Expected(Close, None))
  }

  /** A call that lacks its last parenthesis: its arguments are evaluated, and then the parenthesis is asked for. */
  lemma UnclosedCall(e: Expr, data: Data)
    requires Sound(e) && IsCall(e)
    ensures TextOf(e) == Render(OpenCall(e)) + ")"
    ensures Evaluate(Render(OpenCall(e)), data)
         == if ValueIn(e, data).Success? then Failure(Syntactic(Expected(Close, None))) else ValueIn(e, data)
    ensures Checkable(e, 1, false) ==>
              var v := Validate(Render(OpenCall(e)));
              v.Invalid? && v.problem == Syntactic(Expected(Close, None))
  {
    hide ReadExpr, CheckExpr, Evaluate, Validate, HasText, ShowAt, Render, FitsExpr, Printable, OpenCall, OpenTree;
    hide IsCall, Checkable, Placed, PositionOf;
    OpenCallShown(e);
    RenderAppend(OpenCall(e), [Close]);
    RenderEmpty();
    PrintableTree(e, 0, []);
    PrintablePrefix(OpenCall(e), [Close]);
    OnSymbols(OpenCall(e), data);
    ReadOpenCall(e);
    if Checkable(e, 1, false) {
      CheckOpenCall(e);
    }
    ValueIs(e, data);
    OpenCallValue(e, data);
  }

  lemma OpenCallValue(e: Expr, data: Data)
    requires IsCall(e)
    ensures Eval(OpenTree(e), data) == if Eval(e, data).Success? then Failure(Expected(Close, None)) else Eval(e, data)
  {
  }

  lemma ReadOpenCall(e: Expr)
    requires Sound(e) && IsCall(e)
    ensures ReadExpr(OpenCall(e), 0) == Err(OpenTree(e))
  {
    hide ReadExpr, ReadPrimary, ReadCall, WordOf, ShowAt, FunctionName, TemporalName, ShowPath, FitsExpr, DepthAt;
    hide FitsAt, IsPath, Fits;
    KeywordFacts();
    TopFits(e);
    match e {
      case LenCall(a) =>
        ReadPrimaryCall("len", LenFunction, ShowAt(a, 0, []), 1);
        ReadOpenLen(a);
      case SumList(a) =>
        ReadPrimaryCall("bigint_sum", BigintSum, ShowAt(a, 5, []), 1);
        ReadOpenSumList(a);
      case SumField(a, b) =>
        ReadPrimaryCall("bigint_sum", BigintSum, ShowAt(a, 5, [Comma] + ShowAt(b, 5, [])), 1);
        ReadOpenSumField(a, b);
      case Call(f, a, b) =>
        ReadPrimaryCall(FunctionName(f), Two(f), ShowAt(a, 0, [Comma] + ShowAt(b, 0, [])), 1);
        ReadOpenTwo(f, a, b);
      case Temporal(op, path) =>
        ReadPrimaryCall(TemporalName(op), Time(op), ShowPath(path, []), 1);
        ReadOpenTemporal(op, path);
    }
    NoOperand(OpenCall(e), 0);
  }

  lemma ReadOpenLen(a: Expr)
    requires HasText(a) && Fits(LenCall(a), 1)
    ensures ReadCall(LenFunction, [Open] + ShowAt(a, 0, []), 1) == Err(OpenTree(LenCall(a)))
  {
    hide ReadExpr, HasText, FitsExpr, ShowAt, DepthAt;
    var inner := ShowAt(a, 0, []);
    assert ([Open] + inner)[1..] == inner;
    ReadShownExpr(a, [], 1);
  }

  lemma ReadOpenSumList(a: Expr)
    requires HasText(a) && Fits(SumList(a), 1)
    ensures ReadCall(BigintSum, [Open] + ShowAt(a, 5, []), 1) == Err(OpenTree(SumList(a)))
  {
    hide ReadPrimary, HasText, FitsAt, ShowAt, DepthAt;
    var inner := ShowAt(a, 5, []);
    assert ([Open] + inner)[1..] == inner;
    ReadShownPrimary(a, [], 1);
  }

  lemma ReadOpenSumField(a: Expr, b: Expr)
    requires HasText(a) && HasText(b) && Fits(SumField(a, b), 1)
    ensures ReadCall(BigintSum, [Open] + ShowAt(a, 5, [Comma] + ShowAt(b, 5, [])), 1)
         == Err(OpenTree(SumField(a, b)))
  {
    hide ReadPrimary, HasText, FitsAt, ShowAt, DepthAt;
    var second := [Comma] + ShowAt(b, 5, []);
    var inner := ShowAt(a, 5, second);
    assert ([Open] + inner)[1..] == inner && second[1..] == ShowAt(b, 5, []);
    ReadShownPrimary(a, second, 1);
    ReadShownPrimary(b, [], 1 + DepthAt(a, 5));
  }

  lemma ReadOpenTwo(f: TwoArguments, a: Expr, b: Expr)
    requires HasText(a) && HasText(b) && Fits(Call(f, a, b), 1)
    ensures ReadCall(Two(f), [Open] + ShowAt(a, 0, [Comma] + ShowAt(b, 0, [])), 1) == Err(OpenTree(Call(f, a, b)))
  {
    hide ReadExpr, HasText, FitsExpr, ShowAt, DepthAt;
    var second := [Comma] + ShowAt(b, 0, []);
    var inner := ShowAt(a, 0, second);
    assert ([Open] + inner)[1..] == inner && second[1..] == ShowAt(b, 0, []);
    ReadShownExpr(a, second, 1);
    ReadShownExpr(b, [], 1 + 1 + DepthAt(a, 0));
  }

  lemma ReadOpenTemporal(op: TemporalOp, path: string)
    requires IsPath(path)
    ensures ReadCall(Time(op), [Open] + ShowPath(path, []), 1) == Err(OpenTree(Temporal(op, path)))
  {
    hide IsIdentifier, MemberOf;
    var parts := Split(path, '.');
    var ts := [Open] + ShowPath(path, []);
    assert ts[1] == Ident(parts[0]) && ts[2..] == ShowParts(parts[1..], []);
    ReadTemporalParts(op, parts[0], parts[1..], [], 1);
  }

  /** The check runs out of symbols where it asks for the last parenthesis. */
  predicate AsksToClose(c: Check) {
    c == Reject(Expected(Close, None), [])
  }

  lemma CheckOpenCall(e: Expr)
    requires HasText(e) && IsCall(e) && Checkable(e, 1, false)
    ensures AsksToClose(CheckExpr(OpenCall(e), 0, false))
  {
    hide CheckExpr, CheckPrimary, CheckSum, CheckTwo, CheckTime, WordOf, ShowAt, FunctionName, TemporalName, ShowPath;
    hide IsPath, CheckableAt, CheckableExpr;
    KeywordFacts();
    match e {
      case SumList(a) =>
        CheckPrimaryCall("bigint_sum", BigintSum, ShowAt(a, 5, []), 1, false);
        CheckOpenSumList(a);
      case SumField(a, b) =>
        CheckPrimaryCall("bigint_sum", BigintSum, ShowAt(a, 5, [Comma] + ShowAt(b, 5, [])), 1, false);
        CheckOpenSumField(a, b);
      case Call(f, a, b) =>
        CheckPrimaryCall(FunctionName(f), Two(f), ShowAt(a, 0, [Comma] + ShowAt(b, 0, [])), 1, false);
        CheckOpenTwo(a, b);
      case Temporal(op, path) =>
        CheckPrimaryCall(TemporalName(op), Time(op), ShowPath(path, []), 1, false);
        CheckOpenTemporal(path);
    }
    NoOperand(OpenCall(e), 0);
  }

  lemma CheckOpenSumList(a: Expr)
    requires HasText(a) && CheckableAt(a, 5, 1, false)
    ensures AsksToClose(CheckSum([Open] + ShowAt(a, 5, []), 1, false))
  {
    hide CheckPrimary, HasText, CheckableAt, ShowAt, DepthAt, FitsAt;
    var inner := ShowAt(a, 5, []);
    assert ([Open] + inner)[1..] == inner;
    CheckShownPrimary(a, [], 1, false, 0);
  }

  lemma CheckOpenSumField(a: Expr, b: Expr)
    requires HasText(a) && HasText(b) && CheckableAt(a, 5, 1, false) && CheckableAt(b, 5, 1, false)
    ensures AsksToClose(CheckSum([Open] + ShowAt(a, 5, [Comma] + ShowAt(b, 5, [])), 1, false))
  {
    hide CheckPrimary, HasText, CheckableAt, ShowAt, DepthAt, FitsAt;
    var second := [Comma] + ShowAt(b, 5, []);
    var inner := ShowAt(a, 5, second);
    assert ([Open] + inner)[1..] == inner && second[1..] == ShowAt(b, 5, []);
    CheckShownPrimary(a, second, 1, false, 0);
    CheckShownPrimary(b, [], 1, false, 0);
  }

  lemma CheckOpenTwo(a: Expr, b: Expr)
    requires HasText(a) && HasText(b) && CheckableExpr(a, 1, false) && CheckableExpr(b, 1, false)
    ensures AsksToClose(CheckTwo([Open] + ShowAt(a, 0, [Comma] + ShowAt(b, 0, [])), 1, false))
  {
    hide CheckExpr, HasText, CheckableExpr, ShowAt, DepthAt, FitsExpr;
    var second := [Comma] + ShowAt(b, 0, []);
    var inner := ShowAt(a, 0, second);
    assert ([Open] + inner)[1..] == inner && second[1..] == ShowAt(b, 0, []);
    CheckShownExpr(a, second, 1, false, 0);
    CheckShownExpr(b, [], 1, false, 0);
  }

  lemma CheckOpenTemporal(path: string)
    requires IsPath(path)
    ensures AsksToClose(CheckTime([Open] + ShowPath(path, []), 1, false))
  {
    hide CheckField, IsPath, ShowPath;
    var inner := ShowPath(path, []);
    assert ([Open] + inner)[1..] == inner;
    CheckShownParts(path, [], 1, false, false);
  }

  /** A temporal operator without a path. */
  lemma EmptyTemporal(op: TemporalOp, data: Data)
    ensures var text, error := TemporalName(op) + "(" + ")", Syntactic(ExpectedIdentifier(Some(Close)));
            && Evaluate(text, data) == Failure(error)
            && Validate(text) == Invalid(error, |TemporalName(op)| + 1)
  {
    hide ReadExpr, CheckExpr, Evaluate, Validate, WordOf, Render, Placed, PositionOf, TemporalName, Eval, Printable;
    var name := TemporalName(op);
    var ts := [Ident(name), Open] + [Close];
    RenderCall(name, [Close]);
    RenderCall(name, []);
    RenderEmpty();
    ClosedIsClear(Close);
    PrintableCall(name, [Close]);
    OnSymbols(ts, data);
    EmptySymbols(op);
    assert [Ident(name), Open] + [] == [Ident(name), Open];
    assert name + "(" + "" == name + "(";
    PositionBehind([Ident(name), Open], Close);
    BadFails(ExpectedIdentifier(Some(Close)), data);
  }

  lemma EmptySymbols(op: TemporalOp)
    ensures var ts, error := [Ident(TemporalName(op)), Open] + [Close], ExpectedIdentifier(Some(Close));
            ReadExpr(ts, 0) == Err(Bad(error)) && CheckExpr(ts, 0, false) == Reject(error, [Close])
  {
    hide ReadExpr, CheckExpr, ReadPrimary, CheckPrimary, WordOf, TemporalName;
    var name := TemporalName(op);
    ReadPrimaryCall(name, Time(op), [Close], 1);
    CheckPrimaryCall(name, Time(op), [Close], 1, false);
    assert ([Open] + [Close])[1..] == [Close];
    NoOperand([Ident(name), Open] + [Close], 0);
  }

  /** A path that ends in a dot, and a quantifier without its lambda. */
  lemma MissingName(path: string, data: Data)
    requires IsFieldPath(path)
    ensures Evaluate(path + ".", data) == Failure(Syntactic(ExpectedIdentifier(None)))
    ensures Validate(path + ".") == Invalid(Syntactic(ExpectedIdentifier(None)), |path| + 1)
    ensures Evaluate(path + ".every", data) == Failure(Syntactic(Expected(Open, None)))
    ensures Validate(path + ".every") == Invalid(Syntactic(Expected(Open, None)), |path| + 6)
  {
    hide Evaluate, Validate, Render, IsPath;
    TailTexts();
    assert [] + [Dot] == [Dot] && [Dot] + [Ident("every")] == [Dot, Ident("every")];
    BrokenText(path, [], Dot, ExpectedIdentifier(None), data);
    BrokenText(path, [Dot], Ident("every"), Expected(Open, None), data);
  }

  lemma TailTexts()
    ensures Render([]) == "" && Render([Dot]) == "." && Render([Dot, Ident("every")]) == ".every"
  {
    RenderEmpty();
    RenderLast(Dot);
    RenderLast(Ident("every"));
    assert [Dot, Ident("every")] == [Dot] + [Ident("every")];
    RenderPlain(Dot, [Ident("every")]);
  }

  /** Quantifiers that break off inside their parentheses. */
  lemma MissingLambda(path: string, param: string, data: Data)
    requires IsFieldPath(path) && IsIdentifier(param)
    ensures Evaluate(path + ".every(", data) == Failure(Syntactic(ExpectedIdentifier(None)))
    ensures Validate(path + ".every(") == Invalid(Syntactic(ExpectedIdentifier(None)), |path| + 7)
    ensures Evaluate(path + (".every(" + param), data) == Failure(Syntactic(Expected(Arrow, None)))
    ensures Validate(path + (".every(" + param)) == Invalid(Syntactic(Expected(Arrow, None)), |path| + 7 + |param|)
  {
    hide Evaluate, Validate, Render, IsPath, IsIdentifier;
    TailTexts();
    LambdaTexts(param);
    var every := [Dot, Ident("every")];
    assert every + [Open] == [Dot, Ident("every"), Open];
    assert [Dot, Ident("every"), Open] + [Ident(param)] == [Dot, Ident("every"), Open, Ident(param)];
    BrokenText(path, every, Open, ExpectedIdentifier(None), data);
    BrokenText(path, [Dot, Ident("every"), Open], Ident(param), Expected(Arrow, None), data);
  }

  lemma LambdaTexts(param: string)
    ensures Render([Dot, Ident("every"), Open]) == ".every("
    ensures Render([Dot, Ident("every"), Open, Ident(param)]) == ".every(" + param
  {
    hide Render;
    TailTexts();
    RenderLast(Open);
    RenderLast(Ident(param));
    assert [Open] + [] == [Open] && [Ident(param)] + [] == [Ident(param)];
    RenderAppend([Dot, Ident("every")], [Open]);
    RenderAppend([Dot, Ident("every"), Open], [Ident(param)]);
    assert [Dot, Ident("every")] + [Open] == [Dot, Ident("every"), Open];
    assert [Dot, Ident("every"), Open] + [Ident(param)] == [Dot, Ident("every"), Open, Ident(param)];
    assert ".every" + "(" == ".every(";
  }

  predicate IsTail(tail: seq<Symbol>, error: Error) {
    || (tail == [Dot] && error == ExpectedIdentifier(None))
    || (tail == [Dot, Ident("every")] && error == Expected(Open, None))
    || (tail == [Dot, Ident("every"), Open] && error == ExpectedIdentifier(None))
    || (|tail| == 4 && tail[3].Ident? && IsIdentifier(tail[3].name)
        && tail == [Dot, Ident("every"), Open, tail[3]] && error == Expected(Arrow, None))
  }

  lemma BrokenText(path: string, middle: seq<Symbol>, last: Symbol, error: Error, data: Data)
    requires IsFieldPath(path) && IsTail(middle + [last], error)
    ensures var text := path + Render(middle + [last]);
            && Evaluate(text, data) == Failure(Syntactic(error))
            && Validate(text) == Invalid(Syntactic(error), |path| + |Render(middle)| + |ValueOf(last)|)
  {
    hide ReadExpr, CheckExpr, Evaluate, Validate, IsPath, ShowPath, Render, Placed, PositionOf, ValueOf, IsTail, WordOf;
    var tail := middle + [last];
    TailIsPrintable(tail, error);
    PrintablePath(path, tail);
    RenderPath(path, tail);
    RenderPath(path, middle);
    PathAppend(path, middle, [last]);
    OnSymbols(ShowPath(path, tail), data);
    TailSpacing(middle, last, error);
    PositionBehind(ShowPath(path, middle), last);
    BrokenPath(path, tail, error);
    BadFails(error, data);
  }

  lemma TailIsPrintable(tail: seq<Symbol>, error: Error)
    requires IsTail(tail, error)
    ensures Printable(tail) && tail != [] && !tail[0].Ident? && !tail[0].Number?
  {
    hide IsIdentifier, Printable;
    KeywordFacts();
    var last := if |tail| == 4 then [tail[3]] else [];
    if |tail| == 4 {
      PrintableFirst(tail[3], []);
      assert [tail[3]] + [] == last;
    }
    if |tail| >= 3 {
      PrintableFirst(Open, last);
    }
    var rest := if |tail| >= 3 then [Open] + last else [];
    if |tail| >= 2 {
      PrintableFirst(Ident("every"), rest);
      PrintableFirst(Dot, [Ident("every")] + rest);
      assert tail == [Dot] + ([Ident("every")] + rest);
    } else {
      PrintableFirst(Dot, []);
      assert tail == [Dot] + [];
    }
  }

  lemma TailSpacing(middle: seq<Symbol>, last: Symbol, error: Error)
    requires IsTail(middle + [last], error)
    ensures !Spaced(last)
  {
    assert (middle + [last])[|middle|] == last;
  }

  lemma PathAppend(path: string, us: seq<Symbol>, ts: seq<Symbol>)
    ensures ShowPath(path, us + ts) == ShowPath(path, us) + ts
  {
    hide ShowParts;
    var parts := Split(path, '.');
    PartsAppend(parts[1..], us, ts);
  }

  lemma {:induction false} PartsAppend(parts: seq<string>, us: seq<Symbol>, ts: seq<Symbol>)
    ensures ShowParts(parts, us + ts) == ShowParts(parts, us) + ts
  {
    if parts != [] {
      PartsAppend(parts[1..], us, ts);
    }
  }

  lemma BrokenPath(path: string, tail: seq<Symbol>, error: Error)
    requires IsFieldPath(path) && IsTail(tail, error)
    ensures ReadExpr(ShowPath(path, tail), 0) == Err(Bad(error))
    ensures CheckExpr(ShowPath(path, tail), 0, false) == Reject(error, [])
  {
    hide ReadExpr, CheckExpr, ReadField, CheckField, PathRest, CheckPath, ShowPath, IsPath, WordOf;
    var ts := ShowPath(path, tail);
    MemberFacts();
    ReadPath(path, tail, 1);
    CheckShownParts(path, tail, 1, false, false);
    assert PathRest(path, tail, 1) == Err(Bad(error)) && CheckPath(tail, 1, false, false) == Reject(error, []) by {
      BrokenTail(path, tail, error);
    }
    assert ts != [] && ts[0] == Ident(Split(path, '.')[0]) by {
      PathFirst(path, tail);
    }
    FieldFrom(ts, Split(path, '.')[0]);
    NoOperand(ts, 0);
  }

  lemma PathFirst(path: string, tail: seq<Symbol>)
    ensures var ts := ShowPath(path, tail); ts != [] && ts[0] == Ident(Split(path, '.')[0])
  {
  }

  lemma FieldFrom(ts: seq<Symbol>, name: string)
    requires ts != [] && ts[0] == Ident(name) && WordOf(name) == FieldName
    ensures ReadPrimary(ts, 1) == ReadField(ts, 1) && CheckPrimary(ts, 1, false) == CheckField(ts, 1, false, false)
  {
    hide ReadField, CheckField, WordOf;
  }

  lemma BrokenTail(path: string, tail: seq<Symbol>, error: Error)
    requires IsTail(tail, error)
    ensures PathRest(path, tail, 1) == Err(Bad(error)) && CheckPath(tail, 1, false, false) == Reject(error, [])
  {
    hide ReadEvery, CheckEvery, MemberOf, IsIdentifier;
    MemberFacts();
    if |tail| >= 2 {
      BrokenLambda(path, tail[2..], error);
    }
  }

  lemma BrokenLambda(path: string, ts: seq<Symbol>, error: Error)
    requires || (ts == [] && error == Expected(Open, None))
             || (ts == [Open] && error == ExpectedIdentifier(None))
             || (|ts| == 2 && ts[0] == Open && ts[1].Ident? && error == Expected(Arrow, None))
    ensures ReadEvery(path, ts, 1) == Err(Bad(error)) && CheckEvery(ts, 1, false) == Reject(error, [])
  {
    hide ReadExpr, CheckExpr;
    if ts != [] {
      assert |ts| == 1 ==> ts[1..] == [];
      assert |ts| == 2 ==> ts[2..] == [];
    }
  }

  // ----- Commas -----

  /** Commas between the elements of an array may be missing, and one may follow the last element: either parser goes
      on at the next symbol. */
  lemma CommaIsOptional(e: Expr, rest: seq<Symbol>, d: nat, full: bool)
    requires IsElement(e) && HasText(e) && Fits(e, d) && Checkable(e, d, full)
    requires full || (!e.NumberLit? && !e.TextLit?)
    requires Stops(rest, 5) && !At(rest, Comma)
    ensures ReadElems(Show(e, [Comma] + rest), d) == ReadElems(Show(e, rest), d)
    ensures Alike(CheckElems(Show(e, [Comma] + rest), d, full), CheckElems(Show(e, rest), d, full))
  {
    hide ReadElement, CheckElement, CheckElems, HasText, Fits, Checkable, IsElement, Show;
    assert ([Comma] + rest)[1..] == rest;
    ReadShownElement(e, [Comma] + rest, d);
    ReadShownElement(e, rest, d);
    CheckShownElement(e, [Comma] + rest, d, full, 0);
    CheckShownElement(e, rest, d, full, 0);
    CheckElemsStep(Show(e, [Comma] + rest), d, full);
    CheckElemsStep(Show(e, rest), d, full);
  }

  /** The tree of an array literal that is never closed. */
  function OpenElems(es: Elems): Elems {
    if es.NoElems? then Elem(Bad(Expected(BracketClose, None)), NoElems) else Elem(es.head, OpenElems(es.tail))
  }

  /** An array literal that is never closed. */
  lemma UnclosedArray(es: Elems, data: Data)
    requires Sound(ArrayLit(es))
    ensures var text, closed := "[" + Join(ElemTexts(es), ", "), ValueIn(ArrayLit(es), data);
            && Evaluate(text, data)
               == (if closed.Success? then Failure(Syntactic(Expected(BracketClose, None))) else closed)
            && (ElemsCheckable(es, 1, false) ==>
                  Validate(text).Invalid? && Validate(text).problem == Syntactic(Expected(BracketClose, None)))
  {
    hide ReadExpr, CheckExpr, Evaluate, Validate, HasText, ShowAt, ShowElems, Render, Placed, PositionOf, Join;
    hide FitsExpr, Printable, ElemsCheckable, ElemTexts, OpenElems;
    var inner := ShowElems(es, []);
    assert ElemsHaveText(es) && ElemsFit(es, 1) by {
      ArrayParts(es);
    }
    RenderPlain(BracketOpen, inner);
    RenderElems(es, []);
    RenderEmpty();
    assert Join(ElemTexts(es), ", ") + "" == Join(ElemTexts(es), ", ");
    PrintableElems(es, []);
    PrintableFirst(BracketOpen, inner);
    OnSymbols([BracketOpen] + inner, data);
    OpenSymbols(es);
    ValueIs(ArrayLit(es), data);
    OpenValue(es, data);
  }

  lemma ArrayParts(es: Elems)
    requires Sound(ArrayLit(es))
    ensures ElemsHaveText(es) && ElemsFit(es, 1)
  {
    assert Fits(ArrayLit(es), 1) by {
      TopFits(ArrayLit(es));
    }
  }

  lemma OpenSymbols(es: Elems)
    requires ElemsHaveText(es) && ElemsFit(es, 1)
    ensures var ts := [BracketOpen] + ShowElems(es, []);
            && ReadExpr(ts, 0) == Err(ArrayLit(OpenElems(es)))
            && (ElemsCheckable(es, 1, false) ==>
                  CheckExpr(ts, 0, false).Reject?
                  && CheckExpr(ts, 0, false).error == Expected(BracketClose, None))
  {
    hide ReadExpr, CheckExpr, ShowElems, ReadElems, CheckElems;
    var inner := ShowElems(es, []);
    var ts := [BracketOpen] + inner;
    assert ts[1..] == inner;
    ReadOpenElems(es, 1);
    CheckArray(ts, 1, false);
    if ElemsCheckable(es, 1, false) {
      CheckOpenElems(es, 1);
    }
    NoOperand(ts, 0);
  }

  lemma {:induction false} OpenValue(es: Elems, data: Data)
    ensures var closed := EvalElems(es, data);
            EvalElems(OpenElems(es), data)
            == if closed.Success? then Failure(Expected(BracketClose, None)) else closed
  {
    if es.Elem? {
      OpenValue(es.tail, data);
    }
  }

  lemma {:induction false} ReadOpenElems(es: Elems, d: nat)
    requires ElemsHaveText(es) && ElemsFit(es, d)
    ensures ReadElems(ShowElems(es, []), d) == Err(OpenElems(es))
    decreases es
  {
    hide ReadElement;
    match es
    case NoElems =>
    case Elem(e, NoElems) =>
      ReadShownElement(e, [], d);
      assert ReadElems([], d) == Err(OpenElems(NoElems));
    case Elem(e, tail) =>
      var rest := ShowElems(tail, []);
      ReadShownElement(e, [Comma] + rest, d);
      assert ([Comma] + rest)[1..] == rest;
      ReadOpenElems(tail, d);
  }

  lemma {:induction false} CheckOpenElems(es: Elems, d: nat)
    requires ElemsHaveText(es) && ElemsCheckable(es, d, false)
    ensures var c := CheckElems(ShowElems(es, []), d, false); c.Reject? && c.error == Expected(BracketClose, None)
    decreases es
  {
    hide CheckElement, Show, HasText, Checkable, IsElement;
    if es.Elem? {
      hide CheckElems;
      var last := es.tail.NoElems?;
      var rest := ShowElems(es.tail, []);
      var next := if last then [] else [Comma] + rest;
      assert ([Comma] + rest)[1..] == rest;
      var ts := ShowElems(es, []);
      assert ts == Show(es.head, next);
      CheckShownElement(es.head, next, d, false, 0);
      CheckElemsStep(ts, d, false);
      CheckOpenElems(es.tail, d);
    }
  }

  /** Behind a path, a dot in front of a quoted text is ignored together with the text by the evaluator; the validator
      asks for a name. */
  lemma DotWithoutName(path: string, v: string, data: Data)
    requires IsFieldPath(path)
    ensures var text := path + ("." + TextOf(TextLit(v)));
            && Evaluate(text, data) == Evaluate(path, data)
            && Validate(text) == Invalid(Syntactic(ExpectedIdentifier(Some(Text(v)))), |path| + 1)
  {
    hide ReadExpr, CheckExpr, Evaluate, Validate, IsPath, ShowPath, Render, Placed, PositionOf, WordOf, Printable;
    var tail := [Dot] + [Text(v)];
    DotTail(v);
    PrintablePath(path, tail);
    RenderPath(path, tail);
    RenderPath(path, [Dot]);
    OnSymbols(ShowPath(path, tail), data);
    PathAppend(path, [Dot], [Text(v)]);
    PositionBehind(ShowPath(path, [Dot]), Text(v));
    DotSymbols(path, v);
    TextMeansField(path, data);
  }

  lemma DotTail(v: string)
    ensures Printable([Dot] + [Text(v)])
    ensures Render([Dot] + [Text(v)]) == "." + TextOf(TextLit(v)) && Render([Dot]) == "."
  {
    var tail := [Dot] + [Text(v)];
    assert tail[1..] == [Text(v)] && [Text(v)][1..] == [];
    assert ShowAt(TextLit(v), 0, []) == [Text(v)];
    RenderPlain(Dot, [Text(v)]);
    RenderLast(Dot);
  }

  lemma TextMeansField(path: string, data: Data)
    requires IsFieldPath(path)
    ensures Evaluate(path, data) == Lift(Eval(Field(path), data))
  {
    hide Evaluate, IsFieldPath, TextOf;
    assert FitsAt(Field(path), 0, 1);
    FieldText(path);
    ValueIs(Field(path), data);
  }

  lemma DotSymbols(path: string, v: string)
    requires IsFieldPath(path)
    ensures var ts := ShowPath(path, [Dot] + [Text(v)]);
            && ReadExpr(ts, 0).t == Field(path) && CheckExpr(ts, 0, false).Reject?
            && CheckExpr(ts, 0, false) == Reject(ExpectedIdentifier(Some(Text(v))), [Text(v)])
  {
    hide ReadExpr, CheckExpr, ReadField, CheckField, ShowPath, IsPath, WordOf;
    var tail := [Dot] + [Text(v)];
    var ts := ShowPath(path, tail);
    assert tail[1..] == [Text(v)];
    ReadPath(path, tail, 1);
    CheckShownParts(path, tail, 1, false, false);
    PathFirst(path, tail);
    FieldFrom(ts, Split(path, '.')[0]);
    var r := ReadPrimary(ts, 1);
    assert r == Ok(Field(path), [Text(v)], 1);
    hide ReadPrimary;
    assert ReadComparison(ts, 1) == r;
    assert ReadAnd(ts, 1) == r;
    assert ReadOr(ts, 1) == r;
    assert ReadExpr(ts, 0) == r by { EndsAtText(ts, r, v); }
    NoOperand(ts, 0);
  }

  lemma EndsAtText(ts: seq<Symbol>, r: Reading<Expr>, v: string)
    requires ReadOr(ts, 1) == r && r.Ok? && r.rest == [Text(v)]
    ensures ReadExpr(ts, 0) == r
  {
    hide ReadOr;
  }

  // ----- Calls the validator does not know -----

  /** Of the functions of two arguments the validator knows two. It rejects the others at their parenthesis, whatever
      their arguments. */
  lemma UnknownTwoArguments(f: TwoArguments, a: Expr, b: Expr)
    requires HasText(a) && HasText(b)
    ensures var text := FunctionName(f) + "(" + (TextOf(a) + ", " + TextOf(b) + ")");
            if f == BigintGte || f == BigintGt then
              Validate(text).Valid? <==> CheckableExpr(a, 1, false) && CheckableExpr(b, 1, false)
            else
              Validate(text) == Invalid(Syntactic(UnexpectedToken(Open)), |FunctionName(f)|)
  {
    hide Validate, HasText, CheckableExpr, ShowAt, FunctionName, TextOf;
    CallTextAs(f, a, b);
    if f == BigintGte || f == BigintGt {
      CallHasText(f, a, b);
      ValidIfCheckable(Call(f, a, b));
    } else {
      RejectedCall(f, a, b);
    }
  }

  lemma CallHasText(f: TwoArguments, a: Expr, b: Expr)
    requires HasText(a) && HasText(b)
    ensures HasText(Call(f, a, b))
    ensures f == BigintGte || f == BigintGt ==>
              (CheckableExpr(Call(f, a, b), 0, false) <==> CheckableExpr(a, 1, false) && CheckableExpr(b, 1, false))
  {
    hide CheckableAt;
    assert CheckableAt(Call(f, a, b), 0, 1, false) == Checkable(Call(f, a, b), 1, false) by {
      OwnLevel(Call(f, a, b), 1);
    }
  }

  lemma OwnLevel(e: Expr, d: nat)
    ensures CheckableAt(e, 0, d, false) == Checkable(e, d, false)
  {
    hide Checkable;
  }

  lemma RejectedCall(f: TwoArguments, a: Expr, b: Expr)
    requires HasText(a) && HasText(b) && f != BigintGte && f != BigintGt
    ensures Validate(TextOf(Call(f, a, b))) == Invalid(Syntactic(UnexpectedToken(Open)), |FunctionName(f)|)
  {
    hide CheckExpr, ReadExpr, Eval, Evaluate, Validate, HasText, ShowAt, Render, Placed, PositionOf, FunctionName;
    hide WordOf, Printable;
    var e, name := Call(f, a, b), FunctionName(f);
    CallHasText(f, a, b);
    CallShown(e);
    var inner := ShowAt(a, 0, [Comma] + ShowAt(b, 0, [Close] + []));
    var ts := ShowAt(e, 0, []);
    assert ts == [Ident(name), Open] + inner;
    PrintableTree(e, 0, []);
    OnSymbols(ts, map[]);
    RejectedSymbols(f, inner);
    SecondPlace(name, Open, inner);
  }

  lemma RejectedSymbols(f: TwoArguments, inner: seq<Symbol>)
    requires f != BigintGte && f != BigintGt
    ensures CheckExpr([Ident(FunctionName(f)), Open] + inner, 0, false) == Entered(Free([Open] + inner))
  {
    hide CheckExpr, CheckPrimary, FunctionName, WordOf;
    UnknownCall(FunctionName(f), Two(f), inner, 1);
    CheckOperand([Ident(FunctionName(f)), Open] + inner, 0, false);
  }

  lemma SecondPlace(name: string, sym: Symbol, ts: seq<Symbol>)
    requires !Spaced(sym)
    ensures |Placed([Ident(name), sym] + ts, 0)| == |ts| + 2
    ensures PositionOf(Placed([Ident(name), sym] + ts, 0), 1) == |name|
  {
    var all := [Ident(name), sym] + ts;
    PlacedSize(all, 0);
    assert all[1..] == [sym] + ts;
    assert Placed(all, 0)[1] == Placed([sym] + ts, |name|)[0];
  }
}
