/** Reading inverts printing, for every tree that has a text. */
module RoundTrip {
  import opened Results
  import opened Values
  import opened Tokenizer
  import opened Syntax
  import opened Semantics
  import opened Evaluator
  import opened Nesting
  import opened Printing

  /** Symbols that may follow an operand of the given level without being taken for a part of it. */
  predicate Stops(after: seq<Symbol>, level: nat) {
    && !At(after, Dot) && !At(after, BracketOpen) && !At(after, Open)
    && (level <= 3 ==> !AtComparison(after))
    && (level <= 2 ==> !At(after, Op(AndOp)))
    && (level <= 1 ==> !At(after, Op(OrOp)))
    && (level == 0 ==> !At(after, Arrow))
  }

  lemma {:induction false} WholeTree(e: Expr)
    requires HasText(e)
    ensures !Broken(e)
  {
    match e
    case Implies(a, b) => WholeTree(a); WholeTree(b);
    case Or(a, b) => WholeTree(a); WholeTree(b);
    case And(a, b) => WholeTree(a); WholeTree(b);
    case Compare(_, a, b) => WholeTree(a); WholeTree(b);
    case Not(a) => WholeTree(a);
    case ArrayLit(es) => WholeElems(es);
    case SumList(a) => WholeTree(a);
    case SumField(a, b) => WholeTree(a); WholeTree(b);
    case LenCall(a) => WholeTree(a);
    case Call(_, a, b) => WholeTree(a); WholeTree(b);
    case _ =>
  }

  lemma {:induction false} WholeElems(es: Elems)
    requires ElemsHaveText(es)
    ensures !BrokenElems(es)
  {
    if es.Elem? {
      WholeTree(es.head);
      WholeElems(es.tail);
    }
  }

  /** The first symbol of a printed operand is not `!`, nor one that ends an operand. */
  lemma {:induction false} OperandStarts(e: Expr, after: seq<Symbol>)
    requires HasText(e)
    ensures var ts := ShowAt(e, 5, after);
            ts != [] && !ts[0].Op? && !ts[0].Close? && !ts[0].BracketClose? && !ts[0].Comma?
  {
  }

  // One step of each reading function, for operands already known to be read back.

  lemma ReadImplication(ts: seq<Symbol>, a: Expr, tb: seq<Symbol>, b: Expr, after: seq<Symbol>,
                        d: nat, d1: nat, d2: nat)
    requires d + 1 <= MAX_EXPRESSION_DEPTH && !Broken(a) && !Broken(b) && Stops(after, 0)
    requires ReadOr(ts, d + 1) == OrRest(a, [Arrow] + tb, d1)
    requires ReadOr(tb, d1) == OrRest(b, after, d2)
    ensures ReadExpr(ts, d) == Ok(Implies(a, b), after, d2)
  {
    hide ReadOr;
    assert ([Arrow] + tb)[1..] == tb;
  }

  lemma ReadPlain(ts: seq<Symbol>, a: Expr, after: seq<Symbol>, d: nat, d1: nat)
    requires d + 1 <= MAX_EXPRESSION_DEPTH && !Broken(a) && Stops(after, 0)
    requires ReadOr(ts, d + 1) == OrRest(a, after, d1)
    ensures ReadExpr(ts, d) == Ok(a, after, d1)
  {
    hide ReadOr;
  }

  lemma ReadDisjunct(ts: seq<Symbol>, a: Expr, tb: seq<Symbol>, b: Expr, after: seq<Symbol>, d: nat, d1: nat, d2: nat)
    requires !Broken(a) && !Broken(b) && Stops(after, 2)
    requires ReadOr(ts, d) == OrRest(a, [Op(OrOp)] + tb, d1)
    requires ReadAnd(tb, d1) == AndRest(b, after, d2)
    ensures ReadOr(ts, d) == OrRest(Or(a, b), after, d2)
  {
    hide ReadOr, ReadAnd;
    assert ([Op(OrOp)] + tb)[1..] == tb;
  }

  lemma ReadConjunct(ts: seq<Symbol>, a: Expr, tb: seq<Symbol>, b: Expr, after: seq<Symbol>, d: nat, d1: nat, d2: nat)
    requires !Broken(a) && !Broken(b)
    requires ReadAnd(ts, d) == AndRest(a, [Op(AndOp)] + tb, d1)
    requires ReadComparison(tb, d1) == Ok(b, after, d2)
    ensures ReadAnd(ts, d) == AndRest(And(a, b), after, d2)
  {
    hide ReadAnd, ReadComparison;
    assert ([Op(AndOp)] + tb)[1..] == tb;
  }

  lemma ReadCompared(ts: seq<Symbol>, a: Expr, op: Operator, tb: seq<Symbol>, b: Expr, after: seq<Symbol>,
                     d: nat, d1: nat, d2: nat)
    requires ComparisonOf(op).Some? && !Broken(a)
    requires ReadUnary(ts, d) == Ok(a, [Op(op)] + tb, d1)
    requires ReadUnary(tb, d1) == Ok(b, after, d2)
    ensures ReadComparison(ts, d) == Ok(Compare(ComparisonOf(op).value, a, b), after, d2)
  {
    hide ReadUnary;
    assert ([Op(op)] + tb)[1..] == tb;
  }

  lemma ReadOneDisjunct(ts: seq<Symbol>, a: Expr, after: seq<Symbol>, d: nat, d1: nat)
    requires !Broken(a) && Stops(after, 2)
    requires ReadAnd(ts, d) == AndRest(a, after, d1)
    ensures ReadOr(ts, d) == OrRest(a, after, d1)
  {
    hide ReadAnd;
  }

  lemma ReadOneConjunct(ts: seq<Symbol>, a: Expr, after: seq<Symbol>, d: nat, d1: nat)
    requires !Broken(a)
    requires ReadComparison(ts, d) == Ok(a, after, d1)
    ensures ReadAnd(ts, d) == AndRest(a, after, d1)
  {
    hide ReadComparison;
  }

  lemma ReadUncompared(ts: seq<Symbol>, a: Expr, after: seq<Symbol>, d: nat, d1: nat)
    requires Stops(after, 3)
    requires ReadUnary(ts, d) == Ok(a, after, d1)
    ensures ReadComparison(ts, d) == Ok(a, after, d1)
  {
    hide ReadUnary;
  }

  lemma ReadParens(e: Expr, ts: seq<Symbol>, after: seq<Symbol>, d: nat, d1: nat)
    requires !Broken(e)
    requires ReadExpr(ts, d) == Ok(e, [Close] + after, d1)
    ensures ReadPrimary([Open] + ts, d) == Ok(e, after, d1)
  {
    hide ReadExpr;
    assert ([Open] + ts)[1..] == ts && ([Close] + after)[1..] == after;
  }

  // What printing does at each binary operator.

  lemma AtOwnLevel(e: Expr, level: nat, after: seq<Symbol>, d: nat)
    requires Level(e) >= level
    ensures ShowAt(e, level, after) == Show(e, after)
    ensures DepthAt(e, level) == Depth(e) && (FitsAt(e, level, d) <==> Fits(e, d))
  {
    hide Show, Depth, Fits;
  }

  lemma PairHasText(a: Expr, b: Expr)
    ensures HasText(Implies(a, b)) == HasText(Or(a, b)) == HasText(And(a, b)) == (HasText(a) && HasText(b))
  {
    hide IsFieldPath, IsNumeral, IsPath, IsIdentifier, ElemsHaveText;
  }

  lemma ComparisonHasText(cmp: Comparison, a: Expr, b: Expr)
    ensures HasText(Compare(cmp, a, b)) == (HasText(a) && HasText(b))
  {
    hide IsFieldPath, IsNumeral, IsPath, IsIdentifier, ElemsHaveText;
  }

  lemma ImplicationParts(a: Expr, b: Expr, after: seq<Symbol>, d: nat)
    ensures var e := Implies(a, b);
            && ShowAt(e, 0, after) == ShowAt(a, 1, [Arrow] + ShowAt(b, 1, after))
            && DepthAt(e, 0) == DepthAt(a, 1) + DepthAt(b, 1)
            && (FitsAt(e, 0, d) <==> FitsAt(a, 1, d) && FitsAt(b, 1, d + DepthAt(a, 1)))
            && (HasText(e) <==> HasText(a) && HasText(b))
  {
    hide ShowAt, DepthAt, FitsAt, HasText;
    AtOwnLevel(Implies(a, b), 0, after, d);
    PairHasText(a, b);
  }

  lemma DisjunctionParts(a: Expr, b: Expr, after: seq<Symbol>, d: nat)
    ensures var e := Or(a, b);
            && ShowAt(e, 1, after) == ShowAt(a, 1, [Op(OrOp)] + ShowAt(b, 2, after))
            && DepthAt(e, 1) == DepthAt(a, 1) + DepthAt(b, 2)
            && (FitsAt(e, 1, d) <==> FitsAt(a, 1, d) && FitsAt(b, 2, d + DepthAt(a, 1)))
            && (HasText(e) <==> HasText(a) && HasText(b))
  {
    hide ShowAt, DepthAt, FitsAt, HasText;
    AtOwnLevel(Or(a, b), 1, after, d);
    PairHasText(a, b);
  }

  lemma ConjunctionParts(a: Expr, b: Expr, after: seq<Symbol>, d: nat)
    ensures var e := And(a, b);
            && ShowAt(e, 2, after) == ShowAt(a, 2, [Op(AndOp)] + ShowAt(b, 3, after))
            && DepthAt(e, 2) == DepthAt(a, 2) + DepthAt(b, 3)
            && (FitsAt(e, 2, d) <==> FitsAt(a, 2, d) && FitsAt(b, 3, d + DepthAt(a, 2)))
            && (HasText(e) <==> HasText(a) && HasText(b))
  {
    hide ShowAt, DepthAt, FitsAt, HasText;
    AtOwnLevel(And(a, b), 2, after, d);
    PairHasText(a, b);
  }

  lemma ComparisonParts(cmp: Comparison, a: Expr, b: Expr, after: seq<Symbol>, d: nat)
    ensures var e := Compare(cmp, a, b);
            && ShowAt(e, 3, after) == ShowAt(a, 4, [Op(ComparisonOp(cmp))] + ShowAt(b, 4, after))
            && DepthAt(e, 3) == DepthAt(a, 4) + DepthAt(b, 4)
            && (FitsAt(e, 3, d) <==> FitsAt(a, 4, d) && FitsAt(b, 4, d + DepthAt(a, 4)))
            && (HasText(e) <==> HasText(a) && HasText(b))
  {
    hide ShowAt, DepthAt, FitsAt, HasText;
    AtOwnLevel(Compare(cmp, a, b), 3, after, d);
    ComparisonHasText(cmp, a, b);
  }

  /** Whether a tree is parenthesised is all that matters about the level it is printed at. */
  lemma SameLevel(e: Expr, k: nat, m: nat, after: seq<Symbol>, d: nat)
    requires Level(e) < k <==> Level(e) < m
    ensures ShowAt(e, k, after) == ShowAt(e, m, after)
    ensures DepthAt(e, k) == DepthAt(e, m) && (FitsAt(e, k, d) <==> FitsAt(e, m, d))
  {
    hide Show, Depth, Fits;
  }

  lemma {:induction false} ReadShownExpr(e: Expr, after: seq<Symbol>, d: nat)
    requires HasText(e) && FitsExpr(e, d) && Stops(after, 0)
    ensures ReadExpr(ShowAt(e, 0, after), d) == Ok(e, after, d + 1 + DepthAt(e, 0))
    decreases e, 0, 10
  {
    hide ReadExpr, ReadOr, OrRest, Broken, HasText, FitsAt, ShowAt, DepthAt;
    if e.Implies? {
      var a, b := e.left, e.right;
      var d1 := d + 1 + DepthAt(a, 1);
      ImplicationParts(a, b, after, d + 1);
      ReadShownOr(a, [Arrow] + ShowAt(b, 1, after), d + 1);
      ReadShownOr(b, after, d1);
      ReadImplication(ShowAt(e, 0, after), a, ShowAt(b, 1, after), b, after, d, d1, d1 + DepthAt(b, 1));
    } else {
      SameLevel(e, 0, 1, after, d + 1);
      ReadShownOr(e, after, d + 1);
      ReadPlain(ShowAt(e, 0, after), e, after, d, d + 1 + DepthAt(e, 0));
    }
  }

  lemma {:induction false} ReadShownOr(e: Expr, after: seq<Symbol>, d: nat)
    requires HasText(e) && FitsAt(e, 1, d) && Stops(after, 2)
    ensures !Broken(e) && ReadOr(ShowAt(e, 1, after), d) == OrRest(e, after, d + DepthAt(e, 1))
    decreases e, if Level(e) < 1 then 1 else 0, 9
  {
    hide ReadAnd, OrRest, Broken, HasText, FitsAt, ShowAt, DepthAt;
    if e.Or? {
      hide ReadOr;
      var a, b := e.left, e.right;
      var d1 := d + DepthAt(a, 1);
      DisjunctionParts(a, b, after, d);
      ReadShownOr(a, [Op(OrOp)] + ShowAt(b, 2, after), d);
      ReadShownAnd(b, after, d1);
      WholeTree(e);
      ReadDisjunct(ShowAt(e, 1, after), a, ShowAt(b, 2, after), b, after, d, d1, d1 + DepthAt(b, 2));
    } else {
      SameLevel(e, 1, 2, after, d);
      ReadShownAnd(e, after, d);
      ReadOneDisjunct(ShowAt(e, 1, after), e, after, d, d + DepthAt(e, 1));
    }
  }

  lemma {:induction false} ReadShownAnd(e: Expr, after: seq<Symbol>, d: nat)
    requires HasText(e) && FitsAt(e, 2, d) && Stops(after, 3)
    ensures !Broken(e) && ReadAnd(ShowAt(e, 2, after), d) == AndRest(e, after, d + DepthAt(e, 2))
    decreases e, if Level(e) < 2 then 1 else 0, 8
  {
    hide ReadAnd, ReadComparison, AndRest, Broken, HasText, FitsAt, ShowAt, DepthAt;
    WholeTree(e);
    if e.And? {
      var a, b := e.left, e.right;
      var d1 := d + DepthAt(a, 2);
      ConjunctionParts(a, b, after, d);
      ReadShownAnd(a, [Op(AndOp)] + ShowAt(b, 3, after), d);
      ReadShownComparison(b, after, d1);
      WholeTree(b);
      ReadConjunct(ShowAt(e, 2, after), a, ShowAt(b, 3, after), b, after, d, d1, d1 + DepthAt(b, 3));
    } else {
      SameLevel(e, 2, 3, after, d);
      ReadShownComparison(e, after, d);
      ReadOneConjunct(ShowAt(e, 2, after), e, after, d, d + DepthAt(e, 2));
    }
  }

  lemma {:induction false} ReadShownComparison(e: Expr, after: seq<Symbol>, d: nat)
    requires HasText(e) && FitsAt(e, 3, d) && Stops(after, 3)
    ensures ReadComparison(ShowAt(e, 3, after), d) == Ok(e, after, d + DepthAt(e, 3))
    decreases e, if Level(e) < 3 then 1 else 0, 7
  {
    hide ReadUnary, ReadComparison, Broken, HasText, FitsAt, ShowAt, DepthAt;
    if e.Compare? {
      var a, b := e.left, e.right;
      var d1 := d + DepthAt(a, 4);
      ComparisonParts(e.cmp, a, b, after, d);
      ReadShownUnary(a, [Op(ComparisonOp(e.cmp))] + ShowAt(b, 4, after), d);
      ReadShownUnary(b, after, d1);
      WholeTree(a);
      ReadCompared(ShowAt(e, 3, after), a, ComparisonOp(e.cmp), ShowAt(b, 4, after), b, after,
                   d, d1, d1 + DepthAt(b, 4));
    } else {
      SameLevel(e, 3, 4, after, d);
      ReadShownUnary(e, after, d);
      ReadUncompared(ShowAt(e, 3, after), e, after, d, d + DepthAt(e, 3));
    }
  }

  lemma {:induction false} ReadShownUnary(e: Expr, after: seq<Symbol>, d: nat)
    requires HasText(e) && FitsAt(e, 4, d) && Stops(after, 5)
    ensures ReadUnary(ShowAt(e, 4, after), d) == Ok(e, after, d + DepthAt(e, 4))
    decreases e, if Level(e) < 4 then 1 else 0, 6
  {
    hide ReadPrimary, IsFieldPath, IsIdentifier, IsNumeral;
    WholeTree(e);
    if e.Not? {
      var ts := ShowAt(e, 4, after);
      assert ts == Show(e, after) == [Op(NotOp)] + ShowAt(e.operand, 4, after);
      assert ts[1..] == ShowAt(e.operand, 4, after);
      ReadShownUnary(e.operand, after, d);
    } else {
      OperandStarts(e, after);
      ReadShownPrimary(e, after, d);
    }
  }

  lemma {:induction false} ReadShownPrimary(e: Expr, after: seq<Symbol>, d: nat)
    requires HasText(e) && FitsAt(e, 5, d) && Stops(after, 5)
    ensures ReadPrimary(ShowAt(e, 5, after), d) == Ok(e, after, d + DepthAt(e, 5))
    decreases e, if Level(e) < 5 then 1 else 0, 5
  {
    hide ReadPrimary, Show, HasText, Fits, Depth;
    if Level(e) < 5 {
      ReadShownExpr(e, [Close] + after, d);
      WholeTree(e);
      ReadParens(e, ShowAt(e, 0, [Close] + after), after, d, d + 1 + DepthAt(e, 0));
    } else {
      ReadShownOperand(e, after, d);
    }
  }

  /** The names of the language and what they mean. */
  lemma KeywordFacts()
    ensures WordOf("null") == NullWord && WordOf("true") == BoolWord(true) && WordOf("false") == BoolWord(false)
    ensures WordOf("bigint_sum") == Function(BigintSum) && WordOf("len") == Function(LenFunction)
    ensures IsIdentifier("null") && IsIdentifier("true") && IsIdentifier("false") && IsIdentifier("length")
    ensures IsIdentifier("every") && IsIdentifier("bigint_sum") && IsIdentifier("len")
  {
  }

  lemma ReadPrimaryCall(name: string, f: Builtin, ts: seq<Symbol>, d: nat)
    requires WordOf(name) == Function(f)
    ensures ReadPrimary([Ident(name), Open] + ts, d) == ReadCall(f, [Open] + ts, d)
  {
    hide WordOf, ReadCall;
    assert ([Ident(name), Open] + ts)[1..] == [Open] + ts;
  }

  lemma ReadShownLiteral(e: Expr, after: seq<Symbol>, d: nat)
    requires e.NumberLit? || e.TextLit? || e.NullLit? || e.BoolLit?
    ensures ReadPrimary(Show(e, after), d) == Ok(e, after, d)
  {
    hide WordOf;
    KeywordFacts();
    assert Show(e, after)[1..] == after;
  }

  lemma {:induction false} ReadShownOperand(e: Expr, after: seq<Symbol>, d: nat)
    requires Level(e) == 5 && HasText(e) && Fits(e, d) && Stops(after, 5)
    ensures ReadPrimary(Show(e, after), d) == Ok(e, after, d + Depth(e))
    decreases e, 0, 4
  {
    hide ReadPrimary, ReadField, ReadElems, ReadCall, Broken, WordOf, ShowElems, ShowAt, DepthAt, FitsAt, Split;
    KeywordFacts();
    match e
    case SumList(a) =>
      ReadPrimaryCall("bigint_sum", BigintSum, ShowAt(a, 5, [Close] + after), d);
      ReadShownSumList(a, after, d);
    case SumField(a, b) =>
      ReadPrimaryCall("bigint_sum", BigintSum, ShowAt(a, 5, [Comma] + ShowAt(b, 5, [Close] + after)), d);
      ReadShownSumField(a, b, after, d);
    case LenCall(a) =>
      ReadPrimaryCall("len", LenFunction, ShowAt(a, 0, [Close] + after), d);
      ReadShownLen(a, after, d);
    case Call(f, a, b) =>
      ReadPrimaryCall(FunctionName(f), Two(f), ShowAt(a, 0, [Comma] + ShowAt(b, 0, [Close] + after)), d);
      ReadShownCall(f, a, b, after, d);
    case Temporal(op, path) =>
      ReadPrimaryCall(TemporalName(op), Time(op), ShowPath(path, [Close] + after), d);
      ReadShownTemporal(op, path, after, d);
    case ArrayLit(es) => ReadShownArray(es, after, d);
    case Field(path) => ReadShownPath(e, path, after, d);
    case LengthOf(path) => ReadShownPath(e, path, after, d);
    case Every(path, _, _) => ReadShownPath(e, path, after, d);
    case NumberLit(_) => ReadShownLiteral(e, after, d);
    case TextLit(_) => ReadShownLiteral(e, after, d);
    case NullLit => ReadShownLiteral(e, after, d);
    case BoolLit(_) => ReadShownLiteral(e, after, d);
  }

  lemma {:induction false} ReadShownArray(es: Elems, after: seq<Symbol>, d: nat)
    requires ElemsHaveText(es) && ElemsFit(es, d)
    ensures ReadPrimary([BracketOpen] + ShowElems(es, [BracketClose] + after), d) == Ok(ArrayLit(es), after, d)
    decreases es, 1
  {
    hide ReadElems, ShowElems, Broken, BrokenElems;
    assert ([BracketOpen] + ShowElems(es, [BracketClose] + after))[1..] == ShowElems(es, [BracketClose] + after);
    ReadShownElems(es, after, d);
  }

  lemma {:induction false} ReadShownPath(e: Expr, path: string, after: seq<Symbol>, d: nat)
    requires e == Field(path) || e == LengthOf(path) || (e.Every? && e.path == path)
    requires HasText(e) && Fits(e, d) && Stops(after, 5)
    ensures ReadPrimary(Show(e, after), d) == Ok(e, after, d)
    decreases e, 0, 3, 1
  {
    hide ReadField, WordOf, IsPath, FitsExpr, ShowParts;
    ReadShownField(e, after, d);
    assert Show(e, after)[0] == Ident(Split(path, '.')[0]);
  }

  lemma {:induction false} ReadShownField(e: Expr, after: seq<Symbol>, d: nat)
    requires e.Field? || e.LengthOf? || e.Every?
    requires HasText(e) && Fits(e, d) && Stops(after, 5)
    ensures ReadField(Show(e, after), d) == Ok(e, after, d)
    decreases e, 0, 3, 0
  {
    hide ReadField, ReadExpr, ReadEvery, ShowAt, ShowPath, MemberOf, IsPath, WordOf;
    MemberFacts();
    match e
    case Field(path) => ReadPath(path, after, d);
    case LengthOf(path) =>
      var rest := [Dot, Ident("length")] + after;
      ReadPath(path, rest, d);
      assert rest[2..] == after;
    case Every(path, param, body) =>
      var inner := ShowAt(body, 0, [Close] + after);
      var rest := [Dot, Ident("every"), Open, Ident(param), Arrow] + inner;
      ReadPath(path, rest, d);
      assert rest[2..] == [Open, Ident(param), Arrow] + inner;
      ReadShownEvery(path, param, body, after, d);
  }

  lemma MemberFacts()
    ensures MemberOf("length") == LengthMember && MemberOf("every") == EveryMember
  {
  }

  lemma ReadEveryAs(path: string, param: string, inner: seq<Symbol>, n: nat, d: nat)
    requires Enclosed(inner, 1) == n < |inner|
    ensures ReadEvery(path, [Open, Ident(param), Arrow] + inner, d)
         == Ok(Every(path, param, ReadExpr(inner[..n], d).t), inner[n + 1..], d)
  {
    hide ReadExpr, Enclosed;
    var ts := [Open, Ident(param), Arrow] + inner;
    assert ts[2..] == [Arrow] + inner && ts[3..] == inner;
  }

  lemma {:induction false} ReadShownEvery(path: string, param: string, body: Expr, after: seq<Symbol>, d: nat)
    requires HasText(body) && FitsExpr(body, d)
    ensures ReadEvery(path, [Open, Ident(param), Arrow] + ShowAt(body, 0, [Close] + after), d)
         == Ok(Every(path, param, body), after, d)
    decreases body, 1
  {
    hide ReadEvery, ReadExpr, Skips, Enclosed, ShowAt, HasText, FitsExpr;
    var closed := [Close] + after;
    var inner := ShowAt(body, 0, closed);
    ShowSkips(body, 0, closed);
    SkipsSuffix(inner, closed);
    EnclosedIs(inner, closed);
    var n := |inner| - |closed|;
    ReadEveryAs(path, param, inner, n, d);
    assert inner[n + 1..] == closed[1..] == after;
    ShowAppend(body, 0, [], closed);
    assert [] + closed == closed;
    assert inner[..n] == ShowAt(body, 0, []);
    ReadShownExpr(body, [], d);
  }

  lemma {:induction false} ReadShownElems(es: Elems, after: seq<Symbol>, d: nat)
    requires ElemsHaveText(es) && ElemsFit(es, d)
    ensures ReadElems(ShowElems(es, [BracketClose] + after), d) == Ok(es, after, d)
    decreases es, 0, 3
  {
    hide ReadElement;
    var closed := [BracketClose] + after;
    var ts := ShowElems(es, closed);
    assert closed[1..] == after;
    match es
    case NoElems =>
    case Elem(e, NoElems) =>
      ReadShownElement(e, closed, d);
    case Elem(e, tail) =>
      var rest := ShowElems(tail, closed);
      ReadShownElement(e, [Comma] + rest, d);
      assert ([Comma] + rest)[1..] == rest;
      ReadShownElems(tail, after, d);
  }

  lemma {:induction false} ReadShownElement(e: Expr, after: seq<Symbol>, d: nat)
    requires IsElement(e) && HasText(e) && Fits(e, d) && Stops(after, 5)
    ensures ReadElement(Show(e, after), d) == Ok(e, after, d) && !Broken(e)
    ensures Show(e, after) != [] && Show(e, after)[0] != BracketClose
    decreases e, 0, 4
  {
    hide ReadField, IsFieldPath;
    var ts := Show(e, after);
    match e
    case NumberLit(text) => assert ts[1..] == after;
    case TextLit(value) => assert ts[1..] == after;
    case Field(_) => ReadShownField(e, after, d);
    case LengthOf(_) => ReadShownField(e, after, d);
    case Every(_, _, _) => ReadShownField(e, after, d);
  }

  lemma {:induction false} ReadShownSumList(a: Expr, after: seq<Symbol>, d: nat)
    requires HasText(a) && FitsAt(a, 5, d)
    ensures ReadCall(BigintSum, [Open] + ShowAt(a, 5, [Close] + after), d)
         == Ok(SumList(a), after, d + DepthAt(a, 5))
    decreases a, 1, 10
  {
    hide ReadPrimary, Broken, HasText, FitsAt, FitsExpr, ShowAt, DepthAt;
    var closed := [Close] + after;
    var ts := [Open] + ShowAt(a, 5, closed);
    assert ts[1..] == ShowAt(a, 5, closed) && closed[1..] == after;
    ReadShownPrimary(a, closed, d);
    WholeTree(a);
  }

  lemma {:induction false} ReadShownSumField(a: Expr, b: Expr, after: seq<Symbol>, d: nat)
    requires HasText(a) && HasText(b) && FitsAt(a, 5, d) && FitsAt(b, 5, d + DepthAt(a, 5))
    ensures ReadCall(BigintSum, [Open] + ShowAt(a, 5, [Comma] + ShowAt(b, 5, [Close] + after)), d)
         == Ok(SumField(a, b), after, d + DepthAt(a, 5) + DepthAt(b, 5))
    decreases SumField(a, b), 0, 3
  {
    hide ReadPrimary, Broken, HasText, FitsAt, FitsExpr, ShowAt, DepthAt;
    var closed := [Close] + after;
    var second := [Comma] + ShowAt(b, 5, closed);
    var ts := [Open] + ShowAt(a, 5, second);
    assert ts[1..] == ShowAt(a, 5, second) && second[1..] == ShowAt(b, 5, closed) && closed[1..] == after;
    ReadShownPrimary(a, second, d);
    ReadShownPrimary(b, closed, d + DepthAt(a, 5));
    WholeTree(a);
    WholeTree(b);
  }

  lemma {:induction false} ReadShownLen(a: Expr, after: seq<Symbol>, d: nat)
    requires HasText(a) && FitsExpr(a, d)
    ensures ReadCall(LenFunction, [Open] + ShowAt(a, 0, [Close] + after), d)
         == Ok(LenCall(a), after, d + 1 + DepthAt(a, 0))
    decreases a, 1, 10
  {
    hide ReadExpr, Broken, HasText, FitsAt, FitsExpr, ShowAt, DepthAt;
    var closed := [Close] + after;
    var ts := [Open] + ShowAt(a, 0, closed);
    assert ts[1..] == ShowAt(a, 0, closed) && closed[1..] == after;
    ReadShownExpr(a, closed, d);
    WholeTree(a);
  }

  lemma {:induction false} ReadShownCall(f: TwoArguments, a: Expr, b: Expr, after: seq<Symbol>, d: nat)
    requires HasText(a) && HasText(b) && FitsExpr(a, d) && FitsExpr(b, d + 1 + DepthAt(a, 0))
    ensures ReadCall(Two(f), [Open] + ShowAt(a, 0, [Comma] + ShowAt(b, 0, [Close] + after)), d)
         == Ok(Call(f, a, b), after, d + 1 + DepthAt(a, 0) + 1 + DepthAt(b, 0))
    decreases Call(f, a, b), 0, 3
  {
    hide ReadExpr, Broken, HasText, FitsAt, FitsExpr, ShowAt, DepthAt;
    var closed := [Close] + after;
    var second := [Comma] + ShowAt(b, 0, closed);
    var ts := [Open] + ShowAt(a, 0, second);
    assert ts[1..] == ShowAt(a, 0, second) && second[1..] == ShowAt(b, 0, closed) && closed[1..] == after;
    ReadShownExpr(a, second, d);
    ReadShownExpr(b, closed, d + 1 + DepthAt(a, 0));
    WholeTree(a);
    WholeTree(b);
  }

  lemma ReadShownTemporal(op: TemporalOp, path: string, after: seq<Symbol>, d: nat)
    requires IsPath(path)
    ensures ReadCall(Time(op), [Open] + ShowPath(path, [Close] + after), d) == Ok(Temporal(op, path), after, d)
  {
    hide IsIdentifier, MemberOf;
    var closed := [Close] + after;
    var parts := Split(path, '.');
    var ts := [Open] + ShowPath(path, closed);
    assert ts[1] == Ident(parts[0]) && ts[2..] == ShowParts(parts[1..], closed) && closed[1..] == after;
    ReadTemporalParts(op, parts[0], parts[1..], closed, d);
    ExtendSplit(path);
  }

  // ----- Printed trees as text -----

  /** Symbols that may follow a word or a number. */
  predicate Clear(after: seq<Symbol>) {
    after == [] || (!after[0].Ident? && !after[0].Number? && !after[0].Dot?)
  }

  lemma PrintableFirst(s: Symbol, ts: seq<Symbol>)
    requires Spellable(s) && Printable(ts) && (ts != [] ==> Apart(s, ts[0]))
    ensures Printable([s] + ts)
  {
    assert ([s] + ts)[1..] == ts;
  }

  lemma PrintableCall(name: string, ts: seq<Symbol>)
    requires IsIdentifier(name) && Printable(ts)
    ensures Printable([Ident(name), Open] + ts)
  {
    PrintableFirst(Open, ts);
    PrintableFirst(Ident(name), [Open] + ts);
    assert [Ident(name)] + ([Open] + ts) == [Ident(name), Open] + ts;
  }

  lemma {:induction false} PrintableParts(parts: seq<string>, after: seq<Symbol>)
    requires forall p :: p in parts ==> IsIdentifier(p)
    requires Printable(after) && (after == [] || (!after[0].Ident? && !after[0].Number?))
    ensures Printable(ShowParts(parts, after))
    ensures ShowParts(parts, after) == after || At(ShowParts(parts, after), Dot)
    decreases |parts|
  {
    if parts != [] {
      assert parts[0] in parts;
      var rest := ShowParts(parts[1..], after);
      PrintableParts(parts[1..], after);
      PrintableFirst(Ident(parts[0]), rest);
      PrintableFirst(Dot, [Ident(parts[0])] + rest);
      assert [Dot] + ([Ident(parts[0])] + rest) == ShowParts(parts, after);
    }
  }

  lemma PrintablePath(path: string, after: seq<Symbol>)
    requires IsPath(path)
    requires Printable(after) && (after == [] || (!after[0].Ident? && !after[0].Number?))
    ensures Printable(ShowPath(path, after))
  {
    var parts := Split(path, '.');
    assert parts[0] in parts;
    PrintableParts(parts[1..], after);
    PrintableFirst(Ident(parts[0]), ShowParts(parts[1..], after));
  }

  lemma {:induction false} PrintableTree(e: Expr, level: nat, after: seq<Symbol>)
    requires HasText(e) && Printable(after) && Clear(after)
    ensures Printable(ShowAt(e, level, after))
    decreases e, 1
  {
    if Level(e) < level {
      PrintableFirst(Close, after);
      PrintableTop(e, [Close] + after);
      PrintableFirst(Open, Show(e, [Close] + after));
    } else {
      PrintableTop(e, after);
    }
  }

  lemma {:induction false} PrintablePair(e: Expr, a: Expr, k: nat, mid: Symbol, b: Expr, m: nat, after: seq<Symbol>)
    requires a < e && b < e && HasText(a) && HasText(b)
    requires mid.Op? || mid.Arrow? || mid.Comma?
    requires Printable(after) && Clear(after)
    ensures Printable(ShowAt(a, k, [mid] + ShowAt(b, m, after)))
    decreases e, 0, 0
  {
    PrintableTree(b, m, after);
    PrintableFirst(mid, ShowAt(b, m, after));
    PrintableTree(a, k, [mid] + ShowAt(b, m, after));
  }

  lemma {:induction false} PrintableTop(e: Expr, after: seq<Symbol>)
    requires HasText(e) && Printable(after) && Clear(after)
    ensures Printable(Show(e, after))
    decreases e, 0, 2
  {
    hide Printable, IsNumeral, IsIdentifier, Split, WordOf, Clear, ShowAt;
    match e
    case Implies(a, b) => PrintablePair(e, a, 1, Arrow, b, 1, after);
    case Or(a, b) => PrintablePair(e, a, 1, Op(OrOp), b, 2, after);
    case And(a, b) => PrintablePair(e, a, 2, Op(AndOp), b, 3, after);
    case Compare(cmp, a, b) => PrintablePair(e, a, 4, Op(ComparisonOp(cmp)), b, 4, after);
    case Not(a) =>
      PrintableTree(a, 4, after);
      PrintableFirst(Op(NotOp), ShowAt(a, 4, after));
    case Every(path, param, body) => PrintableEvery(path, param, body, after);
    case _ => PrintableOperand(e, after);
  }

  lemma {:induction false} PrintableOperand(e: Expr, after: seq<Symbol>)
    requires Level(e) == 5 && !e.Every?
    requires HasText(e) && Printable(after) && Clear(after)
    ensures Printable(Show(e, after))
    decreases e, 0, 1
  {
    hide Printable, IsNumeral, IsIdentifier, Split, WordOf, ShowAt;
    KeywordFacts();
    PrintableFirst(Close, after);
    var closed := [Close] + after;
    match e
    case NumberLit(text) => PrintableFirst(Number(text), after);
    case TextLit(value) => PrintableFirst(Text(value), after);
    case NullLit => PrintableFirst(Ident("null"), after);
    case BoolLit(b) => PrintableFirst(Ident(if b then "true" else "false"), after);
    case Field(path) => PrintablePath(path, after);
    case LengthOf(path) =>
      PrintableFirst(Ident("length"), after);
      PrintableFirst(Dot, [Ident("length")] + after);
      assert [Dot] + ([Ident("length")] + after) == [Dot, Ident("length")] + after;
      PrintablePath(path, [Dot, Ident("length")] + after);
    case ArrayLit(es) =>
      PrintableFirst(BracketClose, after);
      PrintableElems(es, [BracketClose] + after);
      PrintableFirst(BracketOpen, ShowElems(es, [BracketClose] + after));
    case SumList(a) =>
      PrintableTree(a, 5, closed);
      PrintableCall("bigint_sum", ShowAt(a, 5, closed));
    case SumField(a, b) =>
      PrintablePair(e, a, 5, Comma, b, 5, closed);
      PrintableCall("bigint_sum", ShowAt(a, 5, [Comma] + ShowAt(b, 5, closed)));
    case LenCall(a) =>
      PrintableTree(a, 0, closed);
      PrintableCall("len", ShowAt(a, 0, closed));
    case Call(f, a, b) =>
      PrintablePair(e, a, 0, Comma, b, 0, closed);
      PrintableCall(FunctionName(f), ShowAt(a, 0, [Comma] + ShowAt(b, 0, closed)));
    case Temporal(op, path) =>
      PrintablePath(path, closed);
      PrintableCall(TemporalName(op), ShowPath(path, closed));
  }

  lemma PrintableLambda(path: string, param: string, inner: seq<Symbol>)
    requires IsPath(path) && IsIdentifier(param) && Printable(inner)
    ensures Printable(ShowPath(path, [Dot, Ident("every"), Open, Ident(param), Arrow] + inner))
  {
    hide Printable, IsIdentifier, Split, WordOf, IsPath, ShowPath;
    KeywordFacts();
    PrintableFirst(Arrow, inner);
    PrintableFirst(Ident(param), [Arrow] + inner);
    PrintableCall("every", [Ident(param)] + ([Arrow] + inner));
    var call := [Ident("every"), Open] + ([Ident(param)] + ([Arrow] + inner));
    PrintableFirst(Dot, call);
    assert [Dot] + call == [Dot, Ident("every"), Open, Ident(param), Arrow] + inner;
    PrintablePath(path, [Dot] + call);
  }

  lemma {:induction false} PrintableEvery(path: string, param: string, body: Expr, after: seq<Symbol>)
    requires IsPath(path) && IsIdentifier(param) && HasText(body) && Printable(after) && Clear(after)
    ensures Printable(Show(Every(path, param, body), after))
    decreases body, 2
  {
    hide Printable, IsIdentifier, ShowAt, IsPath, ShowPath, HasText;
    PrintableFirst(Close, after);
    PrintableTree(body, 0, [Close] + after);
    PrintableLambda(path, param, ShowAt(body, 0, [Close] + after));
  }

  lemma {:induction false} PrintableElems(es: Elems, after: seq<Symbol>)
    requires ElemsHaveText(es) && Printable(after) && Clear(after)
    ensures Printable(ShowElems(es, after))
    decreases es, 0, 0
  {
    match es
    case NoElems =>
    case Elem(e, NoElems) => PrintableTop(e, after);
    case Elem(e, rest) =>
      PrintableElems(rest, after);
      PrintableFirst(Comma, ShowElems(rest, after));
      PrintableTop(e, [Comma] + ShowElems(rest, after));
  }

  // ----- The round trip through text -----

  lemma {:induction false} SymbolsPlaced(ts: seq<Symbol>, off: nat)
    ensures Symbols(Placed(ts, off)) == ts
    decreases |ts|
  {
    if ts != [] {
      var rest := Placed(ts[1..], off + Width(ts[0]));
      SymbolsPlaced(ts[1..], off + Width(ts[0]));
      var all := Placed(ts, off);
      assert all[1..] == rest;
      forall i | 0 <= i < |ts| ensures i < |all| && all[i].sym == ts[i] {
        if i > 0 {
          assert all[i] == rest[i - 1] && rest[i - 1].sym == Symbols(rest)[i - 1] == ts[1..][i - 1];
        }
      }
    }
  }

  /** Tokenizing the text of a tree gives the symbols it was printed from. */
  lemma TextTokens(e: Expr)
    requires HasText(e)
    ensures var tokens := Lex(TextOf(e), 0, []);
            tokens.Success? && Symbols(tokens.value) == ShowAt(e, 0, [])
  {
    PrintableTree(e, 0, []);
    LexRender(ShowAt(e, 0, []));
    SymbolsPlaced(ShowAt(e, 0, []), 0);
  }

  /** The text of a tree, tokenized, read and evaluated, has the value of the tree, whatever the data. */
  lemma TextMeansTree(e: Expr, data: Data)
    requires HasText(e) && FitsExpr(e, 0)
    ensures Evaluate(TextOf(e), data)
         == match Eval(e, data)
            case Success(v) => Success(v)
            case Failure(error) => Failure(Syntactic(error))
  {
    hide ReadExpr, ShowAt, HasText, FitsExpr, Lex;
    TextTokens(e);
    ReadShownExpr(e, [], 0);
  }
}
