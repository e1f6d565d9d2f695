/** Which printed trees the validator accepts, and what they cost the evaluator: the price the check computes from the
    symbols is the depth counted on the tree. */
module Acceptance {
  import opened Values
  import opened Tokenizer
  import opened Syntax
  import opened Printing
  import opened RoundTrip
  import opened Grammar
  import opened Agreement

  // ----- Trees for the validator -----

  /** The tree uses only the calls the validator knows, array elements that are fields, and no deeper nesting than its
      limit, from depth `d`: the validator's counter is lowered again behind each expression. In full, none of this
      is asked for. */
  predicate CheckableAt(e: Expr, level: nat, d: nat, full: bool)
    decreases e, 1
  {
    if Level(e) < level then (full || d + 1 <= MAX_EXPRESSION_DEPTH) && Checkable(e, d + 1, full)
    else Checkable(e, d, full)
  }

  predicate CheckableExpr(e: Expr, d: nat, full: bool)
    decreases e, 2
  {
    (full || d + 1 <= MAX_EXPRESSION_DEPTH) && CheckableAt(e, 0, d + 1, full)
  }

  predicate Checkable(e: Expr, d: nat, full: bool)
    decreases e, 0
  {
    match e
    case Implies(a, b) => CheckableAt(a, 1, d, full) && CheckableAt(b, 1, d, full)
    case Or(a, b) => CheckableAt(a, 1, d, full) && CheckableAt(b, 2, d, full)
    case And(a, b) => CheckableAt(a, 2, d, full) && CheckableAt(b, 3, d, full)
    case Compare(_, a, b) => CheckableAt(a, 4, d, full) && CheckableAt(b, 4, d, full)
    case Not(a) => CheckableAt(a, 4, d, full)
    case SumList(a) => CheckableAt(a, 5, d, full)
    case SumField(a, b) => CheckableAt(a, 5, d, full) && CheckableAt(b, 5, d, full)
    case LenCall(a) => full && CheckableExpr(a, d, full)
    case Call(f, a, b) =>
      (full || f.BigintGte? || f.BigintGt?) && CheckableExpr(a, d, full) && CheckableExpr(b, d, full)
    case Every(_, _, body) => CheckableExpr(body, d, full)
    case ArrayLit(es) => ElemsCheckable(es, d, full)
    case _ => true
  }

  predicate ElemsCheckable(es: Elems, d: nat, full: bool) {
    es.Elem? ==>
      && (full || (!es.head.NumberLit? && !es.head.TextLit?))
      && Checkable(es.head, d, full) && ElemsCheckable(es.tail, d, full)
  }

  lemma {:induction false} AllInFull(e: Expr, d: nat)
    ensures Checkable(e, d, true)
    decreases e
  {
    match e
    case Implies(a, b) => AllInFull(a, d); AllInFull(a, d + 1); AllInFull(b, d); AllInFull(b, d + 1);
    case Or(a, b) => AllInFull(a, d); AllInFull(a, d + 1); AllInFull(b, d); AllInFull(b, d + 1);
    case And(a, b) => AllInFull(a, d); AllInFull(a, d + 1); AllInFull(b, d); AllInFull(b, d + 1);
    case Compare(_, a, b) => AllInFull(a, d); AllInFull(a, d + 1); AllInFull(b, d); AllInFull(b, d + 1);
    case Not(a) => AllInFull(a, d); AllInFull(a, d + 1);
    case SumList(a) => AllInFull(a, d); AllInFull(a, d + 1);
    case SumField(a, b) => AllInFull(a, d); AllInFull(a, d + 1); AllInFull(b, d); AllInFull(b, d + 1);
    case LenCall(a) => AllInFull(a, d + 1);
    case Call(_, a, b) => AllInFull(a, d + 1); AllInFull(b, d + 1);
    case Every(_, _, body) => AllInFull(body, d + 1);
    case ArrayLit(es) => AllElemsInFull(es, d);
    case _ =>
  }

  lemma {:induction false} AllElemsInFull(es: Elems, d: nat)
    ensures ElemsCheckable(es, d, true)
    decreases es
  {
    if es.Elem? {
      AllInFull(es.head, d);
      AllElemsInFull(es.tail, d);
    }
  }

  // ----- Prices -----

  /** The check accepts up to `after`, at a price that raises the counter by `spent`, and for which there is room from
      depth `x` exactly if `fits`. */
  predicate Costs(c: Check, after: seq<Symbol>, spent: nat, x: nat, fits: bool) {
    c.Accept? && c.rest == after && c.spent == spent && (HasRoom(c, x) <==> fits)
  }

  lemma ThenAssociates(a: Check, b: Check, c: Check)
    requires a.Accept? && b.Accept?
    ensures Then(a, Then(b, c)) == Then(Then(a, b), c)
  {
  }

  lemma ThenFree(a: Check)
    requires a.Accept?
    ensures Then(a, Free(a.rest)) == a
  {
  }

  lemma CostsNothing(after: seq<Symbol>, x: nat)
    ensures Costs(Free(after), after, 0, x, true)
  {
  }

  lemma CostsBoth(a: Check, mid: seq<Symbol>, m: nat, p: bool, b: Check, after: seq<Symbol>, n: nat, q: bool, x: nat)
    requires Costs(a, mid, m, x, p) && Costs(b, after, n, x + m, q)
    ensures Costs(Then(a, b), after, m + n, x, p && q)
  {
  }

  lemma CostsEntered(c: Check, after: seq<Symbol>, m: nat, p: bool, x: nat)
    requires Costs(c, after, m, x + 1, p)
    ensures Costs(Entered(c), after, 1 + m, x, x + 1 <= MAX_EXPRESSION_DEPTH && p)
  {
  }

  // ----- One step of each check -----

  lemma CheckImplication(ts: seq<Symbol>, a: Check, tb: seq<Symbol>, b: Check, after: seq<Symbol>, d: nat, full: bool)
    requires (full || d + 1 <= MAX_EXPRESSION_DEPTH) && Stops(after, 0)
    requires a.Accept? && a.rest == [Arrow] + tb && b.Accept? && b.rest == after
    requires CheckOr(ts, d + 1, full) == Then(a, CheckOrRest([Arrow] + tb, d + 1, full))
    requires CheckOr(tb, d + 1, full) == Then(b, CheckOrRest(after, d + 1, full))
    ensures CheckExpr(ts, d, full) == Entered(Then(a, b))
  {
    hide CheckOr;
    assert ([Arrow] + tb)[1..] == tb;
    ThenFree(a);
    ThenFree(b);
  }

  lemma CheckPlain(ts: seq<Symbol>, a: Check, after: seq<Symbol>, d: nat, full: bool)
    requires (full || d + 1 <= MAX_EXPRESSION_DEPTH) && Stops(after, 0) && a.Accept? && a.rest == after
    requires CheckOr(ts, d + 1, full) == Then(a, CheckOrRest(after, d + 1, full))
    ensures CheckExpr(ts, d, full) == Entered(a)
  {
    hide CheckOr;
    ThenFree(a);
  }

  lemma CheckDisjunct(ts: seq<Symbol>, a: Check, tb: seq<Symbol>, b: Check, after: seq<Symbol>, d: nat, full: bool)
    requires Stops(after, 2) && a.Accept? && b.Accept? && b.rest == after
    requires CheckOr(ts, d, full) == Then(a, CheckOrRest([Op(OrOp)] + tb, d, full))
    requires CheckAnd(tb, d, full) == Then(b, CheckAndRest(after, d, full))
    ensures CheckOr(ts, d, full) == Then(Then(a, b), CheckOrRest(after, d, full))
  {
    hide CheckOr, CheckAnd;
    assert ([Op(OrOp)] + tb)[1..] == tb;
    ThenFree(b);
    ThenAssociates(a, b, CheckOrRest(after, d, full));
  }

  lemma CheckConjunct(ts: seq<Symbol>, a: Check, tb: seq<Symbol>, b: Check, after: seq<Symbol>, d: nat, full: bool)
    requires a.Accept? && b.Accept? && b.rest == after
    requires CheckAnd(ts, d, full) == Then(a, CheckAndRest([Op(AndOp)] + tb, d, full))
    requires CheckComparison(tb, d, full) == b
    ensures CheckAnd(ts, d, full) == Then(Then(a, b), CheckAndRest(after, d, full))
  {
    hide CheckAnd, CheckComparison;
    assert ([Op(AndOp)] + tb)[1..] == tb;
    ThenAssociates(a, b, CheckAndRest(after, d, full));
  }

  lemma CheckCompared(ts: seq<Symbol>, a: Check, op: Operator, tb: seq<Symbol>, b: Check, d: nat, full: bool)
    requires ComparisonOf(op).Some? && a.Accept? && a.rest == [Op(op)] + tb
    requires CheckUnary(ts, d, full) == a && CheckUnary(tb, d, full) == b
    ensures CheckComparison(ts, d, full) == Then(a, b)
  {
    hide CheckUnary;
    assert ([Op(op)] + tb)[1..] == tb;
  }

  lemma CheckUncompared(ts: seq<Symbol>, a: Check, after: seq<Symbol>, d: nat, full: bool)
    requires Stops(after, 3) && a.Accept? && a.rest == after && CheckUnary(ts, d, full) == a
    ensures CheckComparison(ts, d, full) == a
  {
    hide CheckUnary;
  }

  lemma CheckClosed(a: Check, after: seq<Symbol>)
    requires a.Accept? && a.rest == [Close] + after
    ensures Then(a, Take(Close, a.rest)) == Accept(after, a.spent, a.peak)
  {
    assert ([Close] + after)[1..] == after;
  }

  lemma CheckParens(ts: seq<Symbol>, after: seq<Symbol>, d: nat, full: bool)
    requires var a := CheckExpr(ts, d, full); a.Accept? && a.rest == [Close] + after
    ensures var a := CheckExpr(ts, d, full);
            CheckPrimary([Open] + ts, d, full) == Accept(after, a.spent, a.peak)
  {
    hide CheckExpr;
    assert ([Open] + ts)[1..] == ts;
    CheckClosed(CheckExpr(ts, d, full), after);
  }

  lemma CheckPrimaryCall(name: string, f: Builtin, ts: seq<Symbol>, d: nat, full: bool)
    requires WordOf(name) == Function(f)
    ensures f.BigintSum? ==> CheckPrimary([Ident(name), Open] + ts, d, full) == CheckSum([Open] + ts, d, full)
    ensures f.Two? && (full || f.f.BigintGte? || f.f.BigintGt?) ==>
              CheckPrimary([Ident(name), Open] + ts, d, full) == CheckTwo([Open] + ts, d, full)
    ensures f.LenFunction? && full ==>
              CheckPrimary([Ident(name), Open] + ts, d, full) == CheckLen([Open] + ts, d, full)
    ensures f.Time? ==> CheckPrimary([Ident(name), Open] + ts, d, full) == CheckTime([Open] + ts, d, full)
  {
    hide WordOf, CheckSum, CheckTwo, CheckTime, CheckLen;
    assert ([Ident(name), Open] + ts)[1..] == [Open] + ts;
  }

  // ----- What a checkable tree is made of -----

  lemma CheckableParts(a: Expr, b: Expr, cmp: Comparison, d: nat, full: bool)
    ensures CheckableAt(Implies(a, b), 0, d, full) == (CheckableAt(a, 1, d, full) && CheckableAt(b, 1, d, full))
    ensures CheckableAt(Or(a, b), 1, d, full) == (CheckableAt(a, 1, d, full) && CheckableAt(b, 2, d, full))
    ensures CheckableAt(And(a, b), 2, d, full) == (CheckableAt(a, 2, d, full) && CheckableAt(b, 3, d, full))
    ensures CheckableAt(Compare(cmp, a, b), 3, d, full) == (CheckableAt(a, 4, d, full) && CheckableAt(b, 4, d, full))
  {
  }

  lemma SameCheckable(e: Expr, k: nat, m: nat, d: nat, full: bool)
    requires Level(e) < k <==> Level(e) < m
    ensures CheckableAt(e, k, d, full) == CheckableAt(e, m, d, full)
  {
    hide Checkable;
  }

  // ----- Printed trees -----

  lemma {:induction false} CheckShownExpr(e: Expr, after: seq<Symbol>, d: nat, full: bool, x: nat)
    requires HasText(e) && CheckableExpr(e, d, full) && Stops(after, 0)
    ensures Costs(CheckExpr(ShowAt(e, 0, after), d, full), after, 1 + DepthAt(e, 0), x, FitsExpr(e, x))
    decreases e, 0, 10
  {
    hide CheckExpr, CheckOr, CheckOrRest, HasText, FitsAt, ShowAt, DepthAt, CheckableAt, Then, Entered, HasRoom;
    if e.Implies? {
      var a, b := e.left, e.right;
      var tb := ShowAt(b, 1, after);
      CheckableParts(a, b, CmpEq, d + 1, full);
      ImplicationParts(a, b, after, x + 1);
      var ca := CheckShownOr(a, [Arrow] + tb, d + 1, full, x + 1);
      var cb := CheckShownOr(b, after, d + 1, full, x + 1 + DepthAt(a, 1));
      CheckImplication(ShowAt(e, 0, after), ca, tb, cb, after, d, full);
      CostsBoth(ca, [Arrow] + tb, DepthAt(a, 1), FitsAt(a, 1, x + 1),
                cb, after, DepthAt(b, 1), FitsAt(b, 1, x + 1 + DepthAt(a, 1)), x + 1);
      CostsEntered(Then(ca, cb), after, DepthAt(e, 0), FitsAt(e, 0, x + 1), x);
    } else {
      SameLevel(e, 0, 1, after, x + 1);
      SameCheckable(e, 0, 1, d + 1, full);
      var c := CheckShownOr(e, after, d + 1, full, x + 1);
      CheckPlain(ShowAt(e, 0, after), c, after, d, full);
      CostsEntered(c, after, DepthAt(e, 0), FitsAt(e, 0, x + 1), x);
    }
  }

  lemma {:induction false} CheckShownOr(e: Expr, after: seq<Symbol>, d: nat, full: bool, x: nat) returns (c: Check)
    requires HasText(e) && CheckableAt(e, 1, d, full) && Stops(after, 2)
    ensures Costs(c, after, DepthAt(e, 1), x, FitsAt(e, 1, x))
    ensures CheckOr(ShowAt(e, 1, after), d, full) == Then(c, CheckOrRest(after, d, full))
    decreases e, if Level(e) < 1 then 1 else 0, 9
  {
    hide CheckAnd, CheckOrRest, HasText, FitsAt, ShowAt, DepthAt, CheckableAt, Then, HasRoom;
    if e.Or? {
      hide CheckOr;
      var a, b := e.left, e.right;
      var tb := ShowAt(b, 2, after);
      CheckableParts(a, b, CmpEq, d, full);
      DisjunctionParts(a, b, after, x);
      var ca := CheckShownOr(a, [Op(OrOp)] + tb, d, full, x);
      var cb := CheckShownAnd(b, after, d, full, x + DepthAt(a, 1));
      CheckDisjunct(ShowAt(e, 1, after), ca, tb, cb, after, d, full);
      CostsBoth(ca, [Op(OrOp)] + tb, DepthAt(a, 1), FitsAt(a, 1, x),
                cb, after, DepthAt(b, 2), FitsAt(b, 2, x + DepthAt(a, 1)), x);
      c := Then(ca, cb);
    } else {
      SameLevel(e, 1, 2, after, x);
      SameCheckable(e, 1, 2, d, full);
      c := CheckShownAnd(e, after, d, full, x);
      NoConjunct(c, after, d, full);
    }
  }

  lemma NoConjunct(c: Check, after: seq<Symbol>, d: nat, full: bool)
    requires Stops(after, 2) && c.Accept? && c.rest == after
    ensures Then(c, CheckAndRest(after, d, full)) == c
  {
    ThenFree(c);
  }

  lemma {:induction false} CheckShownAnd(e: Expr, after: seq<Symbol>, d: nat, full: bool, x: nat) returns (c: Check)
    requires HasText(e) && CheckableAt(e, 2, d, full) && Stops(after, 3)
    ensures Costs(c, after, DepthAt(e, 2), x, FitsAt(e, 2, x))
    ensures CheckAnd(ShowAt(e, 2, after), d, full) == Then(c, CheckAndRest(after, d, full))
    decreases e, if Level(e) < 2 then 1 else 0, 8
  {
    hide CheckComparison, CheckAndRest, HasText, FitsAt, ShowAt, DepthAt, CheckableAt, Then, HasRoom;
    if e.And? {
      hide CheckAnd;
      var a, b := e.left, e.right;
      var tb := ShowAt(b, 3, after);
      CheckableParts(a, b, CmpEq, d, full);
      ConjunctionParts(a, b, after, x);
      var ca := CheckShownAnd(a, [Op(AndOp)] + tb, d, full, x);
      CheckShownComparison(b, after, d, full, x + DepthAt(a, 2));
      var cb := CheckComparison(tb, d, full);
      CheckConjunct(ShowAt(e, 2, after), ca, tb, cb, after, d, full);
      CostsBoth(ca, [Op(AndOp)] + tb, DepthAt(a, 2), FitsAt(a, 2, x),
                cb, after, DepthAt(b, 3), FitsAt(b, 3, x + DepthAt(a, 2)), x);
      c := Then(ca, cb);
    } else {
      SameLevel(e, 2, 3, after, x);
      SameCheckable(e, 2, 3, d, full);
      CheckShownComparison(e, after, d, full, x);
      c := CheckComparison(ShowAt(e, 2, after), d, full);
    }
  }

  lemma {:induction false} CheckShownComparison(e: Expr, after: seq<Symbol>, d: nat, full: bool, x: nat)
    requires HasText(e) && CheckableAt(e, 3, d, full) && Stops(after, 3)
    ensures Costs(CheckComparison(ShowAt(e, 3, after), d, full), after, DepthAt(e, 3), x, FitsAt(e, 3, x))
    decreases e, if Level(e) < 3 then 1 else 0, 7
  {
    hide CheckUnary, CheckComparison, HasText, FitsAt, ShowAt, DepthAt, CheckableAt, Then, HasRoom;
    if e.Compare? {
      var a, b, op := e.left, e.right, ComparisonOp(e.cmp);
      var tb := ShowAt(b, 4, after);
      CheckableParts(a, b, e.cmp, d, full);
      ComparisonParts(e.cmp, a, b, after, x);
      CheckShownUnary(a, [Op(op)] + tb, d, full, x);
      CheckShownUnary(b, after, d, full, x + DepthAt(a, 4));
      var ca, cb := CheckUnary(ShowAt(e, 3, after), d, full), CheckUnary(tb, d, full);
      CheckCompared(ShowAt(e, 3, after), ca, op, tb, cb, d, full);
      CostsBoth(ca, [Op(op)] + tb, DepthAt(a, 4), FitsAt(a, 4, x),
                cb, after, DepthAt(b, 4), FitsAt(b, 4, x + DepthAt(a, 4)), x);
    } else {
      SameLevel(e, 3, 4, after, x);
      SameCheckable(e, 3, 4, d, full);
      CheckShownUnary(e, after, d, full, x);
      CheckUncompared(ShowAt(e, 3, after), CheckUnary(ShowAt(e, 3, after), d, full), after, d, full);
    }
  }

  lemma {:induction false} CheckShownUnary(e: Expr, after: seq<Symbol>, d: nat, full: bool, x: nat)
    requires HasText(e) && CheckableAt(e, 4, d, full) && Stops(after, 5)
    ensures Costs(CheckUnary(ShowAt(e, 4, after), d, full), after, DepthAt(e, 4), x, FitsAt(e, 4, x))
    decreases e, if Level(e) < 4 then 1 else 0, 6
  {
    hide CheckPrimary, IsFieldPath, IsIdentifier, IsNumeral, HasRoom;
    if e.Not? {
      var ts := ShowAt(e, 4, after);
      assert ts == Show(e, after) == [Op(NotOp)] + ShowAt(e.operand, 4, after);
      assert ts[1..] == ShowAt(e.operand, 4, after);
      CheckShownUnary(e.operand, after, d, full, x);
    } else {
      OperandStarts(e, after);
      CheckShownPrimary(e, after, d, full, x);
    }
  }

  lemma {:induction false} CheckShownPrimary(e: Expr, after: seq<Symbol>, d: nat, full: bool, x: nat)
    requires HasText(e) && CheckableAt(e, 5, d, full) && Stops(after, 5)
    ensures Costs(CheckPrimary(ShowAt(e, 5, after), d, full), after, DepthAt(e, 5), x, FitsAt(e, 5, x))
    decreases e, if Level(e) < 5 then 1 else 0, 5
  {
    hide CheckPrimary, Show, HasText, Fits, Depth, Checkable;
    if Level(e) < 5 {
      CheckShownExpr(e, [Close] + after, d, full, x);
      CheckParens(ShowAt(e, 0, [Close] + after), after, d, full);
    } else {
      CheckShownOperand(e, after, d, full, x);
    }
  }

  /** A call. */
  lemma {:induction false} CheckShownFunction(e: Expr, after: seq<Symbol>, d: nat, full: bool, x: nat)
    requires e.SumList? || e.SumField? || e.LenCall? || e.Call? || e.Temporal?
    requires HasText(e) && Checkable(e, d, full) && Stops(after, 5)
    ensures Costs(CheckPrimary(Show(e, after), d, full), after, Depth(e), x, Fits(e, x))
    decreases e, 0, 4, 0
  {
    hide CheckPrimary, CheckSum, CheckTwo, CheckTime, CheckLen, WordOf, ShowAt, DepthAt, FitsAt, Split, HasRoom, Costs;
    hide CheckableAt, ShowPath, IsPath, IsFieldPath;
    KeywordFacts();
    CostsNothing(after, x);
    match e
    case SumList(a) =>
      CheckPrimaryCall("bigint_sum", BigintSum, ShowAt(a, 5, [Close] + after), d, full);
      CheckShownSumList(a, after, d, full, x);
    case SumField(a, b) =>
      CheckPrimaryCall("bigint_sum", BigintSum, ShowAt(a, 5, [Comma] + ShowAt(b, 5, [Close] + after)), d, full);
      CheckShownSumField(a, b, after, d, full, x);
    case LenCall(a) =>
      CheckPrimaryCall("len", LenFunction, ShowAt(a, 0, [Close] + after), d, full);
      CheckShownLen(a, after, d, x);
    case Call(f, a, b) =>
      CheckPrimaryCall(FunctionName(f), Two(f), ShowAt(a, 0, [Comma] + ShowAt(b, 0, [Close] + after)), d, full);
      CheckShownCall(f, a, b, after, d, full, x);
    case Temporal(op, path) =>
      CheckPrimaryCall(TemporalName(op), Time(op), ShowPath(path, [Close] + after), d, full);
      CheckShownTemporal(path, after, d, full);
  }

  lemma {:induction false} CheckShownOperand(e: Expr, after: seq<Symbol>, d: nat, full: bool, x: nat)
    requires Level(e) == 5 && HasText(e) && Checkable(e, d, full) && Stops(after, 5)
    ensures Costs(CheckPrimary(Show(e, after), d, full), after, Depth(e), x, Fits(e, x))
    decreases e, 0, 4, 1
  {
    hide CheckPrimary, WordOf, ShowElems, ShowAt, DepthAt, FitsAt, Split, HasRoom;
    CostsNothing(after, x);
    match e
    case SumList(_) => CheckShownFunction(e, after, d, full, x);
    case SumField(_, _) => CheckShownFunction(e, after, d, full, x);
    case LenCall(_) => CheckShownFunction(e, after, d, full, x);
    case Call(_, _, _) => CheckShownFunction(e, after, d, full, x);
    case Temporal(_, _) => CheckShownFunction(e, after, d, full, x);
    case ArrayLit(es) =>
      CheckShownElems(es, after, d, full, x);
      assert Show(e, after)[1..] == ShowElems(es, [BracketClose] + after);
      CheckArray(Show(e, after), d, full);
    case Field(path) => CheckShownPath(e, path, after, d, full, x);
    case LengthOf(path) => CheckShownPath(e, path, after, d, full, x);
    case Every(path, _, _) => CheckShownPath(e, path, after, d, full, x);
    case _ => CheckShownLiteral(e, after, d, full);
  }

  lemma CheckArray(ts: seq<Symbol>, d: nat, full: bool)
    requires At(ts, BracketOpen)
    ensures CheckPrimary(ts, d, full) == CheckElems(ts[1..], d, full)
  {
    hide CheckElems;
  }

  lemma CheckShownLiteral(e: Expr, after: seq<Symbol>, d: nat, full: bool)
    requires e.NumberLit? || e.TextLit? || e.NullLit? || e.BoolLit?
    ensures CheckPrimary(Show(e, after), d, full) == Free(after)
  {
    hide WordOf;
    KeywordFacts();
    assert Show(e, after)[1..] == after;
  }

  lemma {:induction false} CheckShownPath(e: Expr, path: string, after: seq<Symbol>, d: nat, full: bool, x: nat)
    requires e == Field(path) || e == LengthOf(path) || (e.Every? && e.path == path)
    requires HasText(e) && Checkable(e, d, full) && Stops(after, 5)
    ensures Costs(CheckPrimary(Show(e, after), d, full), after, 0, x, Fits(e, x))
    decreases e, 0, 3, 1
  {
    hide CheckField, WordOf, IsPath, CheckableExpr, FitsExpr, ShowParts, HasRoom;
    CheckShownField(e, after, d, full, x);
    assert Show(e, after)[0] == Ident(Split(path, '.')[0]);
  }

  lemma {:induction false} CheckShownField(e: Expr, after: seq<Symbol>, d: nat, full: bool, x: nat)
    requires e.Field? || e.LengthOf? || e.Every?
    requires HasText(e) && Checkable(e, d, full) && Stops(after, 5)
    ensures Costs(CheckField(Show(e, after), d, full, false), after, 0, x, Fits(e, x))
    decreases e, 0, 3, 0
  {
    hide CheckField, CheckPath, CheckExpr, CheckEvery, ShowAt, ShowPath, IsPath, WordOf, HasRoom;
    CostsNothing(after, x);
    CheckPathEnd(after, d, full);
    match e
    case Field(path) => CheckShownParts(path, after, d, full, false);
    case LengthOf(path) => CheckShownParts(path, [Dot, Ident("length")] + after, d, full, false);
    case Every(path, param, body) =>
      CheckShownQuantifier(path, param, body, after, d, full);
      CheckShownEvery(param, body, after, d, full, x);
  }

  lemma CheckShownQuantifier(path: string, param: string, body: Expr, after: seq<Symbol>, d: nat, full: bool)
    requires IsPath(path)
    ensures CheckField(Show(Every(path, param, body), after), d, full, false)
         == CheckEvery([Open, Ident(param), Arrow] + ShowAt(body, 0, [Close] + after), d, full)
  {
    hide CheckField, CheckPath, CheckExpr, CheckEvery, ShowAt, ShowPath, IsPath;
    var rest := [Open, Ident(param), Arrow] + ShowAt(body, 0, [Close] + after);
    assert [Dot, Ident("every")] + rest
        == [Dot, Ident("every"), Open, Ident(param), Arrow] + ShowAt(body, 0, [Close] + after);
    CheckPathEnd(rest, d, full);
    CheckShownParts(path, [Dot, Ident("every")] + rest, d, full, false);
  }

  lemma CheckPathEnd(after: seq<Symbol>, d: nat, full: bool)
    ensures !At(after, Dot) ==> CheckPath(after, d, full, false) == Free(after)
    ensures CheckPath([Dot, Ident("length")] + after, d, full, false) == Free(after)
    ensures CheckPath([Dot, Ident("every")] + after, d, full, false) == CheckEvery(after, d, full)
  {
    hide CheckEvery, MemberOf;
    MemberFacts();
    assert ([Dot, Ident("length")] + after)[2..] == ([Dot, Ident("every")] + after)[2..] == after;
  }

  lemma {:induction false} CheckParts(parts: seq<string>, after: seq<Symbol>, d: nat, full: bool, plain: bool)
    requires forall p :: p in parts ==> MemberOf(p) == PlainMember
    ensures CheckPath(ShowParts(parts, after), d, full, plain) == CheckPath(after, d, full, plain)
    decreases |parts|
  {
    hide MemberOf;
    if parts != [] {
      var ts := ShowParts(parts, after);
      assert parts[0] in parts;
      assert ts[1] == Ident(parts[0]) && ts[2..] == ShowParts(parts[1..], after);
      CheckParts(parts[1..], after, d, full, plain);
    }
  }

  lemma CheckShownParts(path: string, after: seq<Symbol>, d: nat, full: bool, plain: bool)
    requires IsPath(path)
    ensures CheckField(ShowPath(path, after), d, full, plain) == CheckPath(after, d, full, plain)
  {
    hide MemberOf, CheckPath, IsIdentifier;
    var parts := Split(path, '.');
    CheckParts(parts[1..], after, d, full, plain);
    assert ShowPath(path, after)[1..] == ShowParts(parts[1..], after);
  }

  lemma {:induction false} CheckShownEvery(param: string, body: Expr, after: seq<Symbol>, d: nat, full: bool, x: nat)
    requires HasText(body) && CheckableExpr(body, d, full)
    ensures Costs(CheckEvery([Open, Ident(param), Arrow] + ShowAt(body, 0, [Close] + after), d, full),
                  after, 0, x, FitsExpr(body, x))
    decreases body, 1
  {
    hide CheckExpr, ShowAt, HasText, FitsExpr, CheckableExpr;
    var inner := ShowAt(body, 0, [Close] + after);
    var ts := [Open, Ident(param), Arrow] + inner;
    assert ts[2..] == [Arrow] + inner && ts[3..] == inner;
    CheckShownExpr(body, [Close] + after, d, full, x);
    CheckClosed(CheckExpr(inner, d, full), after);
  }

  lemma {:induction false} CheckShownElems(es: Elems, after: seq<Symbol>, d: nat, full: bool, x: nat)
    requires ElemsHaveText(es) && ElemsCheckable(es, d, full)
    ensures Costs(CheckElems(ShowElems(es, [BracketClose] + after), d, full), after, 0, x, ElemsFit(es, x))
    decreases es, 0, 3
  {
    hide CheckElement, CheckElems, HasRoom, Then, Show, Fits, HasText, Checkable, IsElement;
    var closed := [BracketClose] + after;
    var ts := ShowElems(es, closed);
    assert closed[1..] == after;
    CostsNothing(after, x);
    CheckElemsStep(ts, d, full);
    if es.Elem? {
      var last := es.tail.NoElems?;
      var rest := ShowElems(es.tail, closed);
      var next := if last then closed else [Comma] + rest;
      assert ([Comma] + rest)[1..] == rest;
      CheckShownElement(es.head, next, d, full, x);
      CheckShownElems(es.tail, after, d, full, x);
      var c, cs := CheckElement(ts, d, full), CheckElems(rest, d, full);
      CostsBoth(c, next, 0, Fits(es.head, x), cs, after, 0, ElemsFit(es.tail, x), x);
    }
  }

  lemma {:induction false} CheckShownElement(e: Expr, after: seq<Symbol>, d: nat, full: bool, x: nat)
    requires IsElement(e) && HasText(e) && Checkable(e, d, full) && Stops(after, 5)
    requires full || (!e.NumberLit? && !e.TextLit?)
    ensures Show(e, after) != [] && Show(e, after)[0] != BracketClose
    ensures Costs(CheckElement(Show(e, after), d, full), after, 0, x, Fits(e, x))
    decreases e, 0, 4
  {
    hide CheckField, IsFieldPath, HasRoom;
    CostsNothing(after, x);
    var ts := Show(e, after);
    if e.NumberLit? || e.TextLit? {
      assert ts[1..] == after;
    } else {
      FieldFirst(e, after);
      CheckShownField(e, after, d, full, x);
    }
  }

  lemma CheckElemsStep(ts: seq<Symbol>, d: nat, full: bool)
    ensures At(ts, BracketClose) ==> CheckElems(ts, d, full) == Free(ts[1..])
    ensures ts != [] && ts[0] != BracketClose && CheckElement(ts, d, full).Accept? ==>
              var c := CheckElement(ts, d, full);
              CheckElems(ts, d, full)
              == Then(c, CheckElems(if At(c.rest, Comma) then c.rest[1..] else c.rest, d, full))
  {
    hide CheckElement;
  }

  lemma FieldFirst(e: Expr, after: seq<Symbol>)
    requires e.Field? || e.LengthOf? || e.Every?
    ensures Show(e, after) != [] && Show(e, after)[0].Ident?
  {
    hide ShowParts;
  }

  lemma {:induction false} CheckShownSumList(a: Expr, after: seq<Symbol>, d: nat, full: bool, x: nat)
    requires HasText(a) && CheckableAt(a, 5, d, full)
    ensures Costs(CheckSum([Open] + ShowAt(a, 5, [Close] + after), d, full), after, DepthAt(a, 5), x, FitsAt(a, 5, x))
    decreases a, 1, 10
  {
    hide CheckPrimary, HasText, FitsAt, CheckableAt, ShowAt, DepthAt;
    var closed := [Close] + after;
    var ts := [Open] + ShowAt(a, 5, closed);
    assert ts[1..] == ShowAt(a, 5, closed);
    CheckShownPrimary(a, closed, d, full, x);
    CheckClosed(CheckPrimary(ts[1..], d, full), after);
  }

  lemma {:induction false} CheckShownSumField(a: Expr, b: Expr, after: seq<Symbol>, d: nat, full: bool, x: nat)
    requires HasText(a) && HasText(b) && CheckableAt(a, 5, d, full) && CheckableAt(b, 5, d, full)
    ensures Costs(CheckSum([Open] + ShowAt(a, 5, [Comma] + ShowAt(b, 5, [Close] + after)), d, full),
                  after, DepthAt(a, 5) + DepthAt(b, 5), x, FitsAt(a, 5, x) && FitsAt(b, 5, x + DepthAt(a, 5)))
    decreases SumField(a, b), 0, 3
  {
    hide CheckPrimary, HasText, FitsAt, CheckableAt, ShowAt, DepthAt, HasRoom, Then;
    var closed := [Close] + after;
    var second := [Comma] + ShowAt(b, 5, closed);
    var ts := [Open] + ShowAt(a, 5, second);
    assert ts[1..] == ShowAt(a, 5, second) && second[1..] == ShowAt(b, 5, closed);
    CheckShownPrimary(a, second, d, full, x);
    CheckShownPrimary(b, closed, d, full, x + DepthAt(a, 5));
    var ca, cb := CheckPrimary(ts[1..], d, full), CheckPrimary(second[1..], d, full);
    CostsClosed(cb, after, DepthAt(b, 5), x + DepthAt(a, 5), FitsAt(b, 5, x + DepthAt(a, 5)));
    CostsBoth(ca, second, DepthAt(a, 5), FitsAt(a, 5, x),
              Then(cb, Take(Close, cb.rest)), after, DepthAt(b, 5), FitsAt(b, 5, x + DepthAt(a, 5)), x);
  }

  lemma CostsClosed(c: Check, after: seq<Symbol>, m: nat, x: nat, p: bool)
    requires Costs(c, [Close] + after, m, x, p)
    ensures Costs(Then(c, Take(Close, c.rest)), after, m, x, p)
  {
    CheckClosed(c, after);
  }

  lemma {:induction false} CheckShownLen(a: Expr, after: seq<Symbol>, d: nat, x: nat)
    requires HasText(a) && CheckableExpr(a, d, true)
    ensures Costs(CheckLen([Open] + ShowAt(a, 0, [Close] + after), d, true),
                  after, 1 + DepthAt(a, 0), x, FitsExpr(a, x))
    decreases a, 1, 10
  {
    hide CheckExpr, HasText, FitsExpr, CheckableExpr, ShowAt, DepthAt;
    var closed := [Close] + after;
    var ts := [Open] + ShowAt(a, 0, closed);
    assert ts[1..] == ShowAt(a, 0, closed);
    CheckShownExpr(a, closed, d, true, x);
    CostsClosed(CheckExpr(ts[1..], d, true), after, 1 + DepthAt(a, 0), x, FitsExpr(a, x));
  }

  lemma {:induction false} CheckShownCall(f: TwoArguments, a: Expr, b: Expr, after: seq<Symbol>, d: nat, full: bool,
                                          x: nat)
    requires HasText(a) && HasText(b) && CheckableExpr(a, d, full) && CheckableExpr(b, d, full)
    ensures Costs(CheckTwo([Open] + ShowAt(a, 0, [Comma] + ShowAt(b, 0, [Close] + after)), d, full),
                  after, 1 + DepthAt(a, 0) + 1 + DepthAt(b, 0), x,
                  FitsExpr(a, x) && FitsExpr(b, x + 1 + DepthAt(a, 0)))
    decreases Call(f, a, b), 0, 3
  {
    hide CheckExpr, HasText, FitsExpr, CheckableExpr, ShowAt, DepthAt, HasRoom, Then;
    var closed := [Close] + after;
    var second := [Comma] + ShowAt(b, 0, closed);
    var ts := [Open] + ShowAt(a, 0, second);
    var m, n := 1 + DepthAt(a, 0), 1 + DepthAt(b, 0);
    assert ts[1..] == ShowAt(a, 0, second) && second[1..] == ShowAt(b, 0, closed);
    CheckShownExpr(a, second, d, full, x);
    CheckShownExpr(b, closed, d, full, x + m);
    var ca, cb := CheckExpr(ts[1..], d, full), CheckExpr(second[1..], d, full);
    CostsClosed(cb, after, n, x + m, FitsExpr(b, x + m));
    CostsBoth(ca, second, m, FitsExpr(a, x),
              Then(cb, Take(Close, cb.rest)), after, n, FitsExpr(b, x + m), x);
  }

  lemma CheckShownTemporal(path: string, after: seq<Symbol>, d: nat, full: bool)
    requires IsPath(path)
    ensures CheckTime([Open] + ShowPath(path, [Close] + after), d, full) == Free(after)
  {
    hide CheckField, IsPath, ShowPath;
    var closed := [Close] + after;
    var ts := [Open] + ShowPath(path, closed);
    assert ts[1..] == ShowPath(path, closed);
    CheckShownParts(path, closed, d, full, full);
    CheckClosed(Free(closed), after);
  }

  /** In full, the check accepts the text of every tree that has one, and the price it finds on the symbols is within
      the depth limit exactly if the tree fits. */
  lemma PriceIsDepth(e: Expr)
    requires HasText(e)
    ensures var full := CheckExpr(ShowAt(e, 0, []), 0, true);
            full.Accept? && full.rest == [] && (full.peak <= MAX_EXPRESSION_DEPTH <==> FitsExpr(e, 0))
  {
    hide HasText, Checkable, CheckExpr, FitsExpr, ShowAt;
    AllInFull(e, 1);
    CheckShownExpr(e, [], 0, true, 0);
  }

  /** The validator accepts the text of every tree that uses only what it knows, within its own limit. */
  lemma CheckableTreesAreValid(e: Expr)
    requires HasText(e) && CheckableExpr(e, 0, false)
    ensures Validate(TextOf(e)).Valid?
  {
    hide HasText, CheckableExpr, Lex, CheckExpr, TextOf, ShowAt;
    TextTokens(e);
    CheckShownExpr(e, [], 0, false, 0);
  }
}
