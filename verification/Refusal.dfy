/** Which printed trees the validator refuses: all others than those `Acceptance` shows it to accept. A call it does not
    know is read as a field path, and leaves its parenthesis behind, on which every context stumbles. */
module Refusal {
  import opened Values
  import opened Tokenizer
  import opened Syntax
  import opened Printing
  import opened RoundTrip
  import opened Grammar
  import opened Acceptance

  /** The check stops with an error, or in front of a parenthesis that opens. */
  predicate Refuses(c: Check) {
    c.Reject? || At(c.rest, Open)
  }

  // ----- One step of each check -----

  lemma RefusedBehind(a: Check, c: Check)
    requires a.Accept? && Refuses(c)
    ensures Refuses(Then(a, c))
  {
  }

  /** A refused stretch is refused by all that goes on behind it. */
  lemma RefusedOn(c: Check, d: nat)
    requires c.Accept? && At(c.rest, Open)
    ensures CheckOrRest(c.rest, d, false) == CheckAndRest(c.rest, d, false) == Free(c.rest)
    ensures !AtComparison(c.rest) && !At(c.rest, Arrow) && !At(c.rest, Comma) && !At(c.rest, Dot)
    ensures Take(Close, c.rest).Reject?
    ensures Refuses(Then(c, Free(c.rest))) && Refuses(Then(c, Take(Close, c.rest)))
  {
  }

  lemma RefusedUnary(ts: seq<Symbol>, d: nat)
    requires Refuses(CheckUnary(ts, d, false))
    ensures Refuses(CheckComparison(ts, d, false))
  {
    hide CheckUnary;
  }

  lemma RefusedComparison(ts: seq<Symbol>, d: nat)
    requires Refuses(CheckComparison(ts, d, false))
    ensures Refuses(CheckAnd(ts, d, false))
  {
    hide CheckComparison;
    var c := CheckComparison(ts, d, false);
    if c.Accept? {
      RefusedOn(c, d);
    }
  }

  lemma RefusedAnd(ts: seq<Symbol>, d: nat)
    requires Refuses(CheckAnd(ts, d, false))
    ensures Refuses(CheckOr(ts, d, false))
    ensures forall us :: us == [Op(OrOp)] + ts ==> Refuses(CheckOrRest(us, d, false))
  {
    hide CheckAnd;
    var c := CheckAnd(ts, d, false);
    assert ([Op(OrOp)] + ts)[1..] == ts;
    if c.Accept? {
      RefusedOn(c, d);
    }
  }

  lemma RefusedOr(ts: seq<Symbol>, d: nat)
    requires Refuses(CheckOr(ts, d + 1, false))
    ensures Refuses(CheckExpr(ts, d, false))
  {
    hide CheckOr;
  }

  lemma RefusedArrow(ts: seq<Symbol>, a: Check, tb: seq<Symbol>, d: nat)
    requires a.Accept? && a.rest == [Arrow] + tb && Refuses(CheckOr(tb, d + 1, false))
    requires CheckOr(ts, d + 1, false) == Then(a, CheckOrRest([Arrow] + tb, d + 1, false))
    ensures Refuses(CheckExpr(ts, d, false))
  {
    hide CheckOr;
    assert ([Arrow] + tb)[1..] == tb;
    ThenFree(a);
  }

  lemma RefusedConjunct(ts: seq<Symbol>, a: Check, tb: seq<Symbol>, d: nat)
    requires a.Accept? && Refuses(CheckComparison(tb, d, false))
    requires CheckAnd(ts, d, false) == Then(a, CheckAndRest([Op(AndOp)] + tb, d, false))
    ensures Refuses(CheckAnd(ts, d, false))
  {
    hide CheckComparison, CheckAnd;
    assert ([Op(AndOp)] + tb)[1..] == tb;
    var c := CheckComparison(tb, d, false);
    if c.Accept? {
      RefusedOn(c, d);
    }
  }

  lemma RefusedCompared(ts: seq<Symbol>, op: Operator, tb: seq<Symbol>, d: nat)
    requires ComparisonOf(op).Some? && Refuses(CheckUnary(tb, d, false))
    requires CheckUnary(ts, d, false).Accept? && CheckUnary(ts, d, false).rest == [Op(op)] + tb
    ensures Refuses(CheckComparison(ts, d, false))
  {
    hide CheckUnary;
    assert ([Op(op)] + tb)[1..] == tb;
  }

  lemma RefusedParens(ts: seq<Symbol>, d: nat)
    requires Refuses(CheckExpr(ts, d, false))
    ensures CheckPrimary([Open] + ts, d, false).Reject?
  {
    hide CheckExpr;
    assert ([Open] + ts)[1..] == ts;
  }

  // ----- Printed trees -----

  lemma {:induction false} RefuseExpr(e: Expr, after: seq<Symbol>, d: nat)
    requires HasText(e) && !CheckableExpr(e, d, false) && Stops(after, 0)
    ensures Refuses(CheckExpr(ShowAt(e, 0, after), d, false))
    decreases e, 0, 10
  {
    hide CheckOr, CheckOrRest, HasText, ShowAt, CheckableAt, Then;
    if d + 1 <= MAX_EXPRESSION_DEPTH {
      hide CheckExpr;
      if e.Implies? {
        var a, b := e.left, e.right;
        var tb := ShowAt(b, 1, after);
        CheckableParts(a, b, CmpEq, d + 1, false);
        ImplicationParts(a, b, after, 0);
        if !CheckableAt(a, 1, d + 1, false) {
          RefuseOr(a, [Arrow] + tb, d + 1);
          RefusedOr(ShowAt(e, 0, after), d);
        } else {
          var ca := CheckShownOr(a, [Arrow] + tb, d + 1, false, 0);
          RefuseOr(b, after, d + 1);
          RefusedArrow(ShowAt(e, 0, after), ca, tb, d);
        }
      } else {
        SameLevel(e, 0, 1, after, 0);
        SameCheckable(e, 0, 1, d + 1, false);
        RefuseOr(e, after, d + 1);
        RefusedOr(ShowAt(e, 0, after), d);
      }
    }
  }

  lemma {:induction false} RefuseOr(e: Expr, after: seq<Symbol>, d: nat)
    requires HasText(e) && !CheckableAt(e, 1, d, false) && Stops(after, 2)
    ensures Refuses(CheckOr(ShowAt(e, 1, after), d, false))
    decreases e, if Level(e) < 1 then 1 else 0, 9
  {
    hide CheckAnd, CheckOr, CheckOrRest, HasText, ShowAt, CheckableAt, Then;
    if e.Or? {
      var a, b := e.left, e.right;
      var tb := ShowAt(b, 2, after);
      CheckableParts(a, b, CmpEq, d, false);
      DisjunctionParts(a, b, after, 0);
      if !CheckableAt(a, 1, d, false) {
        RefuseOr(a, [Op(OrOp)] + tb, d);
      } else {
        var ca := CheckShownOr(a, [Op(OrOp)] + tb, d, false, 0);
        RefuseAnd(b, after, d);
        RefusedAnd(tb, d);
        RefusedBehind(ca, CheckOrRest([Op(OrOp)] + tb, d, false));
      }
    } else {
      SameLevel(e, 1, 2, after, 0);
      SameCheckable(e, 1, 2, d, false);
      RefuseAnd(e, after, d);
      RefusedAnd(ShowAt(e, 1, after), d);
    }
  }

  lemma {:induction false} RefuseAnd(e: Expr, after: seq<Symbol>, d: nat)
    requires HasText(e) && !CheckableAt(e, 2, d, false) && Stops(after, 3)
    ensures Refuses(CheckAnd(ShowAt(e, 2, after), d, false))
    decreases e, if Level(e) < 2 then 1 else 0, 8
  {
    hide CheckComparison, CheckAnd, CheckAndRest, HasText, ShowAt, CheckableAt, Then;
    if e.And? {
      var a, b := e.left, e.right;
      var tb := ShowAt(b, 3, after);
      CheckableParts(a, b, CmpEq, d, false);
      ConjunctionParts(a, b, after, 0);
      if !CheckableAt(a, 2, d, false) {
        RefuseAnd(a, [Op(AndOp)] + tb, d);
      } else {
        var ca := CheckShownAnd(a, [Op(AndOp)] + tb, d, false, 0);
        RefuseComparison(b, after, d);
        RefusedConjunct(ShowAt(e, 2, after), ca, tb, d);
      }
    } else {
      SameLevel(e, 2, 3, after, 0);
      SameCheckable(e, 2, 3, d, false);
      RefuseComparison(e, after, d);
      RefusedComparison(ShowAt(e, 2, after), d);
    }
  }

  lemma {:induction false} RefuseComparison(e: Expr, after: seq<Symbol>, d: nat)
    requires HasText(e) && !CheckableAt(e, 3, d, false) && Stops(after, 3)
    ensures Refuses(CheckComparison(ShowAt(e, 3, after), d, false))
    decreases e, if Level(e) < 3 then 1 else 0, 7
  {
    hide CheckUnary, CheckComparison, HasText, ShowAt, CheckableAt, Then;
    if e.Compare? {
      var a, b, op := e.left, e.right, ComparisonOp(e.cmp);
      var tb := ShowAt(b, 4, after);
      CheckableParts(a, b, e.cmp, d, false);
      ComparisonParts(e.cmp, a, b, after, 0);
      if !CheckableAt(a, 4, d, false) {
        RefuseUnary(a, [Op(op)] + tb, d);
        RefusedUnary(ShowAt(e, 3, after), d);
      } else {
        CheckShownUnary(a, [Op(op)] + tb, d, false, 0);
        RefuseUnary(b, after, d);
        RefusedCompared(ShowAt(e, 3, after), op, tb, d);
      }
    } else {
      SameLevel(e, 3, 4, after, 0);
      SameCheckable(e, 3, 4, d, false);
      RefuseUnary(e, after, d);
      RefusedUnary(ShowAt(e, 3, after), d);
    }
  }

  lemma {:induction false} RefuseUnary(e: Expr, after: seq<Symbol>, d: nat)
    requires HasText(e) && !CheckableAt(e, 4, d, false) && Stops(after, 5)
    ensures Refuses(CheckUnary(ShowAt(e, 4, after), d, false))
    decreases e, if Level(e) < 4 then 1 else 0, 6
  {
    hide CheckPrimary, IsFieldPath, IsIdentifier, IsNumeral;
    if e.Not? {
      var ts := ShowAt(e, 4, after);
      assert ts == Show(e, after) == [Op(NotOp)] + ShowAt(e.operand, 4, after);
      assert ts[1..] == ShowAt(e.operand, 4, after);
      RefuseUnary(e.operand, after, d);
    } else {
      OperandStarts(e, after);
      RefusePrimary(e, after, d);
    }
  }

  lemma {:induction false} RefusePrimary(e: Expr, after: seq<Symbol>, d: nat)
    requires HasText(e) && !CheckableAt(e, 5, d, false) && Stops(after, 5)
    ensures Refuses(CheckPrimary(ShowAt(e, 5, after), d, false))
    decreases e, if Level(e) < 5 then 1 else 0, 5
  {
    hide CheckPrimary, Show, HasText, Checkable;
    if Level(e) < 5 {
      RefuseExpr(e, [Close] + after, d);
      RefusedParens(ShowAt(e, 0, [Close] + after), d);
    } else {
      RefuseOperand(e, after, d);
    }
  }

  lemma {:induction false} RefuseOperand(e: Expr, after: seq<Symbol>, d: nat)
    requires Level(e) == 5 && HasText(e) && !Checkable(e, d, false) && Stops(after, 5)
    ensures Refuses(CheckPrimary(Show(e, after), d, false))
    decreases e, 0, 4, 1
  {
    hide CheckPrimary, WordOf, ShowElems, ShowAt, Split, Refuses, CheckableExpr, CheckableAt;
    match e
    case SumList(_) => RefuseSum(e, after, d);
    case SumField(_, _) => RefuseSum(e, after, d);
    case LenCall(_) => RefuseCall(e, after, d);
    case Call(_, _, _) => RefuseCall(e, after, d);
    case ArrayLit(es) =>
      RefuseElems(es, after, d);
      assert Show(e, after)[1..] == ShowElems(es, [BracketClose] + after);
      CheckArray(Show(e, after), d, false);
    case Every(path, _, _) =>
      RefuseEvery(e, after, d);
      assert Show(e, after)[0] == Ident(Split(path, '.')[0]);
      CheckFieldFirst(Split(path, '.')[0], Show(e, after), d);
    case _ =>
  }

  lemma {:induction false} RefuseSum(e: Expr, after: seq<Symbol>, d: nat)
    requires e.SumList? || e.SumField?
    requires HasText(e) && !Checkable(e, d, false)
    ensures Refuses(CheckPrimary(Show(e, after), d, false))
    decreases e, 0, 4, 0
  {
    hide CheckPrimary, CheckSum, WordOf, ShowAt, Refuses, CheckableAt;
    KeywordFacts();
    var a, closed := e.list, [Close] + after;
    if e.SumList? {
      CheckPrimaryCall("bigint_sum", BigintSum, ShowAt(a, 5, closed), d, false);
      RefusePrimary(a, closed, d);
      RefusedSum(ShowAt(a, 5, closed), d);
    } else {
      var tb := ShowAt(e.name, 5, closed);
      var second := [Comma] + tb;
      CheckPrimaryCall("bigint_sum", BigintSum, ShowAt(a, 5, second), d, false);
      if !CheckableAt(a, 5, d, false) {
        RefusePrimary(a, second, d);
        RefusedSum(ShowAt(a, 5, second), d);
      } else {
        CheckShownPrimary(a, second, d, false, 0);
        RefusePrimary(e.name, closed, d);
        RefusedSecond(ShowAt(a, 5, second), tb, d);
      }
    }
  }

  lemma {:induction false} RefuseCall(e: Expr, after: seq<Symbol>, d: nat)
    requires e.LenCall? || e.Call?
    requires HasText(e) && !Checkable(e, d, false)
    ensures Refuses(CheckPrimary(Show(e, after), d, false))
    decreases e, 0, 4, 0
  {
    hide CheckPrimary, CheckTwo, WordOf, ShowAt, Refuses, CheckableExpr, FunctionName;
    var closed := [Close] + after;
    if e.LenCall? {
      KeywordFacts();
      UnknownCall("len", LenFunction, ShowAt(e.arg, 0, closed), d);
    } else {
      var f, ts := e.f, ShowAt(e.left, 0, [Comma] + ShowAt(e.right, 0, closed));
      if f.BigintGte? || f.BigintGt? {
        CheckPrimaryCall(FunctionName(f), Two(f), ts, d, false);
        RefuseTwo(f, e.left, e.right, after, d);
      } else {
        UnknownCall(FunctionName(f), Two(f), ts, d);
      }
    }
  }

  lemma {:induction false} RefuseTwo(f: TwoArguments, a: Expr, b: Expr, after: seq<Symbol>, d: nat)
    requires HasText(a) && HasText(b) && !(CheckableExpr(a, d, false) && CheckableExpr(b, d, false))
    ensures Refuses(CheckTwo([Open] + ShowAt(a, 0, [Comma] + ShowAt(b, 0, [Close] + after)), d, false))
    decreases Call(f, a, b), 0, 3
  {
    hide CheckExpr, CheckTwo, ShowAt, Refuses, CheckableExpr, HasText;
    var tb := ShowAt(b, 0, [Close] + after);
    if !CheckableExpr(a, d, false) {
      RefuseExpr(a, [Comma] + tb, d);
    } else {
      CheckShownExpr(a, [Comma] + tb, d, false, 0);
      RefuseExpr(b, [Close] + after, d);
    }
    RefusedTwo(ShowAt(a, 0, [Comma] + tb), tb, d);
  }

  lemma CheckFieldFirst(name: string, ts: seq<Symbol>, d: nat)
    requires ts != [] && ts[0] == Ident(name) && WordOf(name) == FieldName
    ensures CheckPrimary(ts, d, false) == CheckField(ts, d, false, false)
  {
    hide CheckField, WordOf;
  }

  /** A function the validator does not know is a field path to it, and what is left starts with a parenthesis. */
  lemma UnknownCall(name: string, f: Builtin, ts: seq<Symbol>, d: nat)
    requires WordOf(name) == Function(f) && !KnownCall(f)
    ensures CheckPrimary([Ident(name), Open] + ts, d, false) == Free([Open] + ts)
    ensures Refuses(CheckPrimary([Ident(name), Open] + ts, d, false))
  {
    hide WordOf;
    var all := [Ident(name), Open] + ts;
    assert all[1..] == [Open] + ts;
    assert CheckField(all, d, false, false) == Free(all[1..]);
    hide CheckField;
    if f.Two? {
      assert !f.f.BigintGte? && !f.f.BigintGt?;
    }
    assert CheckPrimary(all, d, false) == CheckField(all, d, false, false);
  }

  lemma RefusedSum(ts: seq<Symbol>, d: nat)
    requires Refuses(CheckPrimary(ts, d, false))
    ensures Refuses(CheckSum([Open] + ts, d, false))
  {
    hide CheckPrimary;
    assert ([Open] + ts)[1..] == ts;
  }

  lemma RefusedSecond(ts: seq<Symbol>, tb: seq<Symbol>, d: nat)
    requires CheckPrimary(ts, d, false).Accept? && CheckPrimary(ts, d, false).rest == [Comma] + tb
    requires Refuses(CheckPrimary(tb, d, false))
    ensures Refuses(CheckSum([Open] + ts, d, false))
  {
    hide CheckPrimary;
    assert ([Open] + ts)[1..] == ts && ([Comma] + tb)[1..] == tb;
  }

  lemma RefusedTwo(ts: seq<Symbol>, tb: seq<Symbol>, d: nat)
    requires var a := CheckExpr(ts, d, false);
             Refuses(a) || (a.Accept? && a.rest == [Comma] + tb && Refuses(CheckExpr(tb, d, false)))
    ensures Refuses(CheckTwo([Open] + ts, d, false))
  {
    hide CheckExpr;
    assert ([Open] + ts)[1..] == ts && ([Comma] + tb)[1..] == tb;
  }

  lemma {:induction false} RefuseEvery(e: Expr, after: seq<Symbol>, d: nat)
    requires e.Every? && HasText(e) && !Checkable(e, d, false) && Stops(after, 5)
    ensures Refuses(CheckField(Show(e, after), d, false, false))
    decreases e, 0, 3
  {
    hide CheckField, CheckExpr, ShowAt, ShowPath, IsPath, WordOf, CheckableExpr;
    var inner := ShowAt(e.body, 0, [Close] + after);
    var ts := [Open, Ident(e.param), Arrow] + inner;
    CheckShownQuantifier(e.path, e.param, e.body, after, d, false);
    RefuseExpr(e.body, [Close] + after, d);
    assert ts[2..] == [Arrow] + inner && ts[3..] == inner;
  }

  lemma {:induction false} RefuseElems(es: Elems, after: seq<Symbol>, d: nat)
    requires ElemsHaveText(es) && !ElemsCheckable(es, d, false)
    ensures Refuses(CheckElems(ShowElems(es, [BracketClose] + after), d, false))
    decreases es, 0, 3
  {
    hide CheckElement, CheckElems, Then, Show, HasText, Checkable, IsElement;
    var closed := [BracketClose] + after;
    var ts := ShowElems(es, closed);
    var last := es.tail.NoElems?;
    var rest := ShowElems(es.tail, closed);
    var next := if last then closed else [Comma] + rest;
    assert ([Comma] + rest)[1..] == rest;
    assert ts == Show(es.head, next);
    if es.head.NumberLit? || es.head.TextLit? || !Checkable(es.head, d, false) {
      RefuseElement(es.head, next, d);
      RefusedElement(ts, d);
    } else {
      CheckShownElement(es.head, next, d, false, 0);
      CheckElemsStep(ts, d, false);
      RefuseElems(es.tail, after, d);
      RefusedBehind(CheckElement(ts, d, false), CheckElems(rest, d, false));
    }
  }

  lemma {:induction false} RefuseElement(e: Expr, after: seq<Symbol>, d: nat)
    requires IsElement(e) && HasText(e) && Stops(after, 5)
    requires e.NumberLit? || e.TextLit? || !Checkable(e, d, false)
    ensures Show(e, after) != [] && Show(e, after)[0] != BracketClose
    ensures Refuses(CheckElement(Show(e, after), d, false))
    decreases e, 0, 4
  {
    hide CheckPath, IsFieldPath, CheckableExpr;
    if e.Every? {
      hide CheckField;
      FieldFirst(e, after);
      RefuseEvery(e, after, d);
    }
  }

  lemma RefusedElement(ts: seq<Symbol>, d: nat)
    requires ts != [] && ts[0] != BracketClose && Refuses(CheckElement(ts, d, false))
    ensures Refuses(CheckElems(ts, d, false))
  {
    var c := CheckElement(ts, d, false);
    if c.Accept? {
      hide CheckPath;
      assert CheckElement(c.rest, d, false).Reject?;
      assert CheckElems(c.rest, d, false).Reject?;
    }
  }

  /** The validator accepts the text of a tree if and only if the tree uses only what it knows, within its own limit on
      nesting. */
  lemma ValidIfCheckable(e: Expr)
    requires HasText(e)
    ensures Validate(TextOf(e)).Valid? <==> CheckableExpr(e, 0, false)
  {
    hide HasText, CheckableExpr, Lex, CheckExpr, TextOf, ShowAt;
    if CheckableExpr(e, 0, false) {
      CheckableTreesAreValid(e);
    } else {
      TextTokens(e);
      RefuseExpr(e, [], 0);
    }
  }
}
