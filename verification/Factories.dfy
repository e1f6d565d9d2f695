/** The factories that print conservation invariants, and what their expressions mean to the evaluator and to
    the validator. Fields may be dotted paths. */
module Factories {
  import opened Results
  import opened Values
  import opened Tokenizer
  import opened Syntax
  import opened Semantics
  import opened Evaluator
  import opened Printing
  import opened Texts
  import opened RoundTrip
  import opened Grammar
  import opened Acceptance

  // ----- The texts -----

  function SumText(fields: seq<string>, total: string): string {
    "bigint_eq(bigint_sum([" + Join(fields, ", ") + "]), " + total + ")"
  }

  function ClauseText(field: string): string {
    "bigint_gte(" + field + ", 0)"
  }

  function NonNegativeText(fields: seq<string>): string {
    Join(seq(|fields|, i requires 0 <= i < |fields| => ClauseText(fields[i])), " && ")
  }

  // ----- The trees they are the texts of -----

  function FieldElems(fields: seq<string>): Elems {
    if fields == [] then NoElems else Elem(Field(fields[0]), FieldElems(fields[1..]))
  }

  function SumTree(fields: seq<string>, total: string): Expr {
    Call(BigintEq, SumList(ArrayLit(FieldElems(fields))), Field(total))
  }

  function Clause(field: string): Expr {
    Call(BigintGte, Field(field), NumberLit("0"))
  }

  function ClauseChain(fields: seq<string>): Expr
    requires fields != []
  {
    if |fields| == 1 then Clause(fields[0])
    else And(ClauseChain(fields[..|fields| - 1]), Clause(fields[|fields| - 1]))
  }

  predicate AreFields(fields: seq<string>) {
    forall f :: f in fields ==> IsFieldPath(f)
  }

  // ----- The texts are the texts of the trees -----

  lemma {:induction false} FieldTexts(fields: seq<string>)
    ensures ElemTexts(FieldElems(fields)) == fields
  {
    hide TextOf;
    if fields != [] {
      FieldTexts(fields[1..]);
      FieldText(fields[0]);
      assert [fields[0]] + fields[1..] == fields;
    }
  }

  lemma SumTextIsText(fields: seq<string>, total: string)
    ensures SumText(fields, total) == TextOf(SumTree(fields, total))
  {
    hide TextOf, Join;
    var list := ArrayLit(FieldElems(fields));
    FieldTexts(fields);
    ArrayText(FieldElems(fields));
    SumListText(list);
    FieldText(total);
    CallText(BigintEq, SumList(list), Field(total));
    SumPieces(Join(fields, ", "), total);
  }

  lemma SumPieces(joined: string, total: string)
    ensures "bigint_eq(" + ("bigint_sum(" + ("[" + joined + "]") + ")" + ", " + total + ")")
         == "bigint_eq(bigint_sum([" + joined + "]), " + total + ")"
  {
  }

  lemma ClauseIsText(field: string)
    ensures ClauseText(field) == TextOf(Clause(field))
  {
    hide TextOf;
    FieldText(field);
    LiteralTexts("0");
    CallText(BigintGte, Field(field), NumberLit("0"));
    assert "bigint_gte(" + (field + ", " + "0" + ")") == ClauseText(field);
  }

  lemma {:induction false} NonNegativeTextIsText(fields: seq<string>)
    requires fields != []
    ensures NonNegativeText(fields) == TextOf(ClauseChain(fields))
  {
    hide TextOf, ClauseText;
    var n := |fields| - 1;
    var texts := seq(|fields|, i requires 0 <= i < |fields| => ClauseText(fields[i]));
    ClauseIsText(fields[n]);
    if n == 0 {
      assert texts == [ClauseText(fields[0])];
    } else {
      var front := fields[..n];
      var frontTexts := seq(|front|, i requires 0 <= i < |front| => ClauseText(front[i]));
      assert texts == frontTexts + [ClauseText(fields[n])];
      JoinSnoc(frontTexts, ClauseText(fields[n]), " && ");
      NonNegativeTextIsText(front);
      ChainLevel(front);
      ConjunctionText(ClauseChain(front), Clause(fields[n]));
    }
  }

  lemma {:induction false} JoinSnoc(parts: seq<string>, last: string, sep: string)
    requires parts != []
    ensures Join(parts + [last], sep) == Join(parts, sep) + sep + last
  {
    if |parts| == 1 {
      assert (parts + [last])[1..] == [last];
    } else {
      assert (parts + [last])[1..] == parts[1..] + [last];
      JoinSnoc(parts[1..], last, sep);
      assert parts[0] + sep + (Join(parts[1..], sep) + sep + last) == Join(parts, sep) + sep + last;
    }
  }

  lemma ChainParts(fields: seq<string>, after: seq<Symbol>)
    requires |fields| > 1
    ensures var n := |fields| - 1;
            ShowAt(ClauseChain(fields), 2, after) ==
            ShowAt(ClauseChain(fields[..n]), 2, [Op(AndOp)] + Show(Clause(fields[n]), after))
  {
    var n := |fields| - 1;
    ConjunctionParts(ClauseChain(fields[..n]), Clause(fields[n]), after, 0);
  }

  // ----- What the sum invariant means -----

  function FieldValues(fields: seq<string>, data: Data): seq<Value> {
    seq(|fields|, i requires 0 <= i < |fields| => ResolveIn(data, fields[i]))
  }

  lemma {:induction false} EvalFields(fields: seq<string>, data: Data)
    ensures EvalElems(FieldElems(fields), data) == Success(FieldValues(fields, data))
  {
    hide ResolveIn;
    if fields == [] {
      assert FieldValues(fields, data) == [];
    } else {
      EvalFields(fields[1..], data);
      assert Eval(Field(fields[0]), data) == Success(ResolveIn(data, fields[0]));
      assert FieldElems(fields) == Elem(Field(fields[0]), FieldElems(fields[1..]));
      assert FieldValues(fields, data) == [ResolveIn(data, fields[0])] + FieldValues(fields[1..], data);
    }
  }

  lemma {:induction false} FieldsHaveText(fields: seq<string>, d: nat)
    requires AreFields(fields)
    ensures ElemsHaveText(FieldElems(fields)) && ElemsFit(FieldElems(fields), d)
  {
    if fields != [] {
      assert fields[0] in fields;
      FieldsHaveText(fields[1..], d);
    }
  }

  lemma LeafFits(e: Expr, d: nat)
    requires e.Field? || e.NumberLit?
    ensures (FitsExpr(e, d) <==> d + 1 <= MAX_EXPRESSION_DEPTH) && DepthAt(e, 0) == 0
  {
    assert Fits(e, d + 1);
    assert FitsAt(e, 0, d + 1);
  }

  lemma SumTreeFits(fields: seq<string>, total: string)
    requires AreFields(fields) && IsFieldPath(total)
    ensures HasText(SumTree(fields, total)) && FitsExpr(SumTree(fields, total), 0)
  {
    hide IsFieldPath;
    FieldsHaveText(fields, 2);
    var list := ArrayLit(FieldElems(fields));
    assert Fits(list, 2) && Fits(SumList(list), 2) && FitsExpr(SumList(list), 1);
    assert HasText(list) && HasText(SumList(list));
    assert DepthAt(list, 5) == 0 && DepthAt(SumList(list), 0) == 0;
    LeafFits(Field(total), 2);
    assert Fits(SumTree(fields, total), 1);
  }

  lemma SumTreeMeans(fields: seq<string>, total: string, data: Data)
    ensures var values := Arr(Fresh, FieldValues(fields, data));
            Eval(SumTree(fields, total), data) ==
            Success(CallValue(BigintEq, SumListValue(values), ResolveIn(data, total)))
  {
    hide CallValue, SumListValue;
    EvalFields(fields, data);
    var list := ArrayLit(FieldElems(fields));
    var values := Arr(Fresh, FieldValues(fields, data));
    assert Eval(list, data) == Success(values);
    assert Eval(SumList(list), data) == Success(SumListValue(values));
  }

  /** The exact meaning: the total, or zero if it is missing, equals the sum of the fields that are not missing,
      or zero if one of them is not an integer. */
  lemma SumInvariantMeans(fields: seq<string>, total: string, data: Data)
    requires AreFields(fields) && IsFieldPath(total)
    ensures var sum := SumOf(FieldValues(fields, data));
            var expected := BigIntOf(OrElse(ResolveIn(data, total), Num(0.0)));
            Evaluate(SumText(fields, total), data)
            == Success(Bool(expected.Some? && (if sum.Some? then sum.value else 0) == expected.value))
  {
    hide Evaluate, Eval, SumOf, ResolveIn, FitsExpr, HasText;
    var e := SumTree(fields, total);
    SumTreeFits(fields, total);
    SumTextIsText(fields, total);
    TextMeansTree(e, data);
    SumTreeMeans(fields, total, data);
  }

  /** The data holds a string of digits at every one of these paths. */
  predicate HoldDigits(fields: seq<string>, data: Data) {
    forall f :: f in fields ==>
      var v := ResolveIn(data, f);
      v.Str? && v.s != "" && AllDigits(v.s)
  }

  function Amount(field: string, data: Data): int
    requires HoldDigits([field], data)
  {
    assert field in [field];
    Decimal(ResolveIn(data, field).s)
  }

  lemma HoldsEach(fields: seq<string>, data: Data, i: nat)
    requires HoldDigits(fields, data) && i < |fields|
    ensures HoldDigits([fields[i]], data)
  {
  }

  function SumOfAmounts(fields: seq<string>, data: Data): int
    requires HoldDigits(fields, data)
  {
    if fields == [] then 0
    else
      HoldsEach(fields, data, |fields| - 1);
      SumOfAmounts(fields[..|fields| - 1], data) + Amount(fields[|fields| - 1], data)
  }

  lemma SumStep(vs: seq<Value>, k: int, m: int)
    requires vs != [] && SumOf(vs[..|vs| - 1]) == Some(k)
    requires !vs[|vs| - 1].IsNullish() && BigIntOf(vs[|vs| - 1]) == Some(m)
    ensures SumOf(vs) == Some(k + m)
  {
  }

  lemma {:induction false} SumOfDigits(fields: seq<string>, data: Data)
    requires HoldDigits(fields, data)
    ensures SumOf(FieldValues(fields, data)) == Some(SumOfAmounts(fields, data))
  {
    hide ResolveIn, Decimal, BigIntOf;
    if fields != [] {
      var n := |fields| - 1;
      var v := ResolveIn(data, fields[n]);
      HoldsEach(fields, data, n);
      SumOfDigits(fields[..n], data);
      assert FieldValues(fields, data)[..n] == FieldValues(fields[..n], data);
      assert v.Str? && v.s != "" && AllDigits(v.s) by {
        assert fields[n] in fields;
      }
      BigIntOfDigits(v.s);
      assert Amount(fields[n], data) == Decimal(v.s);
      SumStep(FieldValues(fields, data), SumOfAmounts(fields[..n], data), Decimal(v.s));
    }
  }

  /** On digit strings the sum invariant is what it is meant to be. */
  lemma SumInvariantOnDigits(fields: seq<string>, total: string, data: Data)
    requires AreFields(fields) && IsFieldPath(total)
    requires HoldDigits(fields, data) && HoldDigits([total], data)
    ensures Evaluate(SumText(fields, total), data)
         == Success(Bool(SumOfAmounts(fields, data) == Amount(total, data)))
  {
    SumInvariantMeans(fields, total, data);
    SumOfDigits(fields, data);
    assert total in [total];
    BigIntOfDigits(ResolveIn(data, total).s);
  }

  /** Off digit strings it is not: if a summed field holds what is no integer, a total of zero passes. */
  lemma SumInvariantOnGarbage(fields: seq<string>, total: string, data: Data, i: nat)
    requires AreFields(fields) && IsFieldPath(total) && i < |fields|
    requires var v := ResolveIn(data, fields[i]); !v.IsNullish() && BigIntOf(v).None?
    requires BigIntOf(OrElse(ResolveIn(data, total), Num(0.0))) == Some(0)
    ensures Evaluate(SumText(fields, total), data) == Success(Bool(true))
  {
    hide Evaluate, ResolveIn, BigIntOf;
    SumInvariantMeans(fields, total, data);
    var vs := FieldValues(fields, data);
    assert vs[..i + 1][..i] == vs[..i];
    SumStaysNone(vs, i + 1);
  }

  // ----- What the non-negative invariant means -----

  predicate AtLeastZero(field: string, data: Data) {
    var n := BigIntOf(OrElse(ResolveIn(data, field), Num(0.0)));
    n.Some? && n.value >= 0
  }

  lemma ClauseMeans(field: string, data: Data)
    ensures Eval(Clause(field), data) == Success(Bool(AtLeastZero(field, data)))
  {
    assert ParseFloat("0") == 0.0 by {
      ZeroText();
    }
    assert Eval(Field(field), data) == Success(ResolveIn(data, field));
    assert Eval(NumberLit("0"), data) == Success(Num(0.0));
    assert BigIntOf(Num(0.0)) == Some(0);
  }

  lemma ZeroText()
    ensures ParseFloat("0") == 0.0
  {
    assert "0"[1..] == "" && "0"[..1] == "0" && "0"[..0] == "";
    assert DigitRun("0") == 1;
    assert DigitsValue("0", 10) == 0;
  }

  predicate AllAtLeastZero(fields: seq<string>, data: Data) {
    forall f :: f in fields ==> AtLeastZero(f, data)
  }

  lemma AllSnoc(front: seq<string>, last: string, data: Data)
    ensures AllAtLeastZero(front + [last], data) <==> AllAtLeastZero(front, data) && AtLeastZero(last, data)
  {
    hide AtLeastZero;
    var all := front + [last];
    assert last == all[|front|] && last in all;
    assert forall f :: f in front ==> f in all;
  }

  lemma NoFields(data: Data)
    ensures AllAtLeastZero([], data)
  {
  }

  lemma EvalAnd(a: Expr, b: Expr, p: bool, q: bool, data: Data)
    requires Eval(a, data) == Success(Bool(p)) && Eval(b, data) == Success(Bool(q))
    ensures Eval(And(a, b), data) == Success(Bool(p && q))
  {
  }

  lemma ChainStep(fields: seq<string>)
    requires fields != []
    ensures var n := |fields| - 1;
            ClauseChain(fields) ==
            if n == 0 then Clause(fields[n]) else And(ClauseChain(fields[..n]), Clause(fields[n]))
  {
  }

  lemma {:induction false} ChainMeans(fields: seq<string>, data: Data)
    requires fields != []
    ensures Eval(ClauseChain(fields), data) == Success(Bool(AllAtLeastZero(fields, data)))
  {
    hide AtLeastZero, Eval, Clause, AllAtLeastZero, ClauseChain;
    ChainStep(fields);
    var front, last := fields[..|fields| - 1], fields[|fields| - 1];
    assert fields == front + [last];
    AllSnoc(front, last, data);
    ClauseMeans(last, data);
    if front == [] {
      NoFields(data);
    } else {
      ChainMeans(front, data);
      EvalAnd(ClauseChain(front), Clause(last), AllAtLeastZero(front, data), AtLeastZero(last, data), data);
    }
  }

  lemma ClauseFits(field: string, d: nat)
    requires IsFieldPath(field)
    ensures HasText(Clause(field)) && DepthAt(Clause(field), 3) == 2
    ensures FitsAt(Clause(field), 3, d) <==> d + 2 <= MAX_EXPRESSION_DEPTH
  {
    hide IsFieldPath;
    LeafFits(Field(field), d);
    LeafFits(NumberLit("0"), d + 1);
    assert Fits(Clause(field), d) <==> d + 2 <= MAX_EXPRESSION_DEPTH;
  }

  /** Every clause uses two units of depth. */
  lemma {:induction false} ChainFits(fields: seq<string>, d: nat)
    requires fields != [] && AreFields(fields)
    ensures HasText(ClauseChain(fields)) && DepthAt(ClauseChain(fields), 2) == 2 * |fields|
    ensures FitsAt(ClauseChain(fields), 2, d) <==> d + 2 * |fields| <= MAX_EXPRESSION_DEPTH
  {
    hide IsFieldPath, FitsAt, HasText, DepthAt, Clause;
    var n := |fields| - 1;
    var front, last := fields[..n], fields[n];
    assert last in fields;
    if n == 0 {
      ClauseFits(last, d);
      ClauseLevel(last);
      SameLevel(Clause(last), 2, 3, [], d);
    } else {
      assert forall f :: f in front ==> f in fields;
      ClauseFits(last, d + 2 * n);
      ChainFits(front, d);
      ConjunctionParts(ClauseChain(front), Clause(last), [], d);
    }
  }

  lemma ClauseLevel(field: string)
    ensures Level(Clause(field)) == 5
  {
  }

  /** Up to fifteen fields, the invariant says that every field is at least zero, a missing one counting as zero. */
  lemma NonNegativeInvariantMeans(fields: seq<string>, data: Data)
    requires 1 <= |fields| <= 15 && AreFields(fields)
    ensures Evaluate(NonNegativeText(fields), data)
         == Success(Bool(AllAtLeastZero(fields, data)))
  {
    hide Evaluate, FitsAt, HasText, AtLeastZero, IsFieldPath;
    ChainFits(fields, 1);
    SameLevel(ClauseChain(fields), 0, 2, [], 1);
    NonNegativeTextIsText(fields);
    ChainMeans(fields, data);
    TextMeansTree(ClauseChain(fields), data);
  }

  // ----- Sixteen fields and more -----

  /** The text of a chain is that of its first `k` clauses, followed by the next one. */
  lemma {:induction false} ChainPrefix(fields: seq<string>, k: nat, after: seq<Symbol>) returns (rest: seq<Symbol>)
    requires 1 <= k < |fields|
    ensures ShowAt(ClauseChain(fields), 2, after)
         == ShowAt(ClauseChain(fields[..k]), 2, [Op(AndOp)] + Show(Clause(fields[k]), rest))
  {
    hide ShowAt, Show, Clause;
    var n := |fields| - 1;
    ChainParts(fields, after);
    if k == n {
      rest := after;
    } else {
      rest := ChainPrefix(fields[..n], k, [Op(AndOp)] + Show(Clause(fields[n]), after));
      assert fields[..n][..k] == fields[..k];
    }
  }

  /** At depth 31 a clause still has room for its first argument, but not for its second. */
  lemma ClauseTooDeep(field: string, after: seq<Symbol>)
    requires IsFieldPath(field)
    ensures ReadComparison(Show(Clause(field), after), 31)
         == Err(Call(BigintGte, Field(field), Bad(DepthExceeded)))
  {
    hide IsFieldPath, ShowPath, WordOf, ReadPrimary, ReadCall, ReadExpr;
    assert FunctionName(BigintGte) == "bigint_gte";
    var second := [Comma] + ShowAt(NumberLit("0"), 0, [Close] + after);
    var first := ShowAt(Field(field), 0, second);
    var ts := Show(Clause(field), after);
    assert ts == [Ident("bigint_gte"), Open] + first;
    LeafFits(Field(field), 31);
    ReadShownExpr(Field(field), second, 31);
    ReadTwoTooDeep(field, first, second);
    ReadPrimaryCall("bigint_gte", Two(BigintGte), first, 31);
    ReadErr(ts);
  }

  lemma ReadTwoTooDeep(field: string, first: seq<Symbol>, second: seq<Symbol>)
    requires ReadExpr(first, 31) == Ok(Field(field), second, 32) && At(second, Comma)
    ensures ReadCall(Two(BigintGte), [Open] + first, 31) == Err(Call(BigintGte, Field(field), Bad(DepthExceeded)))
  {
    hide ReadOr;
    assert ([Open] + first)[1..] == first;
    assert ReadExpr(second[1..], 32) == Err(Bad(DepthExceeded));
    assert ReadTwo(BigintGte, first, 31) == Err(Call(BigintGte, Field(field), Bad(DepthExceeded)));
  }

  lemma ReadErr(ts: seq<Symbol>)
    requires At(ts, Ident("bigint_gte")) && ReadPrimary(ts, 31).Err?
    ensures ReadComparison(ts, 31) == ReadPrimary(ts, 31)
  {
    hide ReadPrimary;
  }

  /** Reading sixteen clauses or more breaks off in the second argument of the sixteenth. */
  lemma ReadSixteenClauses(fields: seq<string>)
    requires |fields| >= 16 && AreFields(fields)
    ensures ReadExpr(ShowAt(ClauseChain(fields), 2, []), 0)
         == Err(And(ClauseChain(fields[..15]), Call(BigintGte, Field(fields[15]), Bad(DepthExceeded))))
  {
    hide ShowAt, HasText, FitsAt, DepthAt, IsFieldPath, ReadComparison, Clause, ClauseChain, Show;
    var chain, start := ClauseChain(fields), fields[..15];
    var next := fields[15];
    assert next in fields && forall f :: f in start ==> f in fields;
    ChainFits(start, 1);
    var rest := ChainPrefix(fields, 15, []);
    ReadShownAnd(ClauseChain(start), [Op(AndOp)] + Show(Clause(next), rest), 1);
    ClauseTooDeep(next, rest);
    ReadTooDeepAnd(ShowAt(chain, 2, []), ClauseChain(start), Show(Clause(next), rest),
                   Call(BigintGte, Field(next), Bad(DepthExceeded)));
  }

  lemma ChainLevel(fields: seq<string>)
    requires fields != []
    ensures Level(ClauseChain(fields)) >= 2
  {
  }

  /** From sixteen fields on, evaluation raises the depth error, whatever the data. */
  lemma NonNegativeInvariantFails(fields: seq<string>, data: Data)
    requires |fields| >= 16 && AreFields(fields)
    ensures Evaluate(NonNegativeText(fields), data) == Failure(Syntactic(DepthExceeded))
  {
    hide ShowAt, HasText, FitsAt, DepthAt, IsFieldPath, Clause, Lex, Eval, ReadExpr, ClauseChain;
    hide AllAtLeastZero, Show;
    var chain, start := ClauseChain(fields), fields[..15];
    ChainFits(fields, 1);
    ChainLevel(fields);
    SameLevel(chain, 0, 2, [], 1);
    NonNegativeTextIsText(fields);
    TextTokens(chain);
    ReadSixteenClauses(fields);
    assert forall f :: f in start ==> f in fields;
    ChainMeans(start, data);
    EvalTooDeep(ClauseChain(start), fields[15], AllAtLeastZero(start, data), data);
  }

  lemma ReadTooDeepAnd(ts: seq<Symbol>, a: Expr, next: seq<Symbol>, bad: Expr)
    requires !Broken(a) && ReadAnd(ts, 1) == AndRest(a, [Op(AndOp)] + next, 31)
    requires ReadComparison(next, 31) == Err(bad)
    ensures ReadExpr(ts, 0) == Err(And(a, bad))
  {
    hide ReadAnd, ReadComparison;
    assert ([Op(AndOp)] + next)[1..] == next;
    assert ReadAnd(ts, 1) == Err(And(a, bad));
    assert ReadOr(ts, 1) == Err(And(a, bad));
  }

  lemma EvalTooDeep(a: Expr, field: string, p: bool, data: Data)
    requires Eval(a, data) == Success(Bool(p))
    ensures Eval(And(a, Call(BigintGte, Field(field), Bad(DepthExceeded))), data) == Failure(DepthExceeded)
  {
    hide CallValue, ResolveIn;
    var b := Call(BigintGte, Field(field), Bad(DepthExceeded));
    SecondArgumentFails(field, data);
    assert Eval(b, data) == Failure(DepthExceeded);
  }

  lemma SecondArgumentFails(field: string, data: Data)
    ensures Eval(Call(BigintGte, Field(field), Bad(DepthExceeded)), data) == Failure(DepthExceeded)
  {
    hide CallValue, ResolveIn;
  }

  // ----- The validator's opinion -----

  /** The validator does not know `bigint_eq`, so it rejects every sum invariant, at the parenthesis. */
  lemma SumInvariantIsRejected(fields: seq<string>, total: string)
    requires AreFields(fields) && IsFieldPath(total)
    ensures Validate(SumText(fields, total)) == Invalid(Syntactic(UnexpectedToken(Open)), 9)
  {
    hide HasText, FitsExpr, CheckExpr, Lex, Render, IsFieldPath, ShowAt, ShowElems, ShowPath;
    var e := SumTree(fields, total);
    SumTreeFits(fields, total);
    SumTextIsText(fields, total);
    CallShown(e);
    assert FunctionName(BigintEq) == "bigint_eq";
    var ts := ShowAt(e, 0, []);
    PrintableTree(e, 0, []);
    LexRender(ts);
    SymbolsPlaced(ts, 0);
    assert ts[0] == Ident("bigint_eq") && ts[1] == Open;
    CheckUnknownCall(ts);
    assert Placed(ts, 0)[1] == Placed(ts[1..], 9)[0] == Token(Open, 9);
  }

  lemma CheckUnknownCall(ts: seq<Symbol>)
    requires |ts| > 1 && ts[0] == Ident("bigint_eq") && ts[1] == Open
    ensures CheckExpr(ts, 0, false) == Accept(ts[1..], 1, 1)
  {
    hide CheckPrimary, CheckExpr, AtComparison;
    CheckUnknownName(ts);
    CheckOperand(ts, 0, false);
  }

  lemma CheckUnknownName(ts: seq<Symbol>)
    requires |ts| > 1 && ts[0] == Ident("bigint_eq") && ts[1] == Open
    ensures CheckPrimary(ts, 1, false) == Free(ts[1..]) && !AtComparison(ts[1..])
  {
    hide WordOf, CheckExpr;
    assert FunctionName(BigintEq) == "bigint_eq";
    assert CheckField(ts, 1, false, false) == CheckPath(ts[1..], 1, false, false) == Free(ts[1..]);
  }

  lemma ClauseCheckable(field: string, level: nat, d: nat)
    requires level <= 5 && d + 1 <= MAX_EXPRESSION_DEPTH
    ensures CheckableAt(Clause(field), level, d, false)
  {
    assert CheckableAt(Field(field), 0, d + 1, false) && CheckableAt(NumberLit("0"), 0, d + 1, false);
    assert Checkable(Clause(field), d, false);
  }

  lemma {:induction false} ChainCheckable(fields: seq<string>, d: nat)
    requires fields != [] && d + 1 <= MAX_EXPRESSION_DEPTH
    ensures CheckableAt(ClauseChain(fields), 2, d, false)
  {
    hide CheckableAt, Clause;
    var n := |fields| - 1;
    ClauseCheckable(fields[n], 2, d);
    ClauseCheckable(fields[n], 3, d);
    if n > 0 {
      ChainCheckable(fields[..n], d);
      CheckableParts(ClauseChain(fields[..n]), Clause(fields[n]), CmpEq, d, false);
    }
  }

  /** The validator accepts the non-negative invariant for any number of fields, so from sixteen on it accepts
      what can never be evaluated. */
  lemma NonNegativeInvariantIsAccepted(fields: seq<string>)
    requires fields != [] && AreFields(fields)
    ensures Validate(NonNegativeText(fields)).Valid?
  {
    hide HasText, FitsAt, DepthAt, IsFieldPath, ClauseChain, CheckableAt;
    var e := ClauseChain(fields);
    ChainFits(fields, 1);
    NonNegativeTextIsText(fields);
    ChainLevel(fields);
    ChainCheckable(fields, 1);
    SameCheckable(e, 0, 2, 1, false);
    CheckableTreesAreValid(e);
  }
}
