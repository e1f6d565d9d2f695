/** What an expression means, said of its text and of the values of its operands' texts. The operands are any
    expressions that have a text; the whole has to stay within the depth limit. */
module Laws {
  import opened Results
  import opened Values
  import opened Tokenizer
  import opened Syntax
  import opened Semantics
  import opened Evaluator
  import opened Printing
  import opened RoundTrip
  import opened Texts

  /** The text of the tree can be evaluated as far as the depth limit goes. */
  predicate Sound(e: Expr) {
    HasText(e) && FitsExpr(e, 0)
  }

  /** What the text of a tree evaluates to. */
  function ValueIn(e: Expr, data: Data): Result<Value, Problem> {
    Evaluate(TextOf(e), data)
  }

  function Lift(r: Result<Value, Error>): Result<Value, Problem> {
    match r
    case Success(v) => Success(v)
    case Failure(e) => Failure(Syntactic(e))
  }

  lemma ValueIs(e: Expr, data: Data)
    requires Sound(e)
    ensures ValueIn(e, data) == Lift(Eval(e, data))
  {
    hide HasText, FitsExpr, Evaluate, Eval, TextOf;
    TextMeansTree(e, data);
  }

  // ----- Parts of a sound tree are sound -----

  lemma {:induction false} FitsFromLess(e: Expr, d: nat, less: nat)
    requires Fits(e, d) && less <= d
    ensures Fits(e, less)
    decreases e, 0
  {
    hide DepthAt, FitsAt;
    match e
    case Implies(a, b) => FitsAtLess(a, 1, d, 1, less); FitsAtLess(b, 1, d + DepthAt(a, 1), 1, less + DepthAt(a, 1));
    case Or(a, b) => FitsAtLess(a, 1, d, 1, less); FitsAtLess(b, 2, d + DepthAt(a, 1), 2, less + DepthAt(a, 1));
    case And(a, b) => FitsAtLess(a, 2, d, 2, less); FitsAtLess(b, 3, d + DepthAt(a, 2), 3, less + DepthAt(a, 2));
    case Compare(_, a, b) =>
      FitsAtLess(a, 4, d, 4, less);
      FitsAtLess(b, 4, d + DepthAt(a, 4), 4, less + DepthAt(a, 4));
    case Not(a) => FitsAtLess(a, 4, d, 4, less);
    case SumList(a) => FitsAtLess(a, 5, d, 5, less);
    case SumField(a, b) =>
      FitsAtLess(a, 5, d, 5, less);
      FitsAtLess(b, 5, d + DepthAt(a, 5), 5, less + DepthAt(a, 5));
    case LenCall(a) => FitsAtLess(a, 0, d + 1, 0, less + 1);
    case Call(_, a, b) =>
      FitsAtLess(a, 0, d + 1, 0, less + 1);
      FitsAtLess(b, 0, d + 1 + DepthAt(a, 0) + 1, 0, less + 1 + DepthAt(a, 0) + 1);
    case Every(_, _, body) => FitsAtLess(body, 0, d + 1, 0, less + 1);
    case ArrayLit(es) => ElemsFitLess(es, d, less);
    case _ =>
  }

  lemma {:induction false} FitsAtLess(e: Expr, level: nat, d: nat, level': nat, less: nat)
    requires FitsAt(e, level, d) && less <= d && level' <= level
    ensures FitsAt(e, level', less)
    decreases e, 1
  {
    var from, to := if Level(e) < level then d + 1 else d, if Level(e) < level' then less + 1 else less;
    FitsFromLess(e, from, to);
  }

  lemma {:induction false} ElemsFitLess(es: Elems, d: nat, less: nat)
    requires ElemsFit(es, d) && less <= d
    ensures ElemsFit(es, less)
    decreases es, 0
  {
    if es.Elem? {
      FitsFromLess(es.head, d, less);
      ElemsFitLess(es.tail, d, less);
    }
  }

  lemma PartFits(e: Expr, level: nat, d: nat)
    requires FitsAt(e, level, d) && d >= 1
    ensures FitsExpr(e, 0)
  {
    hide Fits;
    FitsAtLess(e, level, d, 0, 1);
  }

  lemma InnerFits(e: Expr, d: nat)
    requires FitsExpr(e, d)
    ensures FitsExpr(e, 0)
  {
    hide FitsAt;
    PartFits(e, 0, d + 1);
  }

  lemma SoundParts(e: Expr)
    requires Sound(e)
    ensures e.Implies? || e.Or? || e.And? || e.Compare? || e.Call? ==> Sound(e.left) && Sound(e.right)
    ensures e.Not? ==> Sound(e.operand)
    ensures e.SumList? ==> Sound(e.list)
    ensures e.SumField? ==> Sound(e.list) && Sound(e.name)
    ensures e.LenCall? ==> Sound(e.arg)
    ensures e.Every? ==> Sound(e.body)
  {
    hide IsFieldPath, IsPath, IsNumeral, IsIdentifier, ElemsHaveText, FitsExpr, FitsAt, DepthAt;
    assert FitsAt(e, 0, 1) && Fits(e, 1) by { TopFits(e); }
    match e
    case Implies(a, b) => PartFits(a, 1, 1); PartFits(b, 1, 1 + DepthAt(a, 1));
    case Or(a, b) => PartFits(a, 1, 1); PartFits(b, 2, 1 + DepthAt(a, 1));
    case And(a, b) => PartFits(a, 2, 1); PartFits(b, 3, 1 + DepthAt(a, 2));
    case Compare(_, a, b) => PartFits(a, 4, 1); PartFits(b, 4, 1 + DepthAt(a, 4));
    case Not(a) => PartFits(a, 4, 1);
    case SumList(a) => PartFits(a, 5, 1);
    case SumField(a, b) => PartFits(a, 5, 1); PartFits(b, 5, 1 + DepthAt(a, 5));
    case LenCall(a) => InnerFits(a, 1);
    case Call(_, a, b) => InnerFits(a, 1); InnerFits(b, 1 + 1 + DepthAt(a, 0));
    case Every(_, _, body) => InnerFits(body, 1);
    case _ =>
  }

  lemma TopFits(e: Expr)
    requires FitsExpr(e, 0)
    ensures FitsAt(e, 0, 1) && Fits(e, 1)
  {
  }

  // ----- Truth -----

  /** The values that count as false: the six listed, and no other. */
  predicate IsFalse(v: Value) {
    v == Undefined || v == Null || v == Bool(false) || v == Num(0.0) || v == Big(0) || v == Str("")
  }

  lemma TruthyIs(v: Value)
    ensures Truthy(v) <==> !IsFalse(v)
  {
  }

  /** `a => b` is false if `a` is true and `b` is not, and true otherwise. Both sides are evaluated, so an error in
      either is an error of the whole, the left one first. */
  lemma ImplicationLaw(a: Expr, b: Expr, data: Data)
    requires Sound(Implies(a, b))
    ensures var r := Evaluate(Operand(a, a.Implies?) + " => " + Operand(b, b.Implies?), data);
            match (ValueIn(a, data), ValueIn(b, data))
            case (Failure(p), _) => r == Failure(p)
            case (Success(_), Failure(p)) => r == Failure(p)
            case (Success(x), Success(y)) =>
              && (!IsFalse(x) && IsFalse(y) ==> r == Success(Bool(false)))
              && (IsFalse(x) || !IsFalse(y) ==> r == Success(Bool(true)))
  {
    hide Sound, Evaluate, TextOf, Truthy, Operand;
    var e := Implies(a, b);
    SoundParts(e);
    ValueIs(e, data);
    ValueIs(a, data);
    ValueIs(b, data);
    ImplicationText(a, b);
    forall v ensures Truthy(v) <==> !IsFalse(v) { TruthyIs(v); }
  }

  /** `a || b` is true if one of the two is; both are evaluated. */
  lemma DisjunctionLaw(a: Expr, b: Expr, data: Data)
    requires Sound(Or(a, b))
    ensures var r := Evaluate(Operand(a, a.Implies?) + " || " + Operand(b, b.Implies? || b.Or?), data);
            match (ValueIn(a, data), ValueIn(b, data))
            case (Failure(p), _) => r == Failure(p)
            case (Success(_), Failure(p)) => r == Failure(p)
            case (Success(x), Success(y)) =>
              && (IsFalse(x) && IsFalse(y) ==> r == Success(Bool(false)))
              && (!IsFalse(x) || !IsFalse(y) ==> r == Success(Bool(true)))
  {
    hide Sound, Evaluate, TextOf, Truthy, Operand;
    var e := Or(a, b);
    SoundParts(e);
    ValueIs(e, data);
    ValueIs(a, data);
    ValueIs(b, data);
    DisjunctionText(a, b);
    forall v ensures Truthy(v) <==> !IsFalse(v) { TruthyIs(v); }
  }

  /** `a && b` is true if both are; both are evaluated, even if the first is false. */
  lemma ConjunctionLaw(a: Expr, b: Expr, data: Data)
    requires Sound(And(a, b))
    ensures var r := Evaluate(
              Operand(a, a.Implies? || a.Or?) + " && " + Operand(b, b.Implies? || b.Or? || b.And?), data);
            match (ValueIn(a, data), ValueIn(b, data))
            case (Failure(p), _) => r == Failure(p)
            case (Success(_), Failure(p)) => r == Failure(p)
            case (Success(x), Success(y)) =>
              && (IsFalse(x) || IsFalse(y) ==> r == Success(Bool(false)))
              && (!IsFalse(x) && !IsFalse(y) ==> r == Success(Bool(true)))
  {
    hide Sound, Evaluate, TextOf, Truthy, Operand;
    var e := And(a, b);
    SoundParts(e);
    ValueIs(e, data);
    ValueIs(a, data);
    ValueIs(b, data);
    ConjunctionText(a, b);
    forall v ensures Truthy(v) <==> !IsFalse(v) { TruthyIs(v); }
  }

  /** `!a` is true if `a` is false. */
  lemma NegationLaw(a: Expr, data: Data)
    requires Sound(Not(a))
    ensures var r := Evaluate("!" + Operand(a, IsBinary(a)), data);
            match ValueIn(a, data)
            case Failure(p) => r == Failure(p)
            case Success(x) =>
              && (IsFalse(x) ==> r == Success(Bool(true)))
              && (!IsFalse(x) ==> r == Success(Bool(false)))
  {
    hide Sound, Evaluate, TextOf, Truthy, Operand;
    var e := Not(a);
    SoundParts(e);
    ValueIs(e, data);
    ValueIs(a, data);
    NegationText(a);
    forall v ensures Truthy(v) <==> !IsFalse(v) { TruthyIs(v); }
  }

  // ----- Comparisons -----

  /** How two values that have an order stand to each other: numbers, BigInts and texts among their own, and a BigInt
      to a whole number or to a text that spells an integer. */
  ghost predicate Stand(x: Value, y: Value, less: bool, same: bool) {
    match (x, y)
    case (Num(m), Num(n)) => less == (m < n) && same == (m == n)
    case (Big(m), Big(n)) => less == (m < n) && same == (m == n)
    case (Str(s), Str(t)) => less == UnitsLess(CodeUnits(s), CodeUnits(t)) && same == (s == t)
    case (Big(m), Num(n)) => n == n.Floor as real && less == (m as real < n) && same == (m as real == n)
    case (Num(m), Big(n)) => m == m.Floor as real && less == (m < n as real) && same == (m == n as real)
    case (Big(m), Str(t)) => exists n: int :: Spells(t, n) && less == (m < n) && same == (m == n)
    case (Str(s), Big(n)) => exists m: int :: Spells(s, m) && less == (m < n) && same == (m == n)
    case _ => false
  }

  lemma Compared(x: Value, cmp: Comparison, y: Value, less: bool, same: bool)
    requires Stand(x, y, less, same)
    ensures CompareValues(x, cmp, y) ==
            match cmp
            case CmpEq => same
            case CmpNe => !same
            case CmpLt => less
            case CmpGt => !less && !same
            case CmpLe => less || same
            case CmpGe => !less
  {
    hide ParseBigInt, StringLess, UnitsLess, CodeUnits, Spells;
    match (x, y)
    case (Str(s), Str(t)) => TextsOrdered(s, t);
    case (Big(m), Str(t)) =>
      var n :| Spells(t, n) && less == (m < n) && same == (m == n);
      SpelledIsRead(t, n);
    case (Str(s), Big(n)) =>
      var m :| Spells(s, m) && less == (m < n) && same == (m == n);
      SpelledIsRead(s, m);
    case _ =>
  }

  lemma TextsOrdered(s: string, t: string)
    ensures StringLess(s, t) <==> UnitsLess(CodeUnits(s), CodeUnits(t))
    ensures StringLess(t, s) <==> s != t && !StringLess(s, t)
  {
    hide StringLess;
    StringLessIsUnitsLess(s, t);
    LessIrreflexive(s);
    if s != t {
      LessTotal(s, t);
      if StringLess(s, t) && StringLess(t, s) {
        LessTransitive(s, t, s);
      }
    }
  }

  lemma ComparisonValue(cmp: Comparison, a: Expr, b: Expr, data: Data, x: Value, y: Value)
    requires Sound(Compare(cmp, a, b))
    requires ValueIn(a, data) == Success(x) && ValueIn(b, data) == Success(y)
    ensures ValueIn(Compare(cmp, a, b), data) == Success(Bool(CompareValues(x, cmp, y)))
  {
    hide Sound, Evaluate, TextOf, CompareValues;
    var e := Compare(cmp, a, b);
    SoundParts(e);
    ValueIs(e, data);
    ValueIs(a, data);
    ValueIs(b, data);
  }

  /** The six comparisons of values that have an order. */
  lemma ComparisonLaw(a: Expr, b: Expr, data: Data, x: Value, y: Value, less: bool, same: bool)
    requires forall cmp :: Sound(Compare(cmp, a, b))
    requires ValueIn(a, data) == Success(x) && ValueIn(b, data) == Success(y) && Stand(x, y, less, same)
    ensures var l, r := Operand(a, IsBinary(a)), Operand(b, IsBinary(b));
            && Evaluate(l + " == " + r, data) == Success(Bool(same))
            && Evaluate(l + " != " + r, data) == Success(Bool(!same))
            && Evaluate(l + " < " + r, data) == Success(Bool(less))
            && Evaluate(l + " > " + r, data) == Success(Bool(!less && !same))
            && Evaluate(l + " <= " + r, data) == Success(Bool(less || same))
            && Evaluate(l + " >= " + r, data) == Success(Bool(!less))
  {
    hide Sound, Evaluate, TextOf, Operand, CompareValues, Stand;
    forall cmp ensures ValueIn(Compare(cmp, a, b), data) == Success(Bool(CompareValues(x, cmp, y))) {
      ComparisonValue(cmp, a, b, data, x, y);
    }
    forall cmp { Compared(x, cmp, y, less, same); }
    ComparisonText(CmpEq, a, b);
    ComparisonText(CmpNe, a, b);
    ComparisonText(CmpLt, a, b);
    ComparisonText(CmpGt, a, b);
    ComparisonText(CmpLe, a, b);
    ComparisonText(CmpGe, a, b);
  }

  /** Two values that are not null and of which one is a boolean, undefined or an object, or that are a number and a
      text, have no order and are the same only if they are identical: the same value, or the same object. */
  predicate Unordered(x: Value, y: Value) {
    && !x.Null? && !y.Null?
    && (x.Bool? || y.Bool? || x.Undefined? || y.Undefined? || x.IsObject() || y.IsObject()
        || (x.Num? && y.Str?) || (x.Str? && y.Num?))
  }

  predicate Identical(x: Value, y: Value) {
    if x.Arr? && y.Arr? then x.ref == y.ref && x.ref != Fresh
    else if x.Obj? && y.Obj? then x.ref == y.ref && x.ref != Fresh
    else x == y && !x.IsObject()
  }

  lemma ComparedUnordered(x: Value, cmp: Comparison, y: Value)
    requires Unordered(x, y)
    ensures CompareValues(x, cmp, y) == if cmp.CmpEq? then Identical(x, y) else cmp.CmpNe? && !Identical(x, y)
  {
  }

  lemma IdentityLaw(a: Expr, b: Expr, data: Data, x: Value, y: Value)
    requires forall cmp :: Sound(Compare(cmp, a, b))
    requires ValueIn(a, data) == Success(x) && ValueIn(b, data) == Success(y) && Unordered(x, y)
    ensures var l, r := Operand(a, IsBinary(a)), Operand(b, IsBinary(b));
            && Evaluate(l + " == " + r, data) == Success(Bool(Identical(x, y)))
            && Evaluate(l + " != " + r, data) == Success(Bool(!Identical(x, y)))
            && Evaluate(l + " < " + r, data) == Success(Bool(false))
            && Evaluate(l + " > " + r, data) == Success(Bool(false))
            && Evaluate(l + " <= " + r, data) == Success(Bool(false))
            && Evaluate(l + " >= " + r, data) == Success(Bool(false))
  {
    hide Sound, Evaluate, TextOf, Operand, CompareValues, Unordered, Identical;
    forall cmp ensures ValueIn(Compare(cmp, a, b), data) == Success(Bool(CompareValues(x, cmp, y))) {
      ComparisonValue(cmp, a, b, data, x, y);
    }
    forall cmp { ComparedUnordered(x, cmp, y); }
    ComparisonText(CmpEq, a, b);
    ComparisonText(CmpNe, a, b);
    ComparisonText(CmpLt, a, b);
    ComparisonText(CmpGt, a, b);
    ComparisonText(CmpLe, a, b);
    ComparisonText(CmpGe, a, b);
  }

  lemma NullIs(data: Data)
    ensures Sound(NullLit) && ValueIn(NullLit, data) == Success(Null) && Operand(NullLit, IsBinary(NullLit)) == "null"
  {
    hide Evaluate, TextOf;
    assert FitsAt(NullLit, 0, 1);
    ValueIs(NullLit, data);
    LiteralTexts("");
  }

  lemma ComparedWithNull(x: Value, cmp: Comparison)
    ensures CompareValues(x, cmp, Null) == CompareValues(Null, cmp, x) ==
            if cmp.CmpEq? then x == Null || x == Undefined else cmp.CmpNe? && x != Null && x != Undefined
  {
    hide CompareAlike;
  }

  /** Comparing with null, on either side, asks whether a value is null or undefined; there is no order to it. The
      signs of the six comparisons are those of `ComparisonLaw`. */
  lemma NullLaw(cmp: Comparison, a: Expr, data: Data, x: Value)
    requires Sound(Compare(cmp, a, NullLit)) && Sound(Compare(cmp, NullLit, a)) && ValueIn(a, data) == Success(x)
    ensures var missing := x == Null || x == Undefined;
            ValueIn(Compare(cmp, a, NullLit), data) == ValueIn(Compare(cmp, NullLit, a), data) ==
            Success(Bool(if cmp.CmpEq? then missing else if cmp.CmpNe? then !missing else false))
    ensures var l := Operand(a, IsBinary(a));
            && TextOf(Compare(CmpEq, a, NullLit)) == l + " == " + "null"
            && TextOf(Compare(CmpNe, a, NullLit)) == l + " != " + "null"
            && TextOf(Compare(CmpEq, NullLit, a)) == "null" + " == " + l
            && TextOf(Compare(CmpNe, NullLit, a)) == "null" + " != " + l
  {
    hide Evaluate, TextOf, Operand, CompareValues, Sound;
    NullIs(data);
    ComparisonValue(cmp, a, NullLit, data, x, Null);
    ComparisonValue(cmp, NullLit, a, data, Null, x);
    ComparedWithNull(x, cmp);
    ComparisonText(CmpEq, a, NullLit);
    ComparisonText(CmpNe, a, NullLit);
    ComparisonText(CmpEq, NullLit, a);
    ComparisonText(CmpNe, NullLit, a);
  }
}
