/** What expression trees mean: every operand is evaluated, left to right, and the first error wins. */
module Semantics {
  import opened Results
  import opened Values
  import opened Syntax

  // ----- Operators on values -----

  /** Both sides as BigInts, or both as numbers, where one is a BigInt and the other converts to one. */
  function Coerce(l: Value, r: Value): (Value, Value) {
    match (l, r)
    case (Big(_), Str(s)) => if ParseBigInt(s).Some? then (l, Big(ParseBigInt(s).value)) else (l, r)
    case (Str(s), Big(_)) => if ParseBigInt(s).Some? then (Big(ParseBigInt(s).value), r) else (l, r)
    case (Big(_), Num(x)) => if IsIntegral(x) then (l, Big(x.Floor)) else (l, r)
    case (Num(x), Big(_)) => if IsIntegral(x) then (Big(x.Floor), r) else (l, r)
    case _ => (l, r)
  }

  predicate Decide(cmp: Comparison, eq: bool, lt: bool, gt: bool) {
    match cmp
    case CmpEq => eq
    case CmpNe => !eq
    case CmpLt => lt
    case CmpGt => gt
    case CmpLe => lt || eq
    case CmpGe => gt || eq
  }

  /** Values of one type compare by their order; others can only be the same or not. */
  predicate CompareAlike(l: Value, cmp: Comparison, r: Value) {
    match (l, r)
    case (Big(a), Big(b)) => Decide(cmp, a == b, a < b, a > b)
    case (Num(a), Num(b)) => Decide(cmp, a == b, a < b, a > b)
    case (Str(a), Str(b)) => Decide(cmp, a == b, StringLess(a, b), StringLess(b, a))
    case _ => if cmp.CmpEq? then StrictEq(l, r) else cmp.CmpNe? && !StrictEq(l, r)
  }

  predicate CompareValues(l: Value, cmp: Comparison, r: Value) {
    if r.Null? then (if cmp.CmpEq? then l.IsNullish() else cmp.CmpNe? && !l.IsNullish())
    else if l.Null? then (if cmp.CmpEq? then r.IsNullish() else cmp.CmpNe? && !r.IsNullish())
    else CompareAlike(Coerce(l, r).0, cmp, Coerce(l, r).1)
  }

  function Mirror(cmp: Comparison): Comparison {
    match cmp
    case CmpLt => CmpGt
    case CmpGt => CmpLt
    case CmpLe => CmpGe
    case CmpGe => CmpLe
    case _ => cmp
  }

  lemma StrictEqSymmetric(l: Value, r: Value)
    ensures StrictEq(l, r) == StrictEq(r, l)
  {
  }

  lemma CoerceSymmetric(l: Value, r: Value)
    ensures Coerce(l, r) == (Coerce(r, l).1, Coerce(r, l).0)
  {
    hide ParseBigInt, IsIntegral;
  }

  lemma DecideMirrors(cmp: Comparison, eq: bool, lt: bool, gt: bool)
    ensures Decide(cmp, eq, lt, gt) == Decide(Mirror(cmp), eq, gt, lt)
    ensures Decide(CmpNe, eq, lt, gt) == !Decide(CmpEq, eq, lt, gt)
  {
  }

  lemma AlikeMirrors(l: Value, cmp: Comparison, r: Value)
    ensures CompareAlike(l, cmp, r) == CompareAlike(r, Mirror(cmp), l)
    ensures CompareAlike(l, CmpNe, r) == !CompareAlike(l, CmpEq, r)
  {
    hide StringLess, StrictEq, Decide;
    StrictEqSymmetric(l, r);
    match (l, r)
    case (Big(m), Big(n)) => DecideMirrors(cmp, m == n, m < n, m > n);
    case (Num(m), Num(n)) => DecideMirrors(cmp, m == n, m < n, m > n);
    case (Str(m), Str(n)) => DecideMirrors(cmp, m == n, StringLess(m, n), StringLess(n, m));
    case _ =>
  }

  /** Whatever the types of its sides, a comparison reads the same from right to left, and `!=` denies `==`. */
  lemma ComparisonsMirror(l: Value, cmp: Comparison, r: Value)
    ensures CompareValues(l, cmp, r) == CompareValues(r, Mirror(cmp), l)
    ensures CompareValues(l, CmpNe, r) == !CompareValues(l, CmpEq, r)
  {
    hide Coerce, CompareAlike;
    CoerceSymmetric(l, r);
    AlikeMirrors(Coerce(l, r).0, cmp, Coerce(l, r).1);
  }

  /** A BigInt and a text that spells an integer compare as integers. */
  lemma ComparesTextAsInteger(n: int, cmp: Comparison, m: int)
    ensures CompareValues(Big(n), cmp, Str(IntText(m))) == Decide(cmp, n == m, n < m, n > m)
  {
    hide IntText, ParseBigInt, StringLess;
    BigIntOfText(m);
  }

  /** The sum of the values that are not nullish; None if one of them is not an integer. */
  function SumOf(vs: seq<Value>): Option<int> {
    if vs == [] then Some(0)
    else
      match SumOf(vs[..|vs| - 1])
      case None => None
      case Some(n) =>
        var v := vs[|vs| - 1];
        if v.IsNullish() then Some(n)
        else if BigIntOf(v).Some? then Some(n + BigIntOf(v).value)
        else None
  }

  function Total(vs: seq<Value>): Value {
    match SumOf(vs)
    case Some(n) => Big(n)
    case None => Big(0)
  }

  /** What each item contributes to a sum over one of its fields. */
  function Column(items: seq<Value>, name: string): seq<Value> {
    seq(|items|, i requires 0 <= i < |items| => if items[i].IsObject() then ResolvePath(items[i], name) else Undefined)
  }

  function SumListValue(v: Value): Value {
    if v.Arr? then Total(v.elems) else Big(0)
  }

  function SumFieldValue(v: Value, name: Value): Value {
    if v.Arr? && name.Str? then Total(Column(v.elems, name.s)) else Big(0)
  }

  function LengthValue(v: Value): Value {
    match v
    case Arr(_, elems) => Num(|elems| as real)
    case Str(s) => Num(|CodeUnits(s)| as real)
    case _ => Num(0.0)
  }

  function LenValue(v: Value): Value {
    if v.Obj? then Num(|v.fields| as real) else LengthValue(v)
  }

  /** The two-argument builtins; a nullish argument of a BigInt builtin counts as zero. */
  function CallValue(f: TwoArguments, l: Value, r: Value): Value {
    if f.StrictlyEqual? then Bool(StrictEq(l, r))
    else
      match (BigIntOf(OrElse(l, Num(0.0))), BigIntOf(OrElse(r, Num(0.0))))
      case (Some(a), Some(b)) =>
        (match f
         case BigintGte => Bool(a >= b)
         case BigintGt => Bool(a > b)
         case BigintEq => Bool(a == b)
         case BigintSub => Str(IntText(a - b))
         case BigintAdd => Str(IntText(a + b)))
      case _ =>
        if f.BigintSub? || f.BigintAdd? then Str("0") else Bool(false)
  }

  function DeltaValue(now: Value, before: Value): Value {
    match (BigIntOf(now), BigIntOf(before))
    case (Some(a), Some(b)) => Big(a - b)
    case _ =>
      match (NumberOf(now), NumberOf(before))
      case (Some(a), Some(b)) => Num(a - b)
      case _ => Big(0)
  }

  /** The temporal operators compare the record with the one in its `_previous` field. */
  function TemporalValue(op: TemporalOp, data: Data, path: string): Value {
    var prev := if "_previous" in data then data["_previous"] else Undefined;
    if prev.IsNullish() then
      match op
      case Changed => Bool(false)
      case Previous => Undefined
      case Delta => Big(0)
    else
      match op
      case Changed => Bool(!StrictEq(ResolveIn(data, path), ResolvePath(prev, path)))
      case Previous => ResolvePath(prev, path)
      case Delta => DeltaValue(OrElse(ResolveIn(data, path), Num(0.0)), OrElse(ResolvePath(prev, path), Num(0.0)))
  }

  // ----- Evaluation -----

  function Eval(e: Expr, data: Data): Result<Value, Error>
    decreases e, 0
  {
    match e
    case NumberLit(text) => Success(Num(ParseFloat(text)))
    case TextLit(value) => Success(Str(value))
    case NullLit => Success(Null)
    case BoolLit(b) => Success(Bool(b))
    case Field(path) => Success(ResolveIn(data, path))
    case LengthOf(path) => Success(LengthValue(ResolveIn(data, path)))
    case Every(path, param, body) =>
      var arr := ResolveIn(data, path);
      if arr.Arr? then
        var all :- EvalEvery(arr.elems, param, body, data);
        Success(Bool(all))
      else Success(Bool(false))
    case ArrayLit(elems) =>
      var vs :- EvalElems(elems, data);
      Success(Arr(Fresh, vs))
    case Not(a) =>
      var v :- Eval(a, data);
      Success(Bool(!Truthy(v)))
    case Compare(cmp, a, b) =>
      var l :- Eval(a, data);
      var r :- Eval(b, data);
      Success(Bool(CompareValues(l, cmp, r)))
    case And(a, b) =>
      var l :- Eval(a, data);
      var r :- Eval(b, data);
      Success(Bool(Truthy(l) && Truthy(r)))
    case Or(a, b) =>
      var l :- Eval(a, data);
      var r :- Eval(b, data);
      Success(Bool(Truthy(l) || Truthy(r)))
    case Implies(a, b) =>
      var l :- Eval(a, data);
      var r :- Eval(b, data);
      Success(Bool(Truthy(l) ==> Truthy(r)))
    case SumList(a) =>
      var v :- Eval(a, data);
      Success(SumListValue(v))
    case SumField(a, b) =>
      var v :- Eval(a, data);
      var name :- Eval(b, data);
      Success(SumFieldValue(v, name))
    case LenCall(a) =>
      var v :- Eval(a, data);
      Success(LenValue(v))
    case Call(f, a, b) =>
      var l :- Eval(a, data);
      var r :- Eval(b, data);
      Success(CallValue(f, l, r))
    case Temporal(op, path) => Success(TemporalValue(op, data, path))
    case Stuck(a, error) =>
      var _ :- Eval(a, data);
      Failure(error)
    case Bad(error) => Failure(error)
  }

  function EvalElems(es: Elems, data: Data): Result<seq<Value>, Error>
    decreases es, 0
  {
    match es
    case NoElems => Success([])
    case Elem(head, tail) =>
      var v :- Eval(head, data);
      var vs :- EvalElems(tail, data);
      Success([v] + vs)
  }

  /** Whether the body is truthy for every item, the parameter hiding a field of the same name. Items behind the
      first one for which it is not are never looked at. */
  function EvalEvery(items: seq<Value>, param: string, body: Expr, data: Data): Result<bool, Error>
    decreases body, |items| + 1
  {
    if items == [] then Success(true)
    else
      var v :- Eval(body, data[param := items[0]]);
      if Truthy(v) then EvalEvery(items[1..], param, body, data) else Success(false)
  }

  /** A broken tree fails, whatever the data. */
  lemma {:induction false} BrokenFails(e: Expr, data: Data)
    requires Broken(e)
    ensures Eval(e, data).Failure?
  {
    match e
    case Not(a) => BrokenFails(a, data);
    case Compare(_, a, b) => BrokenFails(if Broken(a) then a else b, data);
    case And(a, b) => BrokenFails(if Broken(a) then a else b, data);
    case Or(a, b) => BrokenFails(if Broken(a) then a else b, data);
    case Implies(a, b) => BrokenFails(if Broken(a) then a else b, data);
    case SumList(a) => BrokenFails(a, data);
    case SumField(a, b) => BrokenFails(if Broken(a) then a else b, data);
    case LenCall(a) => BrokenFails(a, data);
    case Call(_, a, b) => BrokenFails(if Broken(a) then a else b, data);
    case ArrayLit(es) => BrokenElemsFail(es, data);
    case Stuck(_, _) =>
    case Bad(_) =>
  }

  lemma {:induction false} BrokenElemsFail(es: Elems, data: Data)
    requires BrokenElems(es)
    ensures EvalElems(es, data).Failure?
  {
    if Broken(es.head) {
      BrokenFails(es.head, data);
    } else {
      BrokenElemsFail(es.tail, data);
    }
  }
}
