/** When an error in a tree is reached. Every operand is evaluated, so an error outside the lambdas is reached on all
    data; one in a lambda body is reached only if the lambda is applied to something. */
module Lambdas {
  import opened Results
  import opened Values
  import opened Tokenizer
  import opened Syntax
  import opened Semantics
  import opened Agreement

  // ----- Trees without lambdas -----

  predicate LambdaFree(e: Expr) {
    match e
    case Every(_, _, _) => false
    case ArrayLit(es) => ElemsLambdaFree(es)
    case Not(a) => LambdaFree(a)
    case Compare(_, a, b) => LambdaFree(a) && LambdaFree(b)
    case And(a, b) => LambdaFree(a) && LambdaFree(b)
    case Or(a, b) => LambdaFree(a) && LambdaFree(b)
    case Implies(a, b) => LambdaFree(a) && LambdaFree(b)
    case SumList(a) => LambdaFree(a)
    case SumField(a, b) => LambdaFree(a) && LambdaFree(b)
    case LenCall(a) => LambdaFree(a)
    case Call(_, a, b) => LambdaFree(a) && LambdaFree(b)
    case Stuck(a, _) => LambdaFree(a)
    case _ => true
  }

  predicate ElemsLambdaFree(es: Elems) {
    es.Elem? ==> LambdaFree(es.head) && ElemsLambdaFree(es.tail)
  }

  lemma {:induction false} UncleanIsBroken(e: Expr)
    requires LambdaFree(e) && !Clean(e)
    ensures Broken(e)
  {
    match e
    case ArrayLit(es) => UncleanElemsAreBroken(es);
    case Not(a) => UncleanIsBroken(a);
    case Compare(_, a, b) => UncleanIsBroken(if Clean(a) then b else a);
    case And(a, b) => UncleanIsBroken(if Clean(a) then b else a);
    case Or(a, b) => UncleanIsBroken(if Clean(a) then b else a);
    case Implies(a, b) => UncleanIsBroken(if Clean(a) then b else a);
    case SumList(a) => UncleanIsBroken(a);
    case SumField(a, b) => UncleanIsBroken(if Clean(a) then b else a);
    case LenCall(a) => UncleanIsBroken(a);
    case Call(_, a, b) => UncleanIsBroken(if Clean(a) then b else a);
    case _ =>
  }

  lemma {:induction false} UncleanElemsAreBroken(es: Elems)
    requires ElemsLambdaFree(es) && !CleanElems(es)
    ensures BrokenElems(es)
  {
    if Clean(es.head) {
      UncleanElemsAreBroken(es.tail);
    } else {
      UncleanIsBroken(es.head);
    }
  }

  /** Without lambdas, a tree has a value exactly when there is no error in it, whatever the data. */
  lemma LambdaFreeHasValue(e: Expr, data: Data)
    requires LambdaFree(e)
    ensures Eval(e, data).Success? <==> Clean(e)
  {
    if Clean(e) {
      CleanHasValue(e, data);
    } else {
      UncleanIsBroken(e);
      BrokenFails(e, data);
    }
  }

  // ----- Linked lambdas -----

  /** A lambda inside the body of another ranges over something in the other's parameter; `scope` is the parameter of
      the enclosing lambda. */
  predicate Linked(e: Expr, scope: Option<string>) {
    match e
    case Every(path, param, body) =>
      (scope.Some? ==> Split(path, '.')[0] == scope.value) && Linked(body, Some(param))
    case ArrayLit(es) => ElemsLinked(es, scope)
    case Not(a) => Linked(a, scope)
    case Compare(_, a, b) => Linked(a, scope) && Linked(b, scope)
    case And(a, b) => Linked(a, scope) && Linked(b, scope)
    case Or(a, b) => Linked(a, scope) && Linked(b, scope)
    case Implies(a, b) => Linked(a, scope) && Linked(b, scope)
    case SumList(a) => Linked(a, scope)
    case SumField(a, b) => Linked(a, scope) && Linked(b, scope)
    case LenCall(a) => Linked(a, scope)
    case Call(_, a, b) => Linked(a, scope) && Linked(b, scope)
    case _ => true
  }

  predicate ElemsLinked(es: Elems, scope: Option<string>) {
    es.Elem? ==> Linked(es.head, scope) && ElemsLinked(es.tail, scope)
  }

  /** A value in which the path leads to `v`. */
  function Leading(names: seq<string>, v: Value): Value {
    if names == [] then v else Obj(Fresh, map[names[0] := Leading(names[1..], v)])
  }

  lemma {:induction false} LeadsThere(names: seq<string>, v: Value)
    ensures Resolve(Leading(names, v), names) == v
  {
    if names != [] {
      LeadsThere(names[1..], v);
    }
  }

  /** Data in which field `s` holds `w` makes the tree fail. */
  ghost predicate FailsWith(e: Expr, s: string, w: Value) {
    forall data: Data :: s in data && data[s] == w ==> Eval(e, data).Failure?
  }

  ghost predicate ElemsFailWith(es: Elems, s: string, w: Value) {
    forall data: Data :: s in data && data[s] == w ==> EvalElems(es, data).Failure?
  }

  lemma BodyFails(path: string, param: string, body: Expr, v: Value, data: Data)
    requires FailsWith(body, param, v)
    requires var names := Split(path, '.');
             names[0] in data && data[names[0]] == Leading(names[1..], Arr(Fresh, [v]))
    ensures Eval(Every(path, param, body), data).Failure?
  {
    hide Split;
    var names := Split(path, '.');
    LeadsThere(names[1..], Arr(Fresh, [v]));
    assert ResolveIn(data, path) == Arr(Fresh, [v]);
    assert Eval(body, data[param := [v][0]]).Failure?;
    assert EvalEvery([v], param, body, data).Failure?;
  }

  /** Where lambdas are linked, an error in a tree is reached on some data. */
  lemma {:induction false} LinkedFails(e: Expr, scope: Option<string>) returns (s: string, w: Value)
    requires Linked(e, scope) && !Clean(e)
    ensures scope.Some? ==> s == scope.value
    ensures FailsWith(e, s, w)
  {
    s, w := if scope.Some? then scope.value else "", Null;
    match e
    case Every(path, param, body) =>
      var p, v := LinkedFails(body, Some(param));
      var names := Split(path, '.');
      s, w := names[0], Leading(names[1..], Arr(Fresh, [v]));
      forall data: Data | s in data && data[s] == w ensures Eval(e, data).Failure? {
        BodyFails(path, param, body, v, data);
      }
    case ArrayLit(es) => s, w := LinkedElemsFail(es, scope);
    case Not(a) => s, w := LinkedFails(a, scope);
    case Compare(_, a, b) => s, w := LinkedFails(if Clean(a) then b else a, scope);
    case And(a, b) => s, w := LinkedFails(if Clean(a) then b else a, scope);
    case Or(a, b) => s, w := LinkedFails(if Clean(a) then b else a, scope);
    case Implies(a, b) => s, w := LinkedFails(if Clean(a) then b else a, scope);
    case SumList(a) => s, w := LinkedFails(a, scope);
    case SumField(a, b) => s, w := LinkedFails(if Clean(a) then b else a, scope);
    case LenCall(a) => s, w := LinkedFails(a, scope);
    case Call(_, a, b) => s, w := LinkedFails(if Clean(a) then b else a, scope);
    case _ =>
  }

  lemma {:induction false} LinkedElemsFail(es: Elems, scope: Option<string>) returns (s: string, w: Value)
    requires ElemsLinked(es, scope) && !CleanElems(es)
    ensures scope.Some? ==> s == scope.value
    ensures ElemsFailWith(es, s, w)
  {
    if Clean(es.head) {
      s, w := LinkedElemsFail(es.tail, scope);
    } else {
      s, w := LinkedFails(es.head, scope);
    }
  }

  /** Where lambdas are linked, a tree has a value on all data exactly when there is no error in it. */
  lemma LinkedHasValues(e: Expr)
    requires Linked(e, None)
    ensures (forall data: Data :: Eval(e, data).Success?) <==> Clean(e)
  {
    hide Eval, Clean, Linked;
    if Clean(e) {
      forall data: Data ensures Eval(e, data).Success? {
        CleanHasValue(e, data);
      }
    } else {
      var s, w := LinkedFails(e, None);
      var data: Data := map[s := w];
      assert Eval(e, data).Failure?;
    }
  }

  // ----- Symbols without lambdas are read as trees without lambdas -----

  predicate NoEvery(ts: seq<Symbol>) {
    Ident("every") !in ts
  }

  ghost predicate ReadsFree(r: Reading<Expr>) {
    LambdaFree(r.t) && (r.Ok? ==> NoEvery(r.rest))
  }

  lemma {:induction false} FreeExpr(ts: seq<Symbol>, d: nat)
    requires NoEvery(ts)
    ensures ReadsFree(ReadExpr(ts, d))
    decreases |ts|, 9
  {
    hide ReadOr, Broken;
    if d + 1 <= MAX_EXPRESSION_DEPTH {
      FreeOr(ts, d + 1);
      var l := ReadOr(ts, d + 1);
      if l.Ok? && At(l.rest, Arrow) {
        FreeOr(l.rest[1..], l.depth);
      }
    }
  }

  lemma {:induction false} FreeOr(ts: seq<Symbol>, d: nat)
    requires NoEvery(ts)
    ensures ReadsFree(ReadOr(ts, d))
    decreases |ts|, 8
  {
    hide ReadAnd, OrRest;
    FreeAnd(ts, d);
    var l := ReadAnd(ts, d);
    if l.Ok? {
      FreeOrRest(l.t, l.rest, l.depth);
    }
  }

  lemma {:induction false} FreeOrRest(left: Expr, ts: seq<Symbol>, d: nat)
    requires NoEvery(ts) && LambdaFree(left) && !Broken(left)
    ensures ReadsFree(OrRest(left, ts, d))
    decreases |ts|, 8
  {
    hide ReadAnd;
    if At(ts, Op(OrOp)) {
      FreeAnd(ts[1..], d);
      var r := ReadAnd(ts[1..], d);
      if r.Ok? {
        FreeOrRest(Or(left, r.t), r.rest, r.depth);
      }
    }
  }

  lemma {:induction false} FreeAnd(ts: seq<Symbol>, d: nat)
    requires NoEvery(ts)
    ensures ReadsFree(ReadAnd(ts, d))
    decreases |ts|, 7
  {
    hide ReadComparison, AndRest;
    FreeComparison(ts, d);
    var l := ReadComparison(ts, d);
    if l.Ok? {
      FreeAndRest(l.t, l.rest, l.depth);
    }
  }

  lemma {:induction false} FreeAndRest(left: Expr, ts: seq<Symbol>, d: nat)
    requires NoEvery(ts) && LambdaFree(left) && !Broken(left)
    ensures ReadsFree(AndRest(left, ts, d))
    decreases |ts|, 7
  {
    hide ReadComparison;
    if At(ts, Op(AndOp)) {
      FreeComparison(ts[1..], d);
      var r := ReadComparison(ts[1..], d);
      if r.Ok? {
        FreeAndRest(And(left, r.t), r.rest, r.depth);
      }
    }
  }

  lemma {:induction false} FreeComparison(ts: seq<Symbol>, d: nat)
    requires NoEvery(ts)
    ensures ReadsFree(ReadComparison(ts, d))
    decreases |ts|, 6
  {
    hide ReadUnary, Broken;
    FreeUnary(ts, d);
    var l := ReadUnary(ts, d);
    if l.Ok? && AtComparison(l.rest) {
      FreeUnary(l.rest[1..], l.depth);
    }
  }

  lemma {:induction false} FreeUnary(ts: seq<Symbol>, d: nat)
    requires NoEvery(ts)
    ensures ReadsFree(ReadUnary(ts, d))
    decreases |ts|, 5
  {
    hide ReadPrimary, Broken;
    if At(ts, Op(NotOp)) {
      FreeUnary(ts[1..], d);
    } else {
      FreePrimary(ts, d);
    }
  }

  lemma {:induction false} FreePrimary(ts: seq<Symbol>, d: nat)
    requires NoEvery(ts)
    ensures ReadsFree(ReadPrimary(ts, d))
    decreases |ts|, 4
  {
    hide ReadExpr, ReadElems, ReadCall, ReadField, WordOf, Broken;
    if ts != [] {
      match ts[0] {
        case Open => FreeExpr(ts[1..], d);
        case BracketOpen => FreeElems(ts[1..], d);
        case Ident(name) =>
          match WordOf(name) {
            case Function(f) => FreeCall(f, ts[1..], d);
            case FieldName => FreeField(ts, d);
            case _ =>
          }
        case _ =>
      }
    }
  }

  lemma {:induction false} FreeElems(ts: seq<Symbol>, d: nat)
    requires NoEvery(ts)
    ensures var r := ReadElems(ts, d); ElemsLambdaFree(r.t) && (r.Ok? ==> NoEvery(r.rest))
    decreases |ts|, 4
  {
    hide ReadField, Broken, BrokenElems;
    if ts != [] && ts[0] != BracketClose {
      FreeField(ts, d);
      var e := ReadElement(ts, d);
      assert ReadsFree(e);
      if e.Ok? {
        FreeElems(if At(e.rest, Comma) then e.rest[1..] else e.rest, e.depth);
      }
    }
  }

  lemma {:induction false} FreeField(ts: seq<Symbol>, d: nat)
    requires ts != [] && NoEvery(ts)
    ensures ReadsFree(ReadField(ts, d))
    decreases |ts|, 3
  {
    hide PathRest;
    FreePath(ValueOf(ts[0]), ts[1..], d);
  }

  lemma {:induction false} FreePath(path: string, ts: seq<Symbol>, d: nat)
    requires NoEvery(ts)
    ensures ReadsFree(PathRest(path, ts, d))
    decreases |ts|, 3
  {
    if At(ts, Dot) && |ts| > 1 && ts[1].Ident? {
      assert ts[1] in ts;
      if MemberOf(ts[1].name) == PlainMember {
        FreePath(path + "." + ts[1].name, ts[2..], d);
      }
    }
  }

  lemma {:induction false} FreeCall(f: Builtin, ts: seq<Symbol>, d: nat)
    requires NoEvery(ts)
    ensures ReadsFree(ReadCall(f, ts, d))
    decreases |ts|, 10
  {
    hide ReadExpr, ReadSum, ReadTime, Broken;
    if At(ts, Open) {
      match f {
        case BigintSum => FreeSum(ts[1..], d);
        case LenFunction => FreeExpr(ts[1..], d);
        case Two(f2) =>
          FreeExpr(ts[1..], d);
          var a := ReadExpr(ts[1..], d);
          if a.Ok? && At(a.rest, Comma) {
            FreeExpr(a.rest[1..], a.depth);
            assert LambdaFree(Call(f2, a.t, ReadExpr(a.rest[1..], a.depth).t));
          }
        case Time(op) => FreeTime(op, ts[1..], d);
        case Unmodelled =>
      }
    }
  }

  lemma {:induction false} FreeSum(ts: seq<Symbol>, d: nat)
    requires NoEvery(ts)
    ensures ReadsFree(ReadSum(ts, d))
    decreases |ts|, 5
  {
    hide ReadPrimary, Broken;
    FreePrimary(ts, d);
    var a := ReadPrimary(ts, d);
    if a.Ok? && At(a.rest, Comma) {
      FreePrimary(a.rest[1..], a.depth);
      assert LambdaFree(SumField(a.t, ReadPrimary(a.rest[1..], a.depth).t));
    }
  }

  lemma {:induction false} FreeTime(op: TemporalOp, ts: seq<Symbol>, d: nat)
    requires NoEvery(ts)
    ensures ReadsFree(ReadTime(op, ts, d))
  {
    if ts != [] && ts[0].Ident? {
      FreeTemporal(op, ts[0].name, ts[1..], d);
    }
  }

  lemma {:induction false} FreeTemporal(op: TemporalOp, path: string, ts: seq<Symbol>, d: nat)
    requires NoEvery(ts)
    ensures ReadsFree(ReadTemporal(op, path, ts, d))
    decreases |ts|
  {
    if At(ts, Dot) && |ts| > 1 && ts[1].Ident? {
      FreeTemporal(op, path + "." + ts[1].name, ts[2..], d);
    }
  }
}
