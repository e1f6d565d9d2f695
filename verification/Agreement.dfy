/** The validator and the evaluator compared. What the validator accepts, the evaluator consumes to the last
    symbol with no error but the depth limit, exactly when the strict check accepts it too. */
module Agreement {
  import opened Results
  import opened Values
  import opened Tokenizer
  import opened Syntax
  import opened Semantics
  import opened Nesting
  import opened Grammar

  // ----- Errors in trees, lambda bodies included -----

  /** No error anywhere. */
  predicate Clean(e: Expr) {
    match e
    case Every(_, _, body) => Clean(body)
    case ArrayLit(es) => CleanElems(es)
    case Not(a) => Clean(a)
    case Compare(_, a, b) => Clean(a) && Clean(b)
    case And(a, b) => Clean(a) && Clean(b)
    case Or(a, b) => Clean(a) && Clean(b)
    case Implies(a, b) => Clean(a) && Clean(b)
    case SumList(a) => Clean(a)
    case SumField(a, b) => Clean(a) && Clean(b)
    case LenCall(a) => Clean(a)
    case Call(_, a, b) => Clean(a) && Clean(b)
    case Stuck(_, _) => false
    case Bad(_) => false
    case _ => true
  }

  predicate CleanElems(es: Elems) {
    es.Elem? ==> Clean(es.head) && CleanElems(es.tail)
  }

  /** No error other than the depth limit. */
  predicate OnlyTooDeep(e: Expr) {
    match e
    case Every(_, _, body) => OnlyTooDeep(body)
    case ArrayLit(es) => ElemsOnlyTooDeep(es)
    case Not(a) => OnlyTooDeep(a)
    case Compare(_, a, b) => OnlyTooDeep(a) && OnlyTooDeep(b)
    case And(a, b) => OnlyTooDeep(a) && OnlyTooDeep(b)
    case Or(a, b) => OnlyTooDeep(a) && OnlyTooDeep(b)
    case Implies(a, b) => OnlyTooDeep(a) && OnlyTooDeep(b)
    case SumList(a) => OnlyTooDeep(a)
    case SumField(a, b) => OnlyTooDeep(a) && OnlyTooDeep(b)
    case LenCall(a) => OnlyTooDeep(a)
    case Call(_, a, b) => OnlyTooDeep(a) && OnlyTooDeep(b)
    case Stuck(_, _) => false
    case Bad(error) => error.DepthExceeded?
    case _ => true
  }

  predicate ElemsOnlyTooDeep(es: Elems) {
    es.Elem? ==> OnlyTooDeep(es.head) && ElemsOnlyTooDeep(es.tail)
  }

  lemma {:induction false} BrokenIsNotClean(e: Expr)
    requires Broken(e)
    ensures !Clean(e)
  {
    match e
    case Not(a) => BrokenIsNotClean(a);
    case Compare(_, a, b) => BrokenIsNotClean(if Broken(a) then a else b);
    case And(a, b) => BrokenIsNotClean(if Broken(a) then a else b);
    case Or(a, b) => BrokenIsNotClean(if Broken(a) then a else b);
    case Implies(a, b) => BrokenIsNotClean(if Broken(a) then a else b);
    case SumList(a) => BrokenIsNotClean(a);
    case SumField(a, b) => BrokenIsNotClean(if Broken(a) then a else b);
    case LenCall(a) => BrokenIsNotClean(a);
    case Call(_, a, b) => BrokenIsNotClean(if Broken(a) then a else b);
    case ArrayLit(es) => BrokenElemsAreNotClean(es);
    case _ =>
  }

  lemma {:induction false} BrokenElemsAreNotClean(es: Elems)
    requires BrokenElems(es)
    ensures !CleanElems(es)
  {
    if Broken(es.head) {
      BrokenIsNotClean(es.head);
    } else {
      BrokenElemsAreNotClean(es.tail);
    }
  }

  /** A clean tree has a value, whatever the data. */
  lemma {:induction false} CleanHasValue(e: Expr, data: Data)
    requires Clean(e)
    ensures Eval(e, data).Success?
    decreases e, 0
  {
    match e
    case Every(path, param, body) =>
      var arr := ResolveIn(data, path);
      if arr.Arr? {
        CleanForEvery(arr.elems, param, body, data);
      }
    case ArrayLit(es) => CleanElemsHaveValues(es, data);
    case Not(a) => CleanHasValue(a, data);
    case Compare(_, a, b) => CleanHasValue(a, data); CleanHasValue(b, data);
    case And(a, b) => CleanHasValue(a, data); CleanHasValue(b, data);
    case Or(a, b) => CleanHasValue(a, data); CleanHasValue(b, data);
    case Implies(a, b) => CleanHasValue(a, data); CleanHasValue(b, data);
    case SumList(a) => CleanHasValue(a, data);
    case SumField(a, b) => CleanHasValue(a, data); CleanHasValue(b, data);
    case LenCall(a) => CleanHasValue(a, data);
    case Call(_, a, b) => CleanHasValue(a, data); CleanHasValue(b, data);
    case _ =>
  }

  lemma {:induction false} CleanElemsHaveValues(es: Elems, data: Data)
    requires CleanElems(es)
    ensures EvalElems(es, data).Success?
    decreases es, 0
  {
    if es.Elem? {
      CleanHasValue(es.head, data);
      CleanElemsHaveValues(es.tail, data);
    }
  }

  lemma {:induction false} CleanForEvery(items: seq<Value>, param: string, body: Expr, data: Data)
    requires Clean(body)
    ensures EvalEvery(items, param, body, data).Success?
    decreases body, |items| + 1
  {
    if items != [] {
      CleanHasValue(body, data[param := items[0]]);
      CleanForEvery(items[1..], param, body, data);
    }
  }

  /** A tree whose only errors are depth errors has a value or raises the depth error. */
  lemma {:induction false} TooDeepIsTheOnlyError(e: Expr, data: Data)
    requires OnlyTooDeep(e)
    ensures Eval(e, data).Success? || Eval(e, data) == Failure(DepthExceeded)
    decreases e, 0
  {
    match e
    case Every(path, param, body) =>
      var arr := ResolveIn(data, path);
      if arr.Arr? {
        TooDeepForEvery(arr.elems, param, body, data);
      }
    case ArrayLit(es) => TooDeepInElems(es, data);
    case Not(a) => TooDeepIsTheOnlyError(a, data);
    case Compare(_, a, b) => TooDeepIsTheOnlyError(a, data); TooDeepIsTheOnlyError(b, data);
    case And(a, b) => TooDeepIsTheOnlyError(a, data); TooDeepIsTheOnlyError(b, data);
    case Or(a, b) => TooDeepIsTheOnlyError(a, data); TooDeepIsTheOnlyError(b, data);
    case Implies(a, b) => TooDeepIsTheOnlyError(a, data); TooDeepIsTheOnlyError(b, data);
    case SumList(a) => TooDeepIsTheOnlyError(a, data);
    case SumField(a, b) => TooDeepIsTheOnlyError(a, data); TooDeepIsTheOnlyError(b, data);
    case LenCall(a) => TooDeepIsTheOnlyError(a, data);
    case Call(_, a, b) => TooDeepIsTheOnlyError(a, data); TooDeepIsTheOnlyError(b, data);
    case _ =>
  }

  lemma {:induction false} TooDeepInElems(es: Elems, data: Data)
    requires ElemsOnlyTooDeep(es)
    ensures EvalElems(es, data).Success? || EvalElems(es, data) == Failure(DepthExceeded)
    decreases es, 0
  {
    if es.Elem? {
      TooDeepIsTheOnlyError(es.head, data);
      TooDeepInElems(es.tail, data);
    }
  }

  lemma {:induction false} TooDeepForEvery(items: seq<Value>, param: string, body: Expr, data: Data)
    requires OnlyTooDeep(body)
    ensures var r := EvalEvery(items, param, body, data); r.Success? || r == Failure(DepthExceeded)
    decreases body, |items| + 1
  {
    if items != [] {
      TooDeepIsTheOnlyError(body, data[param := items[0]]);
      TooDeepForEvery(items[1..], param, body, data);
    }
  }

  // ----- One walk over both parsers -----

  /** `ts` without its last `m` symbols. */
  function Cut(ts: seq<Symbol>, m: nat): seq<Symbol>
    requires m <= |ts|
  {
    ts[..|ts| - m]
  }

  lemma CutDrop(ts: seq<Symbol>, m: nat, k: nat)
    requires k + m <= |ts|
    ensures Cut(ts, m)[k..] == Cut(ts[k..], m)
  {
  }

  /** What follows an accepted stretch does not make a name before it a call or an indexing. */
  predicate Follows(rest: seq<Symbol>) {
    !At(rest, Open) && !At(rest, BracketOpen)
  }

  /** The validator accepts a stretch of `ts` and leaves `rest`, at least `m` symbols. */
  predicate Leaves(v: Check, m: nat, rest: seq<Symbol>) {
    v.Accept? && v.rest == rest && m <= |rest|
  }

  /** From depth `d`, no expression in an accepted stretch is entered beyond the limit. */
  predicate HasRoom(c: Check, d: nat)
    requires c.Accept?
  {
    c.peak == 0 || d + c.peak <= MAX_EXPRESSION_DEPTH
  }

  lemma RoomForBoth(a: Check, b: Check, d: nat)
    requires a.Accept?
    ensures b.Reject? ==> Then(a, b) == b
    ensures b.Accept? ==>
              && Then(a, b).Accept? && Then(a, b).rest == b.rest && Then(a, b).spent == a.spent + b.spent
              && (HasRoom(Then(a, b), d) <==> HasRoom(a, d) && HasRoom(b, d + a.spent))
  {
  }

  /** `read` is what the evaluator makes of the same stretch, from depth `d`, when the last `m` symbols are cut off,
      and `full` the opinion of the check in full. */
  ghost predicate Matches(ts: seq<Symbol>, m: nat, rest: seq<Symbol>, full: Check, read: Reading<Expr>, d: nat)
    requires m <= |rest|
  {
    && Skips(ts, rest)
    && (full.Accept? ==>
          && full.rest == rest && OnlyTooDeep(read.t)
          && (Clean(read.t) <==> HasRoom(full, d))
          && (read.Ok? ==> read.rest == Cut(rest, m) && read.depth == d + full.spent))
    && (full.Reject? ==> !Clean(read.t))
  }

  ghost predicate MatchesElems(ts: seq<Symbol>, m: nat, rest: seq<Symbol>, full: Check, read: Reading<Elems>, d: nat)
    requires m <= |rest|
  {
    && Skips(ts, rest)
    && (full.Accept? ==>
          && full.rest == rest && ElemsOnlyTooDeep(read.t)
          && (CleanElems(read.t) <==> HasRoom(full, d))
          && (read.Ok? ==> read.rest == Cut(rest, m) && read.depth == d + full.spent))
    && (full.Reject? ==> !CleanElems(read.t))
  }

  lemma CutAt(ts: seq<Symbol>, m: nat, sym: Symbol)
    requires m <= |ts|
    ensures At(Cut(ts, m), sym) <==> At(ts, sym) && |ts| > m
    ensures AtComparison(Cut(ts, m)) <==> AtComparison(ts) && |ts| > m
  {
  }

  lemma ErrorsInBoth(a: Expr, b: Expr)
    ensures Clean(Or(a, b)) == Clean(And(a, b)) == Clean(Implies(a, b)) == (Clean(a) && Clean(b))
    ensures OnlyTooDeep(Or(a, b)) == OnlyTooDeep(And(a, b)) == OnlyTooDeep(Implies(a, b))
    ensures OnlyTooDeep(Or(a, b)) == (OnlyTooDeep(a) && OnlyTooDeep(b))
    ensures Broken(Or(a, b)) == Broken(And(a, b)) == (Broken(a) || Broken(b))
  {
  }

  lemma PairErrors(a: Expr)
    ensures forall b: Expr :: Clean(Or(a, b)) == (Clean(a) && Clean(b))
    ensures forall b: Expr :: Clean(And(a, b)) == (Clean(a) && Clean(b))
    ensures forall b: Expr :: Clean(Implies(a, b)) == (Clean(a) && Clean(b))
    ensures forall b: Expr :: OnlyTooDeep(Or(a, b)) == (OnlyTooDeep(a) && OnlyTooDeep(b))
    ensures forall b: Expr :: OnlyTooDeep(And(a, b)) == (OnlyTooDeep(a) && OnlyTooDeep(b))
    ensures forall b: Expr :: OnlyTooDeep(Implies(a, b)) == (OnlyTooDeep(a) && OnlyTooDeep(b))
    ensures forall b: Expr :: Broken(Or(a, b)) == Broken(And(a, b)) == (Broken(a) || Broken(b))
    ensures forall error: Error :: !Clean(Bad(error)) && (OnlyTooDeep(Bad(error)) <==> error.DepthExceeded?)
  {
    forall b: Expr
      ensures Clean(Or(a, b)) == Clean(And(a, b)) == Clean(Implies(a, b)) == (Clean(a) && Clean(b))
      ensures OnlyTooDeep(Or(a, b)) == OnlyTooDeep(And(a, b)) == OnlyTooDeep(Implies(a, b))
      ensures OnlyTooDeep(Or(a, b)) == (OnlyTooDeep(a) && OnlyTooDeep(b))
      ensures Broken(Or(a, b)) == Broken(And(a, b)) == (Broken(a) || Broken(b))
    {
      ErrorsInBoth(a, b);
    }
  }

  lemma RoomEntered(c: Check, d: nat)
    ensures c.Reject? ==> Entered(c) == c
    ensures c.Accept? ==>
              && Entered(c) == Accept(c.rest, 1 + c.spent, 1 + c.peak)
              && (HasRoom(Entered(c), d) <==> d + 1 <= MAX_EXPRESSION_DEPTH && HasRoom(c, d + 1))
  {
  }

  lemma {:induction false} OrRestStaysUnclean(left: Expr, ts: seq<Symbol>, d: nat)
    requires !Broken(left) && !Clean(left)
    ensures !Clean(OrRest(left, ts, d).t)
    decreases |ts|
  {
    if At(ts, Op(OrOp)) {
      var r := ReadAnd(ts[1..], d);
      if r.Ok? {
        OrRestStaysUnclean(Or(left, r.t), r.rest, r.depth);
      }
    }
  }

  lemma {:induction false} AndRestStaysUnclean(left: Expr, ts: seq<Symbol>, d: nat)
    requires !Broken(left) && !Clean(left)
    ensures !Clean(AndRest(left, ts, d).t)
    decreases |ts|
  {
    if At(ts, Op(AndOp)) {
      var r := ReadComparison(ts[1..], d);
      if r.Ok? {
        AndRestStaysUnclean(And(left, r.t), r.rest, r.depth);
      }
    }
  }

  lemma {:induction false} MatchExpr(ts: seq<Symbol>, m: nat, rest: seq<Symbol>, dv: nat, side: bool, d: nat)
    requires Leaves(CheckExpr(ts, dv, side), m, rest) && Follows(rest)
    ensures Matches(ts, m, rest, CheckExpr(ts, dv, true), ReadExpr(Cut(ts, m), d), d)
    decreases |ts|, 9
  {
    hide CheckOr, ReadOr, Skips, Broken, Clean, OnlyTooDeep, HasRoom, Then;
    var l, full := CheckOr(ts, dv + 1, side), CheckOr(ts, dv + 1, true);
    if At(l.rest, Arrow) {
      RoomForBoth(l, CheckOr(l.rest[1..], dv + 1, side), d + 1);
    }
    if full.Accept? {
      if At(full.rest, Arrow) {
        var both := CheckOr(full.rest[1..], dv + 1, true);
        RoomForBoth(full, both, d + 1);
        RoomEntered(Then(full, both), d);
      } else {
        RoomEntered(full, d);
      }
    }
    var read := ReadOr(Cut(ts, m), d + 1);
    PairErrors(read.t);
    MatchOr(ts, m, l.rest, dv + 1, side, d + 1);
    if read.Err? {
      BrokenIsNotClean(read.t);
    }
    CutAt(l.rest, m, Arrow);
    if At(l.rest, Arrow) {
      var more := l.rest[1..];
      MatchOr(more, m, rest, dv + 1, side, if read.Ok? then read.depth else 0);
      CutDrop(l.rest, m, 1);
      SkipsOne(l.rest);
      SkipsOn(ts, l.rest, more);
      SkipsOn(ts, more, rest);
    }
  }

  lemma {:induction false} MatchOr(ts: seq<Symbol>, m: nat, rest: seq<Symbol>, dv: nat, side: bool, d: nat)
    requires Leaves(CheckOr(ts, dv, side), m, rest) && Follows(rest)
    ensures Matches(ts, m, rest, CheckOr(ts, dv, true), ReadOr(Cut(ts, m), d), d)
    decreases |ts|, 8
  {
    hide CheckAnd, ReadAnd, Skips;
    var l := CheckAnd(ts, dv, side);
    var read := ReadAnd(Cut(ts, m), d);
    MatchAnd(ts, m, l.rest, dv, side, d);
    if read.Ok? {
      MatchOrRest(read.t, l.rest, m, rest, dv, side, read.depth);
      if !Clean(read.t) {
        OrRestStaysUnclean(read.t, read.rest, read.depth);
      }
    } else {
      BrokenIsNotClean(read.t);
      MatchOrRest(NullLit, l.rest, m, rest, dv, side, 0);
    }
    SkipsOn(ts, l.rest, rest);
  }

  lemma OrRestStep(left: Expr, ts: seq<Symbol>, m: nat, dv: nat, d: nat)
    requires !Broken(left) && m <= |ts|
    ensures !(At(ts, Op(OrOp)) && m < |ts|) ==> OrRest(left, Cut(ts, m), d) == Ok(left, Cut(ts, m), d)
    ensures At(ts, Op(OrOp)) && m < |ts| ==>
              var r := ReadAnd(Cut(ts[1..], m), d);
              OrRest(left, Cut(ts, m), d) ==
              if r.Err? then Err(Or(left, r.t)) else OrRest(Or(left, r.t), r.rest, r.depth)
  {
    hide ReadAnd;
    CutAt(ts, m, Op(OrOp));
    if m < |ts| {
      CutDrop(ts, m, 1);
    }
  }

  lemma CheckOrRestStep(ts: seq<Symbol>, dv: nat, side: bool)
    ensures !At(ts, Op(OrOp)) ==> CheckOrRest(ts, dv, side) == Free(ts)
    ensures At(ts, Op(OrOp)) ==>
              var r := CheckAnd(ts[1..], dv, side);
              CheckOrRest(ts, dv, side) == if r.Accept? then Then(r, CheckOrRest(r.rest, dv, side)) else r
  {
    hide CheckAnd;
  }

  lemma {:induction false} MatchOrRest(left: Expr, ts: seq<Symbol>, m: nat, rest: seq<Symbol>, dv: nat, side: bool,
                                       d: nat)
    requires !Broken(left)
    requires Leaves(CheckOrRest(ts, dv, side), m, rest) && Follows(rest)
    ensures Follows(ts) && Skips(ts, rest)
    ensures var full, read := CheckOrRest(ts, dv, true), OrRest(left, Cut(ts, m), d);
            && (full.Accept? ==>
                  && full.rest == rest
                  && (OnlyTooDeep(left) ==> OnlyTooDeep(read.t))
                  && (Clean(left) ==> (Clean(read.t) <==> HasRoom(full, d)))
                  && (read.Ok? ==> read.rest == Cut(rest, m) && read.depth == d + full.spent))
            && (full.Reject? ==> !Clean(read.t))
    decreases |ts|, 8
  {
    hide CheckAnd, ReadAnd, OrRest, CheckOrRest, Skips, Cut, Then, HasRoom, Clean, OnlyTooDeep, Broken;
    RoomForNothing(ts, d);
    OrRestStep(left, ts, m, dv, d);
    CheckOrRestStep(ts, dv, side);
    CheckOrRestStep(ts, dv, true);
    CutAt(ts, m, Op(OrOp));
    if At(ts, Op(OrOp)) {
      var r, full := CheckAnd(ts[1..], dv, side), CheckAnd(ts[1..], dv, true);
      RoomForBoth(r, CheckOrRest(r.rest, dv, side), d);
      CheckOrRestStep(r.rest, dv, side);
      if full.Accept? {
        RoomForBoth(full, CheckOrRest(full.rest, dv, true), d);
      }
      CutDrop(ts, m, 1);
      var read := ReadAnd(Cut(ts[1..], m), d);
      MatchAnd(ts[1..], m, r.rest, dv, side, d);
      PairErrors(left);
      if read.Ok? {
        MatchOrRest(Or(left, read.t), r.rest, m, rest, dv, side, read.depth);
        if !Clean(read.t) {
          OrRestStaysUnclean(Or(left, read.t), read.rest, read.depth);
        }
      } else {
        MatchOrRest(left, r.rest, m, rest, dv, side, 0);
        BrokenIsNotClean(read.t);
      }
      SkipsOne(ts);
      SkipsOn(ts, ts[1..], r.rest);
      SkipsOn(ts, r.rest, rest);
    } else {
      SkipsNothing(ts);
    }
  }

  lemma {:induction false} MatchAnd(ts: seq<Symbol>, m: nat, rest: seq<Symbol>, dv: nat, side: bool, d: nat)
    requires Leaves(CheckAnd(ts, dv, side), m, rest) && Follows(rest)
    ensures Matches(ts, m, rest, CheckAnd(ts, dv, true), ReadAnd(Cut(ts, m), d), d)
    decreases |ts|, 7
  {
    hide CheckComparison, ReadComparison, Skips;
    var l := CheckComparison(ts, dv, side);
    var read := ReadComparison(Cut(ts, m), d);
    MatchComparison(ts, m, l.rest, dv, side, d);
    if read.Ok? {
      MatchAndRest(read.t, l.rest, m, rest, dv, side, read.depth);
      if !Clean(read.t) {
        AndRestStaysUnclean(read.t, read.rest, read.depth);
      }
    } else {
      BrokenIsNotClean(read.t);
      MatchAndRest(NullLit, l.rest, m, rest, dv, side, 0);
    }
    SkipsOn(ts, l.rest, rest);
  }

  lemma AndRestStep(left: Expr, ts: seq<Symbol>, m: nat, dv: nat, d: nat)
    requires !Broken(left) && m <= |ts|
    ensures !(At(ts, Op(AndOp)) && m < |ts|) ==> AndRest(left, Cut(ts, m), d) == Ok(left, Cut(ts, m), d)
    ensures At(ts, Op(AndOp)) && m < |ts| ==>
              var r := ReadComparison(Cut(ts[1..], m), d);
              AndRest(left, Cut(ts, m), d) ==
              if r.Err? then Err(And(left, r.t)) else AndRest(And(left, r.t), r.rest, r.depth)
  {
    hide ReadComparison;
    CutAt(ts, m, Op(AndOp));
    if m < |ts| {
      CutDrop(ts, m, 1);
    }
  }

  lemma CheckAndRestStep(ts: seq<Symbol>, dv: nat, side: bool)
    ensures !At(ts, Op(AndOp)) ==> CheckAndRest(ts, dv, side) == Free(ts)
    ensures At(ts, Op(AndOp)) ==>
              var r := CheckComparison(ts[1..], dv, side);
              CheckAndRest(ts, dv, side) == if r.Accept? then Then(r, CheckAndRest(r.rest, dv, side)) else r
  {
    hide CheckComparison;
  }

  lemma {:induction false} MatchAndRest(left: Expr, ts: seq<Symbol>, m: nat, rest: seq<Symbol>, dv: nat, side: bool,
                                       d: nat)
    requires !Broken(left)
    requires Leaves(CheckAndRest(ts, dv, side), m, rest) && Follows(rest)
    ensures Follows(ts) && Skips(ts, rest)
    ensures var full, read := CheckAndRest(ts, dv, true), AndRest(left, Cut(ts, m), d);
            && (full.Accept? ==>
                  && full.rest == rest
                  && (OnlyTooDeep(left) ==> OnlyTooDeep(read.t))
                  && (Clean(left) ==> (Clean(read.t) <==> HasRoom(full, d)))
                  && (read.Ok? ==> read.rest == Cut(rest, m) && read.depth == d + full.spent))
            && (full.Reject? ==> !Clean(read.t))
    decreases |ts|, 7
  {
    hide CheckComparison, ReadComparison, AndRest, CheckAndRest, Skips, Cut, Then, HasRoom, Clean, OnlyTooDeep, Broken;
    RoomForNothing(ts, d);
    AndRestStep(left, ts, m, dv, d);
    CheckAndRestStep(ts, dv, side);
    CheckAndRestStep(ts, dv, true);
    CutAt(ts, m, Op(AndOp));
    if At(ts, Op(AndOp)) {
      var r, full := CheckComparison(ts[1..], dv, side), CheckComparison(ts[1..], dv, true);
      RoomForBoth(r, CheckAndRest(r.rest, dv, side), d);
      CheckAndRestStep(r.rest, dv, side);
      if full.Accept? {
        RoomForBoth(full, CheckAndRest(full.rest, dv, true), d);
      }
      CutDrop(ts, m, 1);
      var read := ReadComparison(Cut(ts[1..], m), d);
      MatchComparison(ts[1..], m, r.rest, dv, side, d);
      PairErrors(left);
      if read.Ok? {
        MatchAndRest(And(left, read.t), r.rest, m, rest, dv, side, read.depth);
        if !Clean(read.t) {
          AndRestStaysUnclean(And(left, read.t), read.rest, read.depth);
        }
      } else {
        MatchAndRest(left, r.rest, m, rest, dv, side, 0);
        BrokenIsNotClean(read.t);
      }
      SkipsOne(ts);
      SkipsOn(ts, ts[1..], r.rest);
      SkipsOn(ts, r.rest, rest);
    } else {
      SkipsNothing(ts);
    }
  }

  lemma {:induction false} MatchComparison(ts: seq<Symbol>, m: nat, rest: seq<Symbol>, dv: nat, side: bool, d: nat)
    requires Leaves(CheckComparison(ts, dv, side), m, rest) && Follows(rest)
    ensures Matches(ts, m, rest, CheckComparison(ts, dv, true), ReadComparison(Cut(ts, m), d), d)
    decreases |ts|, 6
  {
    hide CheckUnary, ReadUnary, Skips, Broken;
    var l := CheckUnary(ts, dv, side);
    var read := ReadUnary(Cut(ts, m), d);
    MatchUnary(ts, m, l.rest, dv, side, d);
    if read.Err? {
      BrokenIsNotClean(read.t);
    }
    CutAt(l.rest, m, Arrow);
    if AtComparison(l.rest) {
      var more := l.rest[1..];
      MatchUnary(more, m, rest, dv, side, if read.Ok? then read.depth else 0);
      CutDrop(l.rest, m, 1);
      SkipsOne(l.rest);
      SkipsOn(ts, l.rest, more);
      SkipsOn(ts, more, rest);
    }
  }

  lemma {:induction false} MatchUnary(ts: seq<Symbol>, m: nat, rest: seq<Symbol>, dv: nat, side: bool, d: nat)
    requires Leaves(CheckUnary(ts, dv, side), m, rest) && Follows(rest)
    ensures Matches(ts, m, rest, CheckUnary(ts, dv, true), ReadUnary(Cut(ts, m), d), d)
    decreases |ts|, 5
  {
    hide CheckPrimary, ReadPrimary, Skips, Broken;
    CutAt(ts, m, Op(NotOp));
    if At(ts, Op(NotOp)) {
      CutDrop(ts, m, 1);
      MatchUnary(ts[1..], m, rest, dv, side, d);
      SkipsOne(ts);
      SkipsOn(ts, ts[1..], rest);
    } else {
      MatchPrimary(ts, m, rest, dv, side, d);
    }
  }

  lemma {:induction false} MatchPrimary(ts: seq<Symbol>, m: nat, rest: seq<Symbol>, dv: nat, side: bool, d: nat)
    requires Leaves(CheckPrimary(ts, dv, side), m, rest) && Follows(rest)
    ensures Matches(ts, m, rest, CheckPrimary(ts, dv, true), ReadPrimary(Cut(ts, m), d), d)
    decreases |ts|, 4
  {
    hide CheckExpr, CheckElems, CheckSum, CheckTwo, CheckTime, CheckField, ReadExpr, ReadElems, ReadCall, ReadField,
      Skips, Broken, WordOf;
    assert Cut(ts, m)[0] == ts[0];
    CutDrop(ts, m, 1);
    match ts[0] {
      case Open =>
        var a := CheckExpr(ts[1..], dv, side);
        MatchExpr(ts[1..], m, a.rest, dv, side, d);
        CutAt(a.rest, m, Close);
        CutDrop(a.rest, m, 1);
        SkipsGroup(ts, a.rest);
      case BracketOpen =>
        MatchElems(ts[1..], m, rest, dv, side, d);
        SkipsOne(ts);
        SkipsOn(ts, ts[1..], rest);
      case Number(_) => SkipsOne(ts);
      case Text(_) => SkipsOne(ts);
      case Ident(name) =>
        SkipsOne(ts);
        match WordOf(name) {
          case NullWord =>
          case BoolWord(_) =>
          case Function(f) => MatchFunction(f, ts, m, rest, dv, side, d);
          case FieldName => MatchField(ts, m, rest, dv, side, d);
        }
    }
  }

  lemma {:induction false} MatchFunction(f: Builtin, ts: seq<Symbol>, m: nat, rest: seq<Symbol>, dv: nat,
                                         side: bool, d: nat)
    requires ts != [] && ts[0].Ident? && WordOf(ts[0].name) == Function(f)
    requires Leaves(CheckPrimary(ts, dv, side), m, rest) && Follows(rest)
    ensures m < |ts| && Matches(ts, m, rest, CheckPrimary(ts, dv, true), ReadCall(f, Cut(ts[1..], m), d), d)
    decreases |ts|, 3, 2
  {
    hide CheckSum, CheckTwo, CheckTime, ReadSum, ReadTwo, ReadTime, CheckPath, Skips, Broken, WordOf;
    SkipsOne(ts);
    match f {
      case BigintSum =>
        MatchSum(ts[1..], m, rest, dv, side, d);
        SkipsOn(ts, ts[1..], rest);
      case Two(f2) =>
        if side || f2.BigintGte? || f2.BigintGt? {
          MatchTwo(f2, ts[1..], m, rest, dv, side, d);
          SkipsOn(ts, ts[1..], rest);
        } else {
          MatchNoCall(f, ts, m, rest, dv, d);
        }
      case Time(op) =>
        MatchTime(op, ts[1..], m, rest, dv, side, d);
        SkipsOn(ts, ts[1..], rest);
      case LenFunction =>
        if side {
          MatchLen(ts[1..], m, rest, dv, d);
          SkipsOn(ts, ts[1..], rest);
        } else {
          MatchNoCall(f, ts, m, rest, dv, d);
        }
      case Unmodelled => MatchNoCall(f, ts, m, rest, dv, d);
    }
  }

  /** The name of a function that only the evaluator knows is a field to the validator. */
  lemma UnknownIsField(f: Builtin, ts: seq<Symbol>, dv: nat)
    requires ts != [] && ts[0].Ident? && WordOf(ts[0].name) == Function(f) && !KnownCall(f)
    ensures CheckPrimary(ts, dv, false) == CheckPath(ts[1..], dv, false, false)
    ensures !At(ts[1..], Open) ==> CheckPrimary(ts, dv, true).Reject?
  {
    hide CheckPath, CheckExpr, WordOf;
  }

  lemma {:induction false} MatchNoCall(f: Builtin, ts: seq<Symbol>, m: nat, rest: seq<Symbol>, dv: nat, d: nat)
    requires ts != [] && ts[0].Ident? && WordOf(ts[0].name) == Function(f)
    requires !KnownCall(f)
    requires Leaves(CheckPrimary(ts, dv, false), m, rest) && Follows(rest)
    ensures m < |ts| && Matches(ts, m, rest, CheckPrimary(ts, dv, true), ReadCall(f, Cut(ts[1..], m), d), d)
    decreases |ts|, 3, 1
  {
    hide CheckPrimary, CheckPath, ReadTwo, ReadLen, PathRest, Skips, Broken, WordOf;
    UnknownIsField(f, ts, dv);
    SkipsOne(ts);
    MatchPath("", ts[1..], m, rest, dv, false, d);
    SkipsOn(ts, ts[1..], rest);
    NotACall(ts[1..], m, rest, dv, false);
    CutAt(ts[1..], m, Open);
  }

  /** A name the validator takes for a field is not followed by what a call or an indexing needs. */
  lemma NotACall(ts: seq<Symbol>, m: nat, rest: seq<Symbol>, dv: nat, side: bool)
    requires Leaves(CheckPath(ts, dv, side, false), m, rest) && Follows(rest)
    ensures m <= |ts| && Follows(ts) && Follows(Cut(ts, m))
  {
    CutAt(ts, m, Open);
    CutAt(ts, m, BracketOpen);
  }

  lemma {:induction false} MatchField(ts: seq<Symbol>, m: nat, rest: seq<Symbol>, dv: nat, side: bool, d: nat)
    requires Leaves(CheckField(ts, dv, side, false), m, rest) && Follows(rest)
    ensures m < |ts| && Matches(ts, m, rest, CheckField(ts, dv, true, false), ReadField(Cut(ts, m), d), d)
    decreases |ts|, 3, 1
  {
    hide CheckPath, PathRest, Skips, Broken;
    CutDrop(ts, m, 1);
    NotACall(ts[1..], m, rest, dv, side);
    MatchPath(ValueOf(ts[0]), ts[1..], m, rest, dv, side, d);
    SkipsOne(ts);
    SkipsOn(ts, ts[1..], rest);
  }

  lemma {:induction false} MatchPath(path: string, ts: seq<Symbol>, m: nat, rest: seq<Symbol>, dv: nat,
                                     side: bool, d: nat)
    requires Leaves(CheckPath(ts, dv, side, false), m, rest)
    ensures Matches(ts, m, rest, CheckPath(ts, dv, true, false), PathRest(path, Cut(ts, m), d), d)
    decreases |ts|, 3, 0
  {
    hide CheckEvery, ReadEvery, Skips, Broken, MemberOf;
    CutAt(ts, m, Dot);
    if At(ts, Dot) {
      var more := ts[2..];
      CutDrop(ts, m, 2);
      assert Cut(ts, m)[1] == ts[1];
      SkipsOne(ts);
      SkipsOne(ts[1..]);
      SkipsOn(ts, ts[1..], more);
      match MemberOf(ts[1].name) {
        case LengthMember =>
        case EveryMember => MatchEvery(path, more, m, rest, dv, side, d);
        case PlainMember => MatchPath(path + "." + ts[1].name, more, m, rest, dv, side, d);
      }
      if MemberOf(ts[1].name) != LengthMember {
        SkipsOn(ts, more, rest);
      }
    } else {
      SkipsNothing(ts);
    }
  }

  /** Cutting off symbols behind the closing parenthesis does not move it. */
  lemma {:induction false} EnclosedCut(ts: seq<Symbol>, m: nat, open: nat)
    requires m <= |ts| && Enclosed(ts, open) < |ts| - m
    ensures Enclosed(Cut(ts, m), open) == Enclosed(ts, open)
    decreases |ts|
  {
    if open != 0 && !(ts[0] == Close && open == 1) {
      CutDrop(ts, m, 1);
      EnclosedCut(ts[1..], m, if ts[0] == Open then open + 1 else if ts[0] == Close then open - 1 else open);
    }
  }

  lemma {:induction false} MatchEvery(path: string, ts: seq<Symbol>, m: nat, rest: seq<Symbol>, dv: nat,
                                      side: bool, d: nat)
    requires Leaves(CheckEvery(ts, dv, side), m, rest)
    ensures Matches(ts, m, rest, CheckEvery(ts, dv, true), ReadEvery(path, Cut(ts, m), d), d)
    decreases |ts|, 2
  {
    hide CheckExpr, ReadExpr, Skips, Broken, Enclosed;
    var inner := ts[3..];
    var body := CheckExpr(inner, dv, side).rest;
    MatchExpr(inner, 0, body, dv, side, d);
    MatchExpr(inner, |body|, body, dv, side, d);
    LambdaSkips(ts, inner, body);
    ReadCutLambda(path, ts, m, inner, body, d);
  }

  lemma LambdaSkips(ts: seq<Symbol>, inner: seq<Symbol>, body: seq<Symbol>)
    requires |ts| > 3 && ts[0] == Open && ts[1].Ident? && ts[2] == Arrow && ts[3..] == inner
    requires Skips(inner, body) && At(body, Close)
    ensures Skips(ts, body[1..])
  {
    hide Skips;
    assert ts[2..][1..] == inner && ts[1..][1..] == ts[2..];
    SkipsOne(ts[1..]);
    SkipsOne(ts[2..]);
    SkipsOn(ts[1..], ts[2..], inner);
    SkipsOn(ts[1..], inner, body);
    SkipsGroup(ts, body);
  }

  /** The evaluator cuts out exactly the symbols the validator took for the lambda's body. */
  lemma ReadCutLambda(path: string, ts: seq<Symbol>, m: nat, inner: seq<Symbol>, body: seq<Symbol>, d: nat)
    requires |ts| > 3 && ts[0] == Open && ts[1].Ident? && ts[2] == Arrow && ts[3..] == inner
    requires Skips(inner, body) && At(body, Close) && m < |body| <= |inner|
    ensures m <= |ts|
    ensures ReadEvery(path, Cut(ts, m), d)
         == Ok(Every(path, ts[1].name, ReadExpr(Cut(inner, |body|), d).t), Cut(body[1..], m), d)
  {
    hide ReadExpr, Skips, Enclosed;
    var n := |inner| - |body|;
    var us, cut := Cut(ts, m), Cut(inner, m);
    EnclosedIs(inner, body);
    EnclosedCut(inner, m, 1);
    CutDrop(ts, m, 3);
    SkipsSuffix(inner, body);
    assert us[0] == Open && us[1] == ts[1] && us[2..][0] == Arrow && us[3..] == cut;
    assert cut[..n] == Cut(inner, |body|);
    assert cut[n + 1..] == Cut(body[1..], m);
  }

  lemma {:induction false} MatchElement(ts: seq<Symbol>, m: nat, rest: seq<Symbol>, dv: nat, side: bool, d: nat)
    requires ts != [] && Leaves(CheckElement(ts, dv, side), m, rest) && Follows(rest)
    ensures m < |ts| && Matches(ts, m, rest, CheckElement(ts, dv, true), ReadElement(Cut(ts, m), d), d)
    decreases |ts|, 3, 2
  {
    hide CheckField, ReadField, Skips;
    assert Cut(ts, m)[0] == ts[0];
    FieldStarts(ts, dv, side);
    if ts[0].Number? || ts[0].Text? {
      SkipsOne(ts);
      CutDrop(ts, m, 1);
    } else {
      MatchField(ts, m, rest, dv, side, d);
    }
  }

  lemma {:induction false} MatchElems(ts: seq<Symbol>, m: nat, rest: seq<Symbol>, dv: nat, side: bool, d: nat)
    requires Leaves(CheckElems(ts, dv, side), m, rest)
    ensures MatchesElems(ts, m, rest, CheckElems(ts, dv, true), ReadElems(Cut(ts, m), d), d)
    decreases |ts|, 4
  {
    hide CheckElement, ReadElement, Skips, HasRoom, Then, Clean, OnlyTooDeep, CleanElems, ElemsOnlyTooDeep, Broken;
    assert Cut(ts, m)[0] == ts[0];
    ElemErrors(NullLit);
    if ts[0] == BracketClose {
      SkipsOne(ts);
      CutDrop(ts, m, 1);
      RoomForNothing(ts[1..], d);
    } else {
      var e := CheckElement(ts, dv, side);
      var next := if At(e.rest, Comma) then e.rest[1..] else e.rest;
      RoomForBoth(e, CheckElems(next, dv, side), d);
      ElemsStart(next, dv, side);
      MatchElement(ts, m, e.rest, dv, side, d);
      var read := ReadElement(Cut(ts, m), d);
      MatchElems(next, m, rest, dv, side, if read.Ok? then read.depth else 0);
      MatchMoreElems(ts, m, e.rest, rest, dv, d);
    }
  }

  /** An element that matches, an optional comma, and elements that match. */
  lemma MatchMoreElems(ts: seq<Symbol>, m: nat, mid: seq<Symbol>, rest: seq<Symbol>, dv: nat, d: nat)
    requires ts != [] && ts[0] != BracketClose && m < |ts| && m <= |rest| && m < |mid|
    requires Matches(ts, m, mid, CheckElement(ts, dv, true), ReadElement(Cut(ts, m), d), d)
    requires var next, read := if At(mid, Comma) then mid[1..] else mid, ReadElement(Cut(ts, m), d);
             var there := if read.Ok? then read.depth else 0;
             && m <= |next|
             && MatchesElems(next, m, rest, CheckElems(next, dv, true), ReadElems(Cut(next, m), there), there)
    ensures MatchesElems(ts, m, rest, CheckElems(ts, dv, true), ReadElems(Cut(ts, m), d), d)
  {
    hide CheckElement, ReadElement, Skips, HasRoom, Then, Clean, OnlyTooDeep, CleanElems, ElemsOnlyTooDeep, Broken;
    var next, read := if At(mid, Comma) then mid[1..] else mid, ReadElement(Cut(ts, m), d);
    assert Cut(ts, m)[0] == ts[0];
    CutAt(mid, m, Comma);
    if At(mid, Comma) {
      CutDrop(mid, m, 1);
      SkipsOne(mid);
      SkipsOn(ts, mid, next);
    }
    SkipsOn(ts, next, rest);
    var full := CheckElement(ts, dv, true);
    if full.Accept? {
      RoomForBoth(full, CheckElems(next, dv, true), d);
      assert CheckElems(ts, dv, true) == Then(full, CheckElems(next, dv, true));
    } else {
      assert CheckElems(ts, dv, true) == full;
    }
    ElemErrors(read.t);
    ElemErrors(NullLit);
    var all := ReadElems(Cut(ts, m), d);
    if read.Err? {
      BrokenIsNotClean(read.t);
      assert all == Err(Elem(read.t, NoElems));
    } else {
      var us := if At(read.rest, Comma) then read.rest[1..] else read.rest;
      assert all.t == Elem(read.t, ReadElems(us, read.depth).t);
      assert full.Accept? ==> us == Cut(next, m);
    }
  }

  /** A stretch, or two with a symbol between them, and a closing parenthesis. */
  lemma RoomForClosed(a: Check, d: nat)
    requires a.Accept?
    ensures var c := Then(a, Take(Close, a.rest));
            && (c.Accept? <==> At(a.rest, Close))
            && (c.Accept? ==> c.rest == a.rest[1..] && c.spent == a.spent && (HasRoom(c, d) <==> HasRoom(a, d)))
  {
  }

  lemma RoomForCall(a: Check, b: Check, d: nat)
    requires a.Accept? && b.Accept?
    ensures var c := Then(a, Then(b, Take(Close, b.rest)));
            && (c.Accept? <==> At(b.rest, Close))
            && (c.Accept? ==>
                  && c.rest == b.rest[1..] && c.spent == a.spent + b.spent
                  && (HasRoom(c, d) <==> HasRoom(a, d) && HasRoom(b, d + a.spent)))
  {
  }

  lemma CallErrors(f: TwoArguments, a: Expr)
    ensures forall b: Expr :: Clean(Call(f, a, b)) == (Clean(a) && Clean(b))
    ensures forall b: Expr :: OnlyTooDeep(Call(f, a, b)) == (OnlyTooDeep(a) && OnlyTooDeep(b))
    ensures forall b: Expr :: Clean(SumField(a, b)) == (Clean(a) && Clean(b))
    ensures forall b: Expr :: OnlyTooDeep(SumField(a, b)) == (OnlyTooDeep(a) && OnlyTooDeep(b))
    ensures Clean(SumList(a)) == Clean(a) && OnlyTooDeep(SumList(a)) == OnlyTooDeep(a)
    ensures forall e: Expr, error: Error :: !Clean(Stuck(e, error))
  {
  }

  lemma ElemErrors(a: Expr)
    ensures forall es: Elems :: CleanElems(Elem(a, es)) == (Clean(a) && CleanElems(es))
    ensures forall es: Elems :: ElemsOnlyTooDeep(Elem(a, es)) == (OnlyTooDeep(a) && ElemsOnlyTooDeep(es))
    ensures CleanElems(NoElems) && ElemsOnlyTooDeep(NoElems)
  {
  }

  lemma RoomForNothing(rest: seq<Symbol>, d: nat)
    ensures HasRoom(Free(rest), d)
  {
  }

  lemma ElemsStart(ts: seq<Symbol>, dv: nat, side: bool)
    ensures CheckElems(ts, dv, side).Accept? ==> ts != [] && Follows(ts) && ts[0] != Comma
  {
    if ts != [] && ts[0] != BracketClose {
      FieldStarts(ts, dv, side);
      assert CheckElement(ts, dv, side).Accept? ==> ts[0].Ident? || ts[0].Number? || ts[0].Text?;
    }
  }

  lemma FieldStarts(ts: seq<Symbol>, dv: nat, side: bool)
    ensures CheckField(ts, dv, side, false).Accept? ==> ts != [] && ts[0].Ident?
  {
  }

  lemma {:induction false} MatchSum(ts: seq<Symbol>, m: nat, rest: seq<Symbol>, dv: nat, side: bool, d: nat)
    requires Leaves(CheckSum(ts, dv, side), m, rest)
    ensures Matches(ts, m, rest, CheckSum(ts, dv, true), ReadCall(BigintSum, Cut(ts, m), d), d)
    decreases |ts|, 5
  {
    hide CheckPrimary, ReadPrimary, Skips, Broken, First, Clean, OnlyTooDeep, HasRoom, Then, ReadLen, ReadTwo, ReadTime;
    var a, fullA := CheckPrimary(ts[1..], dv, side), CheckPrimary(ts[1..], dv, true);
    RoomForClosed(a, d);
    if At(a.rest, Comma) {
      RoomForCall(a, CheckPrimary(a.rest[1..], dv, side), d);
    }
    CutDrop(ts, m, 1);
    if fullA.Accept? {
      RoomForClosed(fullA, d);
    }
    var read := ReadPrimary(Cut(ts[1..], m), d);
    MatchPrimary(ts[1..], m, a.rest, dv, side, d);
    CallErrors(BigintGte, read.t);
    if read.Err? {
      BrokenIsNotClean(read.t);
    }
    CutAt(a.rest, m, Comma);
    CutAt(a.rest, m, Close);
    CutDrop(a.rest, m, 1);
    if At(a.rest, Comma) {
      var more := a.rest[1..];
      var b, fullB := CheckPrimary(more, dv, side), CheckPrimary(more, dv, true);
      if fullA.Accept? && fullB.Accept? {
        RoomForCall(fullA, fullB, d);
      }
      var there := if read.Ok? then read.depth else 0;
      MatchPrimary(more, m, b.rest, dv, side, there);
      CutAt(b.rest, m, Close);
      CutDrop(b.rest, m, 1);
      CallSkips(ts, a.rest, b.rest);
    } else {
      SkipsGroup(ts, a.rest);
    }
  }

  lemma {:induction false} MatchTwo(f: TwoArguments, ts: seq<Symbol>, m: nat, rest: seq<Symbol>, dv: nat, side: bool,
                                    d: nat)
    requires Leaves(CheckTwo(ts, dv, side), m, rest)
    ensures Matches(ts, m, rest, CheckTwo(ts, dv, true), ReadCall(Two(f), Cut(ts, m), d), d)
    decreases |ts|, 10
  {
    hide CheckExpr, ReadExpr, Skips, Broken, First, Clean, OnlyTooDeep, HasRoom, Then, ReadLen, ReadSum, ReadTime;
    var a, fullA := CheckExpr(ts[1..], dv, side), CheckExpr(ts[1..], dv, true);
    var more := a.rest[1..];
    var b, fullB := CheckExpr(more, dv, side), CheckExpr(more, dv, true);
    RoomForCall(a, b, d);
    CutDrop(ts, m, 1);
    var read := ReadExpr(Cut(ts[1..], m), d);
    MatchExpr(ts[1..], m, a.rest, dv, side, d);
    if read.Err? {
      BrokenIsNotClean(read.t);
    }
    CutAt(a.rest, m, Comma);
    CutDrop(a.rest, m, 1);
    if fullA.Accept? && fullB.Accept? {
      RoomForCall(fullA, fullB, d);
    }
    var there := if read.Ok? then read.depth else 0;
    MatchExpr(more, m, b.rest, dv, side, there);
    CallErrors(f, read.t);
    CutAt(b.rest, m, Close);
    CutDrop(b.rest, m, 1);
    CallSkips(ts, a.rest, b.rest);
  }

  /** Two balanced arguments in parentheses. */
  lemma CallSkips(ts: seq<Symbol>, mid: seq<Symbol>, rest: seq<Symbol>)
    requires At(ts, Open) && At(mid, Comma) && At(rest, Close)
    requires Skips(ts[1..], mid) && Skips(mid[1..], rest)
    ensures Skips(ts, rest[1..])
  {
    hide Skips;
    SkipsOne(mid);
    SkipsOn(ts[1..], mid, mid[1..]);
    SkipsOn(ts[1..], mid[1..], rest);
    SkipsGroup(ts, rest);
  }

  lemma {:induction false} MatchLen(ts: seq<Symbol>, m: nat, rest: seq<Symbol>, dv: nat, d: nat)
    requires Leaves(CheckLen(ts, dv, true), m, rest)
    ensures Matches(ts, m, rest, CheckLen(ts, dv, true), ReadCall(LenFunction, Cut(ts, m), d), d)
    decreases |ts|, 10
  {
    hide CheckExpr, ReadExpr, Skips, Broken, First, ReadTwo, ReadSum, ReadTime;
    CutDrop(ts, m, 1);
    var a := CheckExpr(ts[1..], dv, true);
    var read := ReadExpr(Cut(ts[1..], m), d);
    MatchExpr(ts[1..], m, a.rest, dv, true, d);
    if read.Err? {
      BrokenIsNotClean(read.t);
    }
    CutAt(a.rest, m, Close);
    CutDrop(a.rest, m, 1);
    SkipsGroup(ts, a.rest);
  }

  lemma {:induction false} MatchTime(op: TemporalOp, ts: seq<Symbol>, m: nat, rest: seq<Symbol>, dv: nat,
                                     side: bool, d: nat)
    requires Leaves(CheckTime(ts, dv, side), m, rest)
    ensures Matches(ts, m, rest, CheckTime(ts, dv, true), ReadCall(Time(op), Cut(ts, m), d), d)
    decreases |ts|, 4
  {
    hide CheckPath, ReadTemporal, Skips, Broken;
    CutDrop(ts, m, 1);
    CutDrop(ts, m, 2);
    var a := CheckField(ts[1..], dv, side, side);
    assert Cut(ts, m)[1] == ts[1] && ts[1..][1..] == ts[2..];
    MatchTemporal(op, ts[1].name, ts[2..], m, a.rest, dv, side, d);
    SkipsOne(ts[1..]);
    SkipsOn(ts[1..], ts[2..], a.rest);
    SkipsGroup(ts, a.rest);
  }

  /** The path of a temporal operator, up to the closing parenthesis. */
  lemma {:induction false} MatchTemporal(op: TemporalOp, path: string, ts: seq<Symbol>, m: nat, rest: seq<Symbol>,
                                         dv: nat, side: bool, d: nat)
    requires Leaves(CheckPath(ts, dv, side, side), m, rest) && At(rest, Close) && m < |rest|
    ensures Skips(ts, rest)
    ensures var full, read := CheckPath(ts, dv, true, true), ReadTemporal(op, path, Cut(ts, m), d);
            && (full.Accept? ==>
                  && full.rest == rest && full.spent == full.peak == 0
                  && read.Ok? && read.t.Temporal? && read.rest == Cut(rest[1..], m) && read.depth == d)
            && (full.Reject? ==> read.Err? && read.t.Bad?)
    decreases |ts|, 3, 0
  {
    hide CheckEvery, Skips, Broken, MemberOf;
    CutAt(ts, m, Dot);
    CutAt(ts, m, Close);
    CutDrop(rest, m, 1);
    if At(ts, Dot) {
      var more := ts[2..];
      CutDrop(ts, m, 2);
      assert Cut(ts, m)[1] == ts[1];
      CutAt(more, m, Dot);
      CutAt(more, m, Close);
      SkipsOne(ts);
      SkipsOne(ts[1..]);
      SkipsOn(ts, ts[1..], more);
      match MemberOf(ts[1].name) {
        case LengthMember =>
        case EveryMember =>
          MatchEvery("", more, m, rest, dv, side, d);
          SkipsOn(ts, more, rest);
          EveryOpens(more, dv, side);
        case PlainMember =>
          MatchTemporal(op, path + "." + ts[1].name, more, m, rest, dv, side, d);
          SkipsOn(ts, more, rest);
      }
    } else {
      SkipsNothing(ts);
    }
  }

  lemma EveryOpens(ts: seq<Symbol>, dv: nat, side: bool)
    ensures CheckEvery(ts, dv, side).Accept? ==> At(ts, Open)
  {
  }
}
