/** The one-pass evaluator: a recursive descent parser that computes values while it moves over the tokens.
    Every method is proved to compute the value of the tree read from the same place, to stop where that
    reading stops, whatever the data, and to fail with the error the tree raises. */
module Evaluator {
  import opened Results
  import opened Values
  import opened Tokenizer
  import opened Syntax
  import opened Semantics

  lemma FirstFails(a: Expr, b: Expr, data: Data)
    requires Eval(a, data).Failure?
    ensures Eval(Or(a, b), data) == Eval(And(a, b), data) == Eval(a, data)
  {
  }

  /** If the left operand of a chain fails, so does the chain. */
  lemma {:induction false} OrRestFails(left: Expr, ts: seq<Symbol>, d: nat, data: Data)
    requires !Broken(left) && Eval(left, data).Failure?
    ensures Eval(OrRest(left, ts, d).t, data) == Eval(left, data)
    decreases |ts|
  {
    hide Eval, ReadAnd;
    if At(ts, Op(OrOp)) {
      var r := ReadAnd(ts[1..], d);
      FirstFails(left, r.t, data);
      if r.Ok? {
        OrRestFails(Or(left, r.t), r.rest, r.depth, data);
      }
    }
  }

  lemma {:induction false} AndRestFails(left: Expr, ts: seq<Symbol>, d: nat, data: Data)
    requires !Broken(left) && Eval(left, data).Failure?
    ensures Eval(AndRest(left, ts, d).t, data) == Eval(left, data)
    decreases |ts|
  {
    hide Eval, ReadComparison;
    if At(ts, Op(AndOp)) {
      var r := ReadComparison(ts[1..], d);
      FirstFails(left, r.t, data);
      if r.Ok? {
        AndRestFails(And(left, r.t), r.rest, r.depth, data);
      }
    }
  }

  /** One step of reading a path. */
  lemma PathStep(path: string, ts: seq<Symbol>, d: nat)
    ensures !At(ts, Dot) ==> PathRest(path, ts, d) == Ok(Field(path), ts, d)
    ensures At(ts, Dot) && |ts| == 1 ==> PathRest(path, ts, d) == Err(Bad(ExpectedIdentifier(None)))
    ensures At(ts, Dot) && |ts| > 1 ==>
              PathRest(path, ts, d) ==
              if !ts[1].Ident? then Ok(Field(path), ts[1..], d)
              else
                match MemberOf(ts[1].name)
                case LengthMember => Ok(LengthOf(path), ts[2..], d)
                case EveryMember => ReadEvery(path, ts[2..], d)
                case PlainMember => PathRest(path + "." + ts[1].name, ts[2..], d)
  {
    hide MemberOf, ReadEvery;
  }

  /** One step of reading the path of a temporal operator. */
  lemma TemporalStep(op: TemporalOp, path: string, ts: seq<Symbol>, d: nat)
    requires At(ts, Dot)
    ensures ReadTemporal(op, path, ts, d) ==
            if |ts| > 1 && ts[1].Ident? then ReadTemporal(op, path + "." + ts[1].name, ts[2..], d)
            else Err(Bad(ExpectedIdentifier(First(ts[1..]))))
  {
  }

  lemma BadMeans(error: Error, data: Data)
    ensures Eval(Bad(error), data) == Failure(error)
  {
  }

  lemma TemporalMeans(op: TemporalOp, path: string, data: Data)
    ensures Eval(Temporal(op, path), data) == Success(TemporalValue(op, data, path))
  {
  }

  /** Where reading got stuck behind a tree, the tree is evaluated first. */
  lemma StuckMeans(e: Expr, error: Error, data: Data)
    ensures Eval(Stuck(e, error), data) == if Eval(e, data).Failure? then Eval(e, data) else Failure(error)
  {
  }

  lemma CallMeans(f2: TwoArguments, a: Expr, b: Expr, data: Data)
    ensures Eval(Call(f2, a, b), data) ==
            if Eval(a, data).Failure? then Eval(a, data)
            else if Eval(b, data).Failure? then Eval(b, data)
            else Success(CallValue(f2, Eval(a, data).value, Eval(b, data).value))
  {
    hide CallValue;
  }

  lemma TwoFails(f2: TwoArguments, ts: seq<Symbol>, d: nat, data: Data)
    requires Eval(ReadExpr(ts, d).t, data).Failure?
    ensures Eval(ReadTwo(f2, ts, d).t, data) == Eval(ReadExpr(ts, d).t, data)
  {
    hide Broken, ReadExpr, Eval, CallValue;
    var a := ReadExpr(ts, d);
    if a.Ok? {
      StuckMeans(a.t, Expected(Comma, First(a.rest)), data);
      if At(a.rest, Comma) {
        var b := ReadExpr(a.rest[1..], a.depth);
        CallMeans(f2, a.t, b.t, data);
        if b.Ok? {
          StuckMeans(Call(f2, a.t, b.t), Expected(Close, First(b.rest)), data);
        }
      }
    }
  }

  lemma SumFails(ts: seq<Symbol>, d: nat, data: Data)
    requires Eval(ReadPrimary(ts, d).t, data).Failure?
    ensures Eval(ReadSum(ts, d).t, data) == Eval(ReadPrimary(ts, d).t, data)
  {
    hide Broken, ReadPrimary, CompareValues, SumFieldValue, CallValue, TemporalValue, ResolvePath, EvalEvery, EvalElems,
      Truthy;
    var a := ReadPrimary(ts, d);
    if a.Ok? && At(a.rest, Comma) {
      var b := ReadPrimary(a.rest[1..], a.depth);
      assert Eval(SumField(a.t, b.t), data) == Eval(a.t, data);
    }
  }

  lemma {:induction false} SumStaysNone(vs: seq<Value>, n: nat)
    requires n <= |vs| && SumOf(vs[..n]).None?
    ensures SumOf(vs).None?
  {
    if n == |vs| {
      assert vs[..n] == vs;
    } else {
      assert vs[..n] == vs[..|vs| - 1][..n];
      SumStaysNone(vs[..|vs| - 1], n);
    }
  }

  /** The summing loop over a list of values. */
  method AddUp(vs: seq<Value>) returns (total: Value)
    ensures total == Total(vs)
  {
    var sum, i := 0, 0;
    while i < |vs|
      invariant 0 <= i <= |vs|
      invariant SumOf(vs[..i]) == Some(sum)
    {
      var val := vs[i];
      assert vs[..i + 1][..i] == vs[..i];
      if !val.IsNullish() {
        var n := BigIntOf(val);
        if n.None? {
          SumStaysNone(vs, i + 1);
          return Big(0);
        }
        sum := sum + n.value;
      }
      i := i + 1;
    }
    assert vs[..i] == vs;
    return Big(sum);
  }

  /** The summing loop over a field of the items of a list. */
  method AddUpField(items: seq<Value>, name: string) returns (total: Value)
    ensures total == Total(Column(items, name))
  {
    ghost var vs := Column(items, name);
    var sum, i := 0, 0;
    while i < |items|
      invariant 0 <= i <= |items|
      invariant SumOf(vs[..i]) == Some(sum)
    {
      assert vs[..i + 1][..i] == vs[..i];
      if items[i].IsObject() {
        var val := ResolveLoop(items[i], name);
        if !val.IsNullish() {
          var n := BigIntOf(val);
          if n.None? {
            SumStaysNone(vs, i + 1);
            return Big(0);
          }
          sum := sum + n.value;
        }
      }
      i := i + 1;
    }
    assert vs[..i] == vs;
    return Big(sum);
  }

  class Parser {
    const tokens: seq<Symbol>
    const data: Data
    var pos: nat
    var depth: nat

    constructor (tokens: seq<Symbol>, data: Data, depth: nat)
      ensures this.tokens == tokens && this.data == data && this.pos == 0 && this.depth == depth
    {
      this.tokens, this.data, this.pos, this.depth := tokens, data, 0, depth;
    }

    /** The result is the value of the tree, and on success the parser is where the reading stops. */
    ghost predicate Follows(r: Result<Value, Error>, reading: Reading<Expr>)
      reads this
    {
      && r == Eval(reading.t, data)
      && (r.Success? ==>
            && reading.Ok?
            && pos <= |tokens| && tokens[pos..] == reading.rest
            && depth == reading.depth)
    }

    function Peek(): Option<Symbol>
      reads this
    {
      if pos < |tokens| then Some(tokens[pos]) else None
    }

    method Expect(sym: Symbol) returns (r: Result<(), Error>)
      requires pos <= |tokens|
      modifies this`pos
      ensures old(At(tokens[pos..], sym)) ==>
                r.Success? && pos == old(pos) + 1 && pos <= |tokens| && tokens[pos..] == old(tokens[pos..])[1..]
      ensures !old(At(tokens[pos..], sym)) ==> r == Failure(Expected(sym, old(First(tokens[pos..]))))
    {
      var tok := Peek();
      if tok != Some(sym) {
        return Failure(Expected(sym, tok));
      }
      pos := pos + 1;
      return Success(());
    }

    method ParseExpr() returns (r: Result<Value, Error>)
      requires pos <= |tokens|
      modifies this
      ensures Follows(r, old(ReadExpr(tokens[pos..], depth)))
      decreases |tokens|, |tokens| - pos, 9
    {
      hide CompareValues, SumListValue, SumFieldValue, LenValue, LengthValue, CallValue, TemporalValue,
        ResolvePath, ParseFloat, Truthy, ReadOr, EvalEvery, EvalElems;
      depth := depth + 1;
      if depth > MAX_EXPRESSION_DEPTH {
        return Failure(DepthExceeded);
      }
      var left :- ParseOr();
      if Peek() == Some(Arrow) {
        pos := pos + 1;
        var right :- ParseOr();
        return Success(Bool(!Truthy(left) || Truthy(right)));
      }
      return Success(left);
    }

    method ParseOr() returns (r: Result<Value, Error>)
      requires pos <= |tokens|
      modifies this
      ensures Follows(r, old(ReadOr(tokens[pos..], depth)))
      decreases |tokens|, |tokens| - pos, 8
    {
      hide ReadAnd, CompareValues, SumListValue, SumFieldValue, LenValue, LengthValue, CallValue,
        TemporalValue, ResolvePath, ParseFloat, Truthy, EvalEvery, EvalElems;
      ghost var ts, d := tokens[pos..], depth;
      ghost var first := ReadAnd(ts, d);
      var value := ParseAnd();
      if value.Failure? {
        if first.Ok? {
          OrRestFails(first.t, first.rest, first.depth, data);
        }
        return value;
      }
      var left := value.value;
      ghost var e := first.t;
      while Peek() == Some(Op(OrOp))
        invariant old(pos) < pos <= |tokens|
        invariant !Broken(e) && Eval(e, data) == Success(left)
        invariant OrRest(e, tokens[pos..], depth) == ReadOr(ts, d)
        decreases |tokens| - pos
      {
        pos := pos + 1;
        ghost var next := ReadAnd(tokens[pos..], depth);
        var right := ParseAnd();
        if right.Failure? {
          if next.Ok? {
            OrRestFails(Or(e, next.t), next.rest, next.depth, data);
          }
          return right;
        }
        left := Bool(Truthy(left) || Truthy(right.value));
        e := Or(e, next.t);
      }
      return Success(left);
    }

    method ParseAnd() returns (r: Result<Value, Error>)
      requires pos <= |tokens|
      modifies this
      ensures Follows(r, old(ReadAnd(tokens[pos..], depth)))
      decreases |tokens|, |tokens| - pos, 7
    {
      hide ReadComparison, CompareValues, SumListValue, SumFieldValue, LenValue, LengthValue, CallValue,
        TemporalValue, ResolvePath, ParseFloat, Truthy, EvalEvery, EvalElems;
      ghost var ts, d := tokens[pos..], depth;
      ghost var first := ReadComparison(ts, d);
      var value := ParseComparison();
      if value.Failure? {
        if first.Ok? {
          AndRestFails(first.t, first.rest, first.depth, data);
        }
        return value;
      }
      var left := value.value;
      ghost var e := first.t;
      while Peek() == Some(Op(AndOp))
        invariant old(pos) < pos <= |tokens|
        invariant !Broken(e) && Eval(e, data) == Success(left)
        invariant AndRest(e, tokens[pos..], depth) == ReadAnd(ts, d)
        decreases |tokens| - pos
      {
        pos := pos + 1;
        ghost var next := ReadComparison(tokens[pos..], depth);
        var right := ParseComparison();
        if right.Failure? {
          if next.Ok? {
            AndRestFails(And(e, next.t), next.rest, next.depth, data);
          }
          return right;
        }
        left := Bool(Truthy(left) && Truthy(right.value));
        e := And(e, next.t);
      }
      return Success(left);
    }

    method ParseComparison() returns (r: Result<Value, Error>)
      requires pos <= |tokens|
      modifies this
      ensures Follows(r, old(ReadComparison(tokens[pos..], depth)))
      decreases |tokens|, |tokens| - pos, 6
    {
      hide CompareValues, SumListValue, SumFieldValue, LenValue, LengthValue, CallValue, TemporalValue,
        ResolvePath, ParseFloat, Truthy, ReadUnary, EvalEvery, EvalElems;
      var left :- ParseUnary();
      var tok := Peek();
      if tok.Some? && tok.value.Op? && ComparisonOf(tok.value.op).Some? {
        pos := pos + 1;
        var right :- ParseUnary();
        return Success(Bool(CompareValues(left, ComparisonOf(tok.value.op).value, right)));
      }
      return Success(left);
    }

    method ParseUnary() returns (r: Result<Value, Error>)
      requires pos <= |tokens|
      modifies this
      ensures Follows(r, old(ReadUnary(tokens[pos..], depth)))
      decreases |tokens|, |tokens| - pos, 5
    {
      hide CompareValues, SumListValue, SumFieldValue, LenValue, LengthValue, CallValue, TemporalValue,
        ResolvePath, ParseFloat, Truthy, ReadPrimary, EvalEvery, EvalElems;
      if Peek() == Some(Op(NotOp)) {
        pos := pos + 1;
        var operand :- ParseUnary();
        return Success(Bool(!Truthy(operand)));
      }
      r := ParsePrimary();
    }

    method ParsePrimary() returns (r: Result<Value, Error>)
      requires pos <= |tokens|
      modifies this
      ensures Follows(r, old(ReadPrimary(tokens[pos..], depth)))
      decreases |tokens|, |tokens| - pos, 4
    {
      hide ReadExpr, ReadElems, ReadCall, ReadField, WordOf, CompareValues, SumListValue, SumFieldValue,
        LenValue, LengthValue, CallValue, TemporalValue, ResolvePath, ParseFloat, Truthy, EvalEvery, EvalElems;
      var tok := Peek();
      if tok.None? {
        return Failure(UnexpectedEnd);
      }
      match tok.value {
        case Open =>
          pos := pos + 1;
          var val :- ParseExpr();
          var _ :- Expect(Close);
          return Success(val);
        case BracketOpen =>
          pos := pos + 1;
          var elements :- ParseElements();
          return Success(Arr(Fresh, elements));
        case Number(text) =>
          pos := pos + 1;
          return Success(Num(ParseFloat(text)));
        case Text(value) =>
          pos := pos + 1;
          return Success(Str(value));
        case Ident(name) =>
          match WordOf(name) {
            case NullWord =>
              pos := pos + 1;
              return Success(Null);
            case BoolWord(b) =>
              pos := pos + 1;
              return Success(Bool(b));
            case Function(f) =>
              pos := pos + 1;
              r := ParseCall(f);
            case FieldName =>
              r := ParseFieldPath();
          }
        case _ =>
          return Failure(UnexpectedToken(tok.value));
      }
    }

    /** The loop over the elements of an array literal. */
    method ParseElements() returns (r: Result<seq<Value>, Error>)
      requires pos <= |tokens|
      modifies this
      ensures r == EvalElems(old(ReadElems(tokens[pos..], depth)).t, data)
      ensures r.Success? ==>
                var reading := old(ReadElems(tokens[pos..], depth));
                && reading.Ok?
                && pos <= |tokens| && tokens[pos..] == reading.rest
                && depth == reading.depth
      decreases |tokens|, |tokens| - pos, 4
    {
      hide ReadElement, CompareValues, SumListValue, SumFieldValue, LenValue, LengthValue, CallValue,
        TemporalValue, ResolvePath, ParseFloat, Truthy, EvalEvery;
      var elements: seq<Value> := [];
      ghost var all := ReadElems(tokens[pos..], depth);
      PrependNone(EvalElems(all.t, data));
      while Peek().Some? && Peek() != Some(BracketClose)
        invariant old(pos) <= pos <= |tokens|
        invariant var left := ReadElems(tokens[pos..], depth);
                  && EvalElems(all.t, data) == Prepend(elements, EvalElems(left.t, data))
                  && (all.Ok? <==> left.Ok?)
                  && (all.Ok? ==> all.rest == left.rest && all.depth == left.depth)
        decreases |tokens| - pos
      {
        ghost var here := ReadElems(tokens[pos..], depth);
        ghost var reading := ReadElement(tokens[pos..], depth);
        var element :- ParseElement();
        if Peek() == Some(Comma) {
          pos := pos + 1;
        }
        ghost var next := ReadElems(tokens[pos..], depth);
        assert here.t == Elem(reading.t, next.t);
        PrependOne(elements, element, EvalElems(next.t, data));
        elements := elements + [element];
      }
      var _ :- Expect(BracketClose);
      assert elements + [] == elements;
      return Success(elements);
    }

    method ParseElement() returns (r: Result<Value, Error>)
      requires pos < |tokens|
      modifies this
      ensures Follows(r, old(ReadElement(tokens[pos..], depth)))
      decreases |tokens|, |tokens| - pos, 3, 1
    {
      hide CompareValues, SumListValue, SumFieldValue, LenValue, LengthValue, CallValue, TemporalValue,
        ResolvePath, ParseFloat, Truthy, ReadField, EvalEvery, EvalElems;
      match tokens[pos] {
        case Text(value) =>
          pos := pos + 1;
          return Success(Str(value));
        case Number(text) =>
          pos := pos + 1;
          return Success(Num(ParseFloat(text)));
        case _ =>
          r := ParseFieldPath();
      }
    }

    method ParseFieldPath() returns (r: Result<Value, Error>)
      requires pos < |tokens|
      modifies this
      ensures Follows(r, old(ReadField(tokens[pos..], depth)))
      decreases |tokens|, |tokens| - pos, 3, 0
    {
      hide Broken, PathRest, MemberOf, ReadEvery, ResolvePath, LengthValue, ValueOf, CompareValues;
      hide SumListValue, SumFieldValue, LenValue, CallValue, TemporalValue, ParseFloat, Truthy, EvalEvery, EvalElems;
      ghost var ts, d := tokens[pos..], depth;
      var path := ValueOf(tokens[pos]);
      pos := pos + 1;
      assert ts[1..] == tokens[pos..];
      if Peek() == Some(BracketOpen) {
        return Failure(OutsideFragment);
      }
      while Peek() == Some(Dot)
        invariant old(pos) < pos <= |tokens| && depth == d
        invariant PathRest(path, tokens[pos..], d) == ReadField(ts, d)
        decreases |tokens| - pos
      {
        PathStep(path, tokens[pos..], d);
        pos := pos + 1;
        assert tokens[pos - 1..][1..] == tokens[pos..];
        var next := Peek();
        if next.None? {
          return Failure(ExpectedIdentifier(None));
        }
        if !next.value.Ident? {
          var val := ResolveLoop(Obj(Fresh, data), path);
          return Success(val);
        }
        assert tokens[pos - 1..][2..] == tokens[pos + 1..];
        match MemberOf(next.value.name) {
          case LengthMember =>
            pos := pos + 1;
            var val := ResolveLoop(Obj(Fresh, data), path);
            return Success(LengthValue(val));
          case EveryMember =>
            pos := pos + 1;
            r := ParseEvery(path);
            return;
          case PlainMember =>
            pos := pos + 1;
            path := path + "." + next.value.name;
        }
      }
      PathStep(path, tokens[pos..], d);
      var val := ResolveLoop(Obj(Fresh, data), path);
      return Success(val);
    }

    /** The scanning loop for the parenthesis that closes a lambda. */
    method FindMatchingParen() returns (p: nat)
      requires pos <= |tokens|
      ensures pos <= p <= |tokens|
      ensures p - pos == Enclosed(tokens[pos..], 1)
    {
      var open := 1;
      p := pos;
      while p < |tokens| && open > 0
        invariant pos <= p <= |tokens| && open >= 0
        invariant open == 0 ==> p < |tokens|
        invariant p - pos + Enclosed(tokens[p..], open) == Enclosed(tokens[pos..], 1)
        decreases |tokens| - p, open
      {
        assert tokens[p..][1..] == tokens[p + 1..];
        if tokens[p] == Open {
          open := open + 1;
        }
        if tokens[p] == Close {
          open := open - 1;
        }
        if open > 0 {
          p := p + 1;
        }
      }
    }

    method ParseEvery(path: string) returns (r: Result<Value, Error>)
      requires pos <= |tokens|
      modifies this
      ensures Follows(r, old(ReadEvery(path, tokens[pos..], depth)))
      decreases |tokens|, |tokens| - pos, 2
    {
      hide Broken, ReadExpr, ResolvePath, Enclosed, EvalEvery, EvalElems, Truthy;
      ghost var ts := tokens[pos..];
      var _ :- Expect(Open);
      var param := Peek();
      if param.None? || !param.value.Ident? {
        return Failure(ExpectedIdentifier(param));
      }
      pos := pos + 1;
      assert ts[2..] == tokens[pos..];
      var _ :- Expect(Arrow);
      assert ts[3..] == tokens[pos..];
      r := ParseLambdaBody(path, param.value.name, ts);
    }

    /** The body of the lambda and the evaluation of the quantifier. */
    method ParseLambdaBody(path: string, param: string, ghost ts: seq<Symbol>) returns (r: Result<Value, Error>)
      requires pos <= |tokens|
      requires |ts| >= 3 && ts[0] == Open && ts[1] == Ident(param) && ts[2] == Arrow && ts[3..] == tokens[pos..]
      modifies this`pos
      ensures Follows(r, ReadEvery(path, ts, depth))
      decreases |tokens|, 1
    {
      hide Broken, ReadExpr, ResolvePath, Enclosed, EvalEvery, EvalElems, Truthy, CompareValues, CallValue,
        TemporalValue, SumFieldValue, SumListValue, LenValue, LengthValue;
      assert ts[2..][0] == Arrow;
      var innerStart := pos;
      var innerEnd := FindMatchingParen();
      ghost var n := innerEnd - innerStart;
      var innerTokens := tokens[innerStart..innerEnd];
      assert innerTokens == ts[3..][..n];
      pos := innerEnd;
      assert tokens[pos..] == ts[3..][n..];
      var _ :- Expect(Close);
      assert tokens[pos..] == ts[3..][n + 1..];
      var arr := ResolveLoop(Obj(Fresh, data), path);
      if !arr.Arr? {
        return Success(Bool(false));
      }
      var all :- EveryItem(arr.elems, param, innerTokens);
      return Success(Bool(all));
    }

    /** The quantifier's loop: a parser of its own for each item, in a record where the parameter is the item. */
    method EveryItem(items: seq<Value>, param: string, innerTokens: seq<Symbol>) returns (r: Result<bool, Error>)
      requires |innerTokens| < |tokens|
      ensures r == EvalEvery(items, param, ReadExpr(innerTokens, depth).t, data)
      decreases |tokens|, 0
    {
      hide ReadExpr;
      ghost var body := ReadExpr(innerTokens, depth).t;
      var i := 0;
      while i < |items|
        invariant 0 <= i <= |items|
        invariant EvalEvery(items[i..], param, body, data) == EvalEvery(items, param, body, data)
      {
        var inner := new Parser(innerTokens, data[param := items[i]], depth);
        assert innerTokens[0..] == innerTokens;
        assert items[i..][1..] == items[i + 1..];
        var holds :- inner.ParseExpr();
        if !Truthy(holds) {
          return Success(false);
        }
        i := i + 1;
      }
      return Success(true);
    }

    /** The handlers of the registered functions, behind the function's name. */
    method ParseCall(f: Builtin) returns (r: Result<Value, Error>)
      requires pos <= |tokens|
      modifies this
      ensures Follows(r, old(ReadCall(f, tokens[pos..], depth)))
      decreases |tokens|, |tokens| - pos, 10
    {
      hide Broken, ReadLen, ReadSum, ReadTwo, ReadTime, EvalEvery, EvalElems;
      var _ :- Expect(Open);
      match f {
        case BigintSum => r := ParseBigintSum();
        case LenFunction => r := ParseLen();
        case Two(f2) => r := ParseTwoArguments(f2);
        case Time(op) => r := ParseTemporal(op);
        case Unmodelled => return Failure(OutsideFragment);
      }
    }

    method ParseLen() returns (r: Result<Value, Error>)
      requires pos <= |tokens|
      modifies this
      ensures Follows(r, old(ReadLen(tokens[pos..], depth)))
      decreases |tokens|, |tokens| - pos, 10
    {
      hide Broken, ReadExpr, EvalEvery, EvalElems, ResolvePath;
      var value :- ParseExpr();
      var _ :- Expect(Close);
      return Success(LenValue(value));
    }

    /** The handlers of `changed`, `previous` and `delta`. */
    method ParseTemporal(op: TemporalOp) returns (r: Result<Value, Error>)
      requires pos <= |tokens|
      modifies this
      ensures Follows(r, old(ReadTime(op, tokens[pos..], depth)))
      decreases |tokens|, |tokens| - pos, 10
    {
      hide Broken, Eval, TemporalValue;
      ghost var ts := tokens[pos..];
      BadMeans(ExpectedIdentifier(First(ts)), data);
      var argument := ParseFieldPathString(op);
      if argument.Failure? {
        BadMeans(argument.error, data);
        return Failure(argument.error);
      }
      var path := argument.value;
      ghost var rest := tokens[pos..];
      assert ReadTime(op, ts, depth)
          == if At(rest, Close) then Ok(Temporal(op, path), rest[1..], depth)
             else Err(Bad(Expected(Close, First(rest))));
      BadMeans(Expected(Close, First(rest)), data);
      TemporalMeans(op, path, data);
      var _ :- Expect(Close);
      return Success(TemporalValue(op, data, path));
    }

    /** The handlers of `bigint_gte`, `bigint_gt`, `bigint_eq`, `bigint_sub`, `bigint_add` and `eq`. */
    method ParseTwoArguments(f2: TwoArguments) returns (r: Result<Value, Error>)
      requires pos <= |tokens|
      modifies this
      ensures Follows(r, old(ReadTwo(f2, tokens[pos..], depth)))
      decreases |tokens|, |tokens| - pos, 10
    {
      hide Broken, ReadExpr, Eval, CallValue;
      ghost var a := ReadExpr(tokens[pos..], depth);
      if Eval(a.t, data).Failure? {
        TwoFails(f2, tokens[pos..], depth, data);
      }
      var left :- ParseExpr();
      StuckMeans(a.t, Expected(Comma, First(a.rest)), data);
      var _ :- Expect(Comma);
      ghost var b := ReadExpr(tokens[pos..], depth);
      CallMeans(f2, a.t, b.t, data);
      if b.Ok? {
        StuckMeans(Call(f2, a.t, b.t), Expected(Close, First(b.rest)), data);
      }
      var right :- ParseExpr();
      var _ :- Expect(Close);
      return Success(CallValue(f2, left, right));
    }

    method ParseBigintSum() returns (r: Result<Value, Error>)
      requires pos <= |tokens|
      modifies this
      ensures Follows(r, old(ReadSum(tokens[pos..], depth)))
      decreases |tokens|, |tokens| - pos, 5
    {
      hide ReadPrimary, Total, Column, CompareValues, LenValue, LengthValue,
        CallValue, TemporalValue, ResolvePath, ParseFloat, Truthy, EvalEvery, EvalElems;
      ghost var a := ReadPrimary(tokens[pos..], depth);
      if Eval(a.t, data).Failure? {
        SumFails(tokens[pos..], depth, data);
      }
      var first :- ParsePrimary();
      if Peek() == Some(Comma) {
        pos := pos + 1;
        ghost var b := ReadPrimary(tokens[pos..], depth);
        assert Eval(b.t, data).Failure? ==> Eval(SumField(a.t, b.t), data) == Eval(b.t, data);
        var name :- ParsePrimary();
        assert Eval(SumField(a.t, b.t), data) == Success(SumFieldValue(first, name));
        var _ :- Expect(Close);
        if !first.Arr? || !name.Str? {
          return Success(Big(0));
        }
        var total := AddUpField(first.elems, name.s);
        return Success(total);
      }
      var _ :- Expect(Close);
      if !first.Arr? {
        return Success(Big(0));
      }
      var total := AddUp(first.elems);
      return Success(total);
    }

    /** The path argument of a temporal operator, up to the first symbol that does not continue it. */
    method ParseFieldPathString(ghost op: TemporalOp) returns (r: Result<string, Error>)
      requires pos <= |tokens|
      modifies this`pos
      ensures pos <= |tokens|
      ensures var ts := old(tokens[pos..]);
              if ts == [] || !ts[0].Ident? then r == Failure(ExpectedIdentifier(First(ts)))
              else
                var reading := ReadTemporal(op, ts[0].name, ts[1..], depth);
                match r
                case Failure(e) => reading == Err(Bad(e))
                case Success(path) =>
                  && old(pos) < pos && !At(tokens[pos..], Dot)
                  && ReadTemporal(op, path, tokens[pos..], depth) == reading
    {
      hide ReadTemporal;
      ghost var ts := tokens[pos..];
      var tok := Peek();
      if tok.None? || !tok.value.Ident? {
        return Failure(ExpectedIdentifier(tok));
      }
      var path := tok.value.name;
      pos := pos + 1;
      assert ts[1..] == tokens[pos..];
      while Peek() == Some(Dot)
        invariant old(pos) < pos <= |tokens|
        invariant ReadTemporal(op, path, tokens[pos..], depth) == ReadTemporal(op, ts[0].name, ts[1..], depth)
        decreases |tokens| - pos
      {
        TemporalStep(op, path, tokens[pos..], depth);
        pos := pos + 1;
        assert tokens[pos - 1..][1..] == tokens[pos..];
        var next := Peek();
        if next.None? || !next.value.Ident? {
          return Failure(ExpectedIdentifier(next));
        }
        assert tokens[pos - 1..][2..] == tokens[pos + 1..];
        pos := pos + 1;
        path := path + "." + next.value.name;
      }
      return Success(path);
    }
  }

  /** Put values already computed in front of those still to come. */
  function Prepend(vs: seq<Value>, r: Result<seq<Value>, Error>): Result<seq<Value>, Error> {
    match r
    case Success(ws) => Success(vs + ws)
    case Failure(e) => Failure(e)
  }

  lemma PrependNone(r: Result<seq<Value>, Error>)
    ensures Prepend([], r) == r
  {
    if r.Success? {
      assert [] + r.value == r.value;
    }
  }

  lemma PrependOne(vs: seq<Value>, v: Value, r: Result<seq<Value>, Error>)
    ensures Prepend(vs, Prepend([v], r)) == Prepend(vs + [v], r)
  {
    if r.Success? {
      assert vs + ([v] + r.value) == vs + [v] + r.value;
    }
  }

  // ----- Whole expressions -----

  datatype Problem = Lexical(lex: LexError) | Syntactic(error: Error)

  function Symbols(tokens: seq<Token>): (ts: seq<Symbol>)
    ensures |ts| == |tokens|
  {
    seq(|tokens|, i requires 0 <= i < |tokens| => tokens[i].sym)
  }

  /** The value of an expression: tokenize, read as a tree, evaluate the tree. */
  function Evaluate(expression: string, data: Data): Result<Value, Problem> {
    match Lex(expression, 0, [])
    case Failure(e) => Failure(Lexical(e))
    case Success(tokens) =>
      match Eval(ReadExpr(Symbols(tokens), 0).t, data)
      case Failure(e) => Failure(Syntactic(e))
      case Success(v) => Success(v)
  }

  method EvaluateConstraint(data: Data, expression: string) returns (r: Result<bool, Problem>)
    ensures r == match Evaluate(expression, data)
                 case Success(v) => Success(Truthy(v))
                 case Failure(p) => Failure(p)
  {
    var tokens := Tokenize(expression);
    if tokens.Failure? {
      return Failure(Lexical(tokens.error));
    }
    var parser := new Parser(Symbols(tokens.value), data, 0);
    assert parser.tokens[0..] == parser.tokens;
    var result := parser.ParseExpr();
    match result {
      case Success(v) => return Success(Truthy(v));
      case Failure(e) => return Failure(Syntactic(e));
    }
  }
}
