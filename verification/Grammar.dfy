/** The syntax validator: a second recursive descent parser, which accepts or rejects without evaluating.
    Its specification reads a symbol stream. In `full`, it checks the stream as the evaluator reads it: the name of any
    function is a call, the argument of a temporal operator is a plain path, an array may hold literals, and nesting
    is not limited but paid for. */
module Grammar {
  import opened Results
  import opened Tokenizer
  import opened Syntax
  import opened Evaluator

  /** What is left behind the accepted stretch, or the error and the symbols that were left when it arose. An
      accepted stretch also has its price to the evaluator, whose depth counter is never lowered: by how much the
      stretch raises the counter, and how far above its start the counter gets raised at most, in lambda bodies
      too. */
  datatype Check = Accept(rest: seq<Symbol>, spent: nat, peak: nat) | Reject(error: Error, rest: seq<Symbol>)

  function Free(rest: seq<Symbol>): Check {
    Accept(rest, 0, 0)
  }

  function Max(a: nat, b: nat): nat {
    if a >= b then a else b
  }

  /** An accepted stretch and the one behind it. */
  function Then(a: Check, b: Check): Check
    requires a.Accept?
  {
    if b.Reject? then b
    else Accept(b.rest, a.spent + b.spent, if b.peak == 0 then a.peak else Max(a.peak, a.spent + b.peak))
  }

  /** The evaluator enters an expression. */
  function Entered(c: Check): Check {
    if c.Reject? then c else Accept(c.rest, 1 + c.spent, 1 + c.peak)
  }

  /** The evaluator reads the stretch with a counter of its own. */
  function Aside(c: Check): Check {
    if c.Reject? then c else Accept(c.rest, 0, c.peak)
  }

  /** Both reject alike, or both accept and leave the same. */
  predicate Alike(a: Check, b: Check) {
    a.rest == b.rest && (a.Accept? <==> b.Accept?) && (a.Reject? ==> a.error == b.error)
  }

  predicate Consumes(c: Check, ts: seq<Symbol>) {
    if c.Accept? then |c.rest| < |ts| else |c.rest| <= |ts|
  }

  predicate Keeps(c: Check, ts: seq<Symbol>) {
    |c.rest| <= |ts|
  }

  /** `expect` */
  function Take(sym: Symbol, ts: seq<Symbol>): Check {
    if At(ts, sym) then Free(ts[1..]) else Reject(Expected(sym, First(ts)), ts)
  }

  function CheckExpr(ts: seq<Symbol>, d: nat, full: bool): (c: Check)
    ensures Consumes(c, ts)
    decreases |ts|, 9
  {
    if !full && d + 1 > MAX_EXPRESSION_DEPTH then Reject(DepthExceeded, ts)
    else
      var l := CheckOr(ts, d + 1, full);
      Entered(if l.Accept? && At(l.rest, Arrow) then Then(l, CheckOr(l.rest[1..], d + 1, full)) else l)
  }

  function CheckOr(ts: seq<Symbol>, d: nat, full: bool): (c: Check)
    ensures Consumes(c, ts)
    decreases |ts|, 8
  {
    var l := CheckAnd(ts, d, full);
    if l.Accept? then Then(l, CheckOrRest(l.rest, d, full)) else l
  }

  function CheckOrRest(ts: seq<Symbol>, d: nat, full: bool): (c: Check)
    ensures Keeps(c, ts)
    decreases |ts|, 8
  {
    if !At(ts, Op(OrOp)) then Free(ts)
    else
      var r := CheckAnd(ts[1..], d, full);
      if r.Accept? then Then(r, CheckOrRest(r.rest, d, full)) else r
  }

  function CheckAnd(ts: seq<Symbol>, d: nat, full: bool): (c: Check)
    ensures Consumes(c, ts)
    decreases |ts|, 7
  {
    var l := CheckComparison(ts, d, full);
    if l.Accept? then Then(l, CheckAndRest(l.rest, d, full)) else l
  }

  function CheckAndRest(ts: seq<Symbol>, d: nat, full: bool): (c: Check)
    ensures Keeps(c, ts)
    decreases |ts|, 7
  {
    if !At(ts, Op(AndOp)) then Free(ts)
    else
      var r := CheckComparison(ts[1..], d, full);
      if r.Accept? then Then(r, CheckAndRest(r.rest, d, full)) else r
  }

  function CheckComparison(ts: seq<Symbol>, d: nat, full: bool): (c: Check)
    ensures Consumes(c, ts)
    decreases |ts|, 6
  {
    var l := CheckUnary(ts, d, full);
    if l.Accept? && AtComparison(l.rest) then Then(l, CheckUnary(l.rest[1..], d, full)) else l
  }

  function CheckUnary(ts: seq<Symbol>, d: nat, full: bool): (c: Check)
    ensures Consumes(c, ts)
    decreases |ts|, 5
  {
    if At(ts, Op(NotOp)) then CheckUnary(ts[1..], d, full) else CheckPrimary(ts, d, full)
  }

  function CheckPrimary(ts: seq<Symbol>, d: nat, full: bool): (c: Check)
    ensures Consumes(c, ts)
    decreases |ts|, 4
  {
    if ts == [] then Reject(UnexpectedEnd, ts)
    else
      match ts[0]
      case Open =>
        var a := CheckExpr(ts[1..], d, full);
        if a.Accept? then Then(a, Take(Close, a.rest)) else a
      case BracketOpen => CheckElems(ts[1..], d, full)
      case Number(_) => Free(ts[1..])
      case Text(_) => Free(ts[1..])
      case Ident(name) =>
        (match WordOf(name)
         case NullWord => Free(ts[1..])
         case BoolWord(_) => Free(ts[1..])
         case Function(BigintSum) => CheckSum(ts[1..], d, full)
         case Function(Two(f)) =>
           if full || f.BigintGte? || f.BigintGt? then CheckTwo(ts[1..], d, full) else CheckField(ts, d, full, false)
         case Function(Time(_)) => CheckTime(ts[1..], d, full)
         case Function(LenFunction) => if full then CheckLen(ts[1..], d, full) else CheckField(ts, d, full, false)
         case Function(Unmodelled) =>
           if full then Reject(OutsideFragment, ts) else CheckField(ts, d, full, false)
         case FieldName => CheckField(ts, d, full, false))
      case _ => Reject(UnexpectedToken(ts[0]), ts)
  }

  function CheckElems(ts: seq<Symbol>, d: nat, full: bool): (c: Check)
    ensures Consumes(c, ts)
    decreases |ts|, 4
  {
    if ts == [] then Reject(Expected(BracketClose, None), ts)
    else if ts[0] == BracketClose then Free(ts[1..])
    else
      var e := CheckElement(ts, d, full);
      if e.Reject? then e
      else Then(e, CheckElems(if At(e.rest, Comma) then e.rest[1..] else e.rest, d, full))
  }

  function CheckElement(ts: seq<Symbol>, d: nat, full: bool): (c: Check)
    requires ts != []
    ensures Consumes(c, ts)
    decreases |ts|, 3, 1
  {
    if full && (ts[0].Number? || ts[0].Text?) then Free(ts[1..]) else CheckField(ts, d, full, false)
  }

  /** A field path. A `plain` one has no quantifier in it. */
  function CheckField(ts: seq<Symbol>, d: nat, full: bool, plain: bool): (c: Check)
    ensures Consumes(c, ts)
    decreases |ts|, 3, 0
  {
    if ts == [] || !ts[0].Ident? then Reject(ExpectedIdentifier(First(ts)), ts)
    else CheckPath(ts[1..], d, full, plain)
  }

  function CheckPath(ts: seq<Symbol>, d: nat, full: bool, plain: bool): (c: Check)
    ensures Keeps(c, ts)
    decreases |ts|, 3
  {
    if !At(ts, Dot) then Free(ts)
    else if |ts| == 1 || !ts[1].Ident? then Reject(ExpectedIdentifier(First(ts[1..])), ts[1..])
    else
      match MemberOf(ts[1].name)
      case LengthMember => Free(ts[2..])
      case EveryMember =>
        if plain then Reject(UnexpectedToken(ts[1]), ts[1..]) else CheckEvery(ts[2..], d, full)
      case PlainMember => CheckPath(ts[2..], d, full, plain)
  }

  function CheckEvery(ts: seq<Symbol>, d: nat, full: bool): (c: Check)
    ensures Keeps(c, ts)
    decreases |ts|, 2
  {
    if !At(ts, Open) then Reject(Expected(Open, First(ts)), ts)
    else if |ts| == 1 || !ts[1].Ident? then Reject(ExpectedIdentifier(First(ts[1..])), ts[1..])
    else if !At(ts[2..], Arrow) then Reject(Expected(Arrow, First(ts[2..])), ts[2..])
    else
      var body := CheckExpr(ts[3..], d, full);
      Aside(if body.Accept? then Then(body, Take(Close, body.rest)) else body)
  }

  function CheckSum(ts: seq<Symbol>, d: nat, full: bool): (c: Check)
    ensures Keeps(c, ts)
    decreases |ts|, 5
  {
    if !At(ts, Open) then Reject(Expected(Open, First(ts)), ts)
    else
      var a := CheckPrimary(ts[1..], d, full);
      if a.Reject? then a
      else if At(a.rest, Comma) then
        var b := CheckPrimary(a.rest[1..], d, full);
        if b.Accept? then Then(a, Then(b, Take(Close, b.rest))) else b
      else Then(a, Take(Close, a.rest))
  }

  function CheckTwo(ts: seq<Symbol>, d: nat, full: bool): (c: Check)
    ensures Keeps(c, ts)
    decreases |ts|, 10
  {
    if !At(ts, Open) then Reject(Expected(Open, First(ts)), ts)
    else
      var a := CheckExpr(ts[1..], d, full);
      if a.Reject? then a
      else if !At(a.rest, Comma) then Reject(Expected(Comma, First(a.rest)), a.rest)
      else
        var b := CheckExpr(a.rest[1..], d, full);
        if b.Accept? then Then(a, Then(b, Take(Close, b.rest))) else b
  }

  function CheckLen(ts: seq<Symbol>, d: nat, full: bool): (c: Check)
    ensures Keeps(c, ts)
    decreases |ts|, 10
  {
    if !At(ts, Open) then Reject(Expected(Open, First(ts)), ts)
    else
      var a := CheckExpr(ts[1..], d, full);
      if a.Accept? then Then(a, Take(Close, a.rest)) else a
  }

  function CheckTime(ts: seq<Symbol>, d: nat, full: bool): (c: Check)
    ensures Keeps(c, ts)
    decreases |ts|, 4
  {
    if !At(ts, Open) then Reject(Expected(Open, First(ts)), ts)
    else
      var a := CheckField(ts[1..], d, full, full);
      if a.Accept? then Then(a, Take(Close, a.rest)) else a
  }

  /** An operand that no operator precedes or follows. */
  lemma CheckOperand(ts: seq<Symbol>, d: nat, full: bool)
    requires ts != [] && !ts[0].Op? && (full || d + 1 <= MAX_EXPRESSION_DEPTH)
    requires var c := CheckPrimary(ts, d + 1, full);
             c.Accept? ==> !AtComparison(c.rest) && forall sym :: At(c.rest, sym) ==> !sym.Op? && sym != Arrow
    ensures CheckExpr(ts, d, full) == Entered(CheckPrimary(ts, d + 1, full))
  {
    hide CheckPrimary;
    var c := CheckPrimary(ts, d + 1, full);
    assert CheckUnary(ts, d + 1, full) == c;
    assert CheckComparison(ts, d + 1, full) == c;
    assert CheckAnd(ts, d + 1, full) == c;
    assert CheckOr(ts, d + 1, full) == c;
  }

  /** The functions the validator knows as calls. */
  predicate KnownCall(f: Builtin) {
    f == BigintSum || f == Two(BigintGte) || f == Two(BigintGt) || f.Time?
  }

  // ----- The validator -----

  /** One step of checking a path. */
  lemma CheckStep(ts: seq<Symbol>, d: nat)
    ensures !At(ts, Dot) ==> CheckPath(ts, d, false, false) == Free(ts)
    ensures At(ts, Dot) && (|ts| == 1 || !ts[1].Ident?) ==>
              CheckPath(ts, d, false, false) == Reject(ExpectedIdentifier(First(ts[1..])), ts[1..])
    ensures At(ts, Dot) && |ts| > 1 && ts[1].Ident? ==>
              CheckPath(ts, d, false, false) ==
              match MemberOf(ts[1].name)
              case LengthMember => Free(ts[2..])
              case EveryMember => CheckEvery(ts[2..], d, false)
              case PlainMember => CheckPath(ts[2..], d, false, false)
  {
    hide CheckEvery, MemberOf;
  }

  datatype SyntaxError = SyntaxError(error: Error, position: nat)

  /** The offset reported for an error that arises at token `i`: the token's own, or the end of the last one. */
  function PositionOf(tokens: seq<Token>, i: nat): nat
    requires i <= |tokens|
  {
    if i < |tokens| then tokens[i].pos
    else if i > 0 then tokens[i - 1].pos + |ValueOf(tokens[i - 1].sym)|
    else 0
  }

  class SyntaxValidator {
    const tokens: seq<Token>
    var pos: nat
    var depth: nat

    constructor (tokens: seq<Token>)
      ensures this.tokens == tokens && this.pos == 0 && this.depth == 0
    {
      this.tokens, this.pos, this.depth := tokens, 0, 0;
    }

    ghost function Left(): seq<Symbol>
      reads this
      requires pos <= |tokens|
    {
      Symbols(tokens)[pos..]
    }

    /** The validator stops where the check stops, at the depth it started from, or reports the check's error. */
    ghost predicate Follows(r: Result<(), SyntaxError>, c: Check, d: nat)
      reads this
    {
      match c
      case Accept(rest, _, _) => r.Success? && pos <= |tokens| && Left() == rest && depth == d
      case Reject(error, rest) =>
        |rest| <= |tokens| && r == Failure(SyntaxError(error, PositionOf(tokens, |tokens| - |rest|)))
    }

    function Peek(): (sym: Option<Symbol>)
      reads this
      requires pos <= |tokens|
      ensures sym == First(Left())
    {
      if pos < |tokens| then Some(tokens[pos].sym) else None
    }

    method Advance()
      requires pos < |tokens|
      modifies this`pos
      ensures pos == old(pos) + 1 && Left() == old(Left())[1..]
    {
      pos := pos + 1;
    }

    method Expect(sym: Symbol) returns (r: Result<(), SyntaxError>)
      requires pos <= |tokens|
      modifies this`pos
      ensures pos <= |tokens| && Follows(r, Take(sym, old(Left())), depth)
      ensures r.Success? ==> pos == old(pos) + 1
    {
      if Peek() != Some(sym) {
        return Failure(SyntaxError(Expected(sym, Peek()), PositionOf(tokens, pos)));
      }
      Advance();
      return Success(());
    }

    method ExpectIdent() returns (r: Result<string, SyntaxError>)
      requires pos <= |tokens|
      modifies this`pos
      ensures old(Left()) != [] && old(Left())[0].Ident? ==>
                r == Success(old(Left())[0].name) && pos == old(pos) + 1 <= |tokens| && Left() == old(Left())[1..]
      ensures old(Left()) == [] || !old(Left())[0].Ident? ==>
                r == Failure(SyntaxError(ExpectedIdentifier(old(First(Left()))), PositionOf(tokens, old(pos))))
    {
      var tok := Peek();
      if tok.None? || !tok.value.Ident? {
        return Failure(SyntaxError(ExpectedIdentifier(tok), PositionOf(tokens, pos)));
      }
      Advance();
      return Success(tok.value.name);
    }

    method ParseExpr() returns (r: Result<(), SyntaxError>)
      requires pos <= |tokens|
      modifies this
      ensures Follows(r, CheckExpr(old(Left()), old(depth), false), old(depth))
      decreases |tokens| - pos, 9
    {
      hide CheckOr;
      depth := depth + 1;
      if depth > MAX_EXPRESSION_DEPTH {
        return Failure(SyntaxError(DepthExceeded, PositionOf(tokens, pos)));
      }
      var _ :- ParseOr();
      if Peek() == Some(Arrow) {
        Advance();
        var _ :- ParseOr();
      }
      depth := depth - 1;
      return Success(());
    }

    method ParseOr() returns (r: Result<(), SyntaxError>)
      requires pos <= |tokens|
      modifies this
      ensures Follows(r, CheckOr(old(Left()), old(depth), false), old(depth))
      decreases |tokens| - pos, 8
    {
      hide CheckAnd;
      ghost var ts, d := Left(), depth;
      var _ :- ParseAnd();
      while Peek() == Some(Op(OrOp))
        invariant old(pos) < pos <= |tokens| && depth == d
        invariant Alike(CheckOrRest(Left(), d, false), CheckOr(ts, d, false))
        decreases |tokens| - pos
      {
        Advance();
        var _ :- ParseAnd();
      }
      return Success(());
    }

    method ParseAnd() returns (r: Result<(), SyntaxError>)
      requires pos <= |tokens|
      modifies this
      ensures Follows(r, CheckAnd(old(Left()), old(depth), false), old(depth))
      decreases |tokens| - pos, 7
    {
      hide CheckComparison;
      ghost var ts, d := Left(), depth;
      var _ :- ParseComparison();
      while Peek() == Some(Op(AndOp))
        invariant old(pos) < pos <= |tokens| && depth == d
        invariant Alike(CheckAndRest(Left(), d, false), CheckAnd(ts, d, false))
        decreases |tokens| - pos
      {
        Advance();
        var _ :- ParseComparison();
      }
      return Success(());
    }

    method ParseComparison() returns (r: Result<(), SyntaxError>)
      requires pos <= |tokens|
      modifies this
      ensures Follows(r, CheckComparison(old(Left()), old(depth), false), old(depth))
      decreases |tokens| - pos, 6
    {
      hide CheckUnary;
      var _ :- ParseUnary();
      var tok := Peek();
      if tok.Some? && tok.value.Op? && ComparisonOf(tok.value.op).Some? {
        Advance();
        var _ :- ParseUnary();
      }
      return Success(());
    }

    method ParseUnary() returns (r: Result<(), SyntaxError>)
      requires pos <= |tokens|
      modifies this
      ensures Follows(r, CheckUnary(old(Left()), old(depth), false), old(depth))
      decreases |tokens| - pos, 5
    {
      hide CheckPrimary;
      if Peek() == Some(Op(NotOp)) {
        Advance();
        r := ParseUnary();
        return;
      }
      r := ParsePrimary();
    }

    method ParsePrimary() returns (r: Result<(), SyntaxError>)
      requires pos <= |tokens|
      modifies this
      ensures Follows(r, CheckPrimary(old(Left()), old(depth), false), old(depth))
      decreases |tokens| - pos, 4
    {
      hide CheckExpr, CheckElems, CheckSum, CheckTwo, CheckTime, CheckField, WordOf;
      var tok := Peek();
      if tok.None? {
        return Failure(SyntaxError(UnexpectedEnd, PositionOf(tokens, pos)));
      }
      match tok.value {
        case Open =>
          Advance();
          var _ :- ParseExpr();
          r := Expect(Close);
        case BracketOpen =>
          Advance();
          r := ParseElements();
        case Number(_) =>
          Advance();
          return Success(());
        case Text(_) =>
          Advance();
          return Success(());
        case Ident(name) =>
          match WordOf(name) {
            case NullWord =>
              Advance();
              return Success(());
            case BoolWord(_) =>
              Advance();
              return Success(());
            case Function(BigintSum) => r := ParseBigintSumCall();
            case Function(Two(BigintGte)) => r := ParseTwoArgCall();
            case Function(Two(BigintGt)) => r := ParseTwoArgCall();
            case Function(Time(_)) => r := ParseOneArgCall();
            case Function(_) => r := ParseFieldPath();
            case FieldName => r := ParseFieldPath();
          }
        case _ =>
          return Failure(SyntaxError(UnexpectedToken(tok.value), PositionOf(tokens, pos)));
      }
    }

    method ParseElements() returns (r: Result<(), SyntaxError>)
      requires pos <= |tokens|
      modifies this
      ensures Follows(r, CheckElems(old(Left()), old(depth), false), old(depth))
      decreases |tokens| - pos, 4
    {
      hide CheckField;
      ghost var ts, d := Left(), depth;
      while Peek().Some? && Peek() != Some(BracketClose)
        invariant old(pos) <= pos <= |tokens| && depth == d
        invariant Alike(CheckElems(Left(), d, false), CheckElems(ts, d, false))
        decreases |tokens| - pos
      {
        var _ :- ParseFieldPath();
        if Peek() == Some(Comma) {
          Advance();
        }
      }
      r := Expect(BracketClose);
    }

    method ParseFieldPath() returns (r: Result<(), SyntaxError>)
      requires pos <= |tokens|
      modifies this
      ensures Follows(r, CheckField(old(Left()), old(depth), false, false), old(depth))
      decreases |tokens| - pos, 3
    {
      hide CheckEvery, MemberOf, CheckPath;
      ghost var ts, d := Left(), depth;
      var _ :- ExpectIdent();
      while Peek() == Some(Dot)
        invariant old(pos) < pos <= |tokens| && depth == d
        invariant Alike(CheckPath(Left(), d, false, false), CheckField(ts, d, false, false))
        decreases |tokens| - pos
      {
        ghost var here := Left();
        CheckStep(here, d);
        Advance();
        var name :- ExpectIdent();
        assert Left() == here[2..];
        match MemberOf(name) {
          case LengthMember => return Success(());
          case EveryMember =>
            r := ParseEvery();
            return;
          case PlainMember =>
        }
      }
      CheckStep(Left(), d);
      return Success(());
    }

    method ParseEvery() returns (r: Result<(), SyntaxError>)
      requires pos <= |tokens|
      modifies this
      ensures Follows(r, CheckEvery(old(Left()), old(depth), false), old(depth))
      decreases |tokens| - pos, 2
    {
      hide CheckExpr;
      ghost var ts := Left();
      var _ :- Expect(Open);
      var _ :- ExpectIdent();
      assert Left() == ts[2..];
      var _ :- Expect(Arrow);
      assert Left() == ts[3..];
      var _ :- ParseExpr();
      r := Expect(Close);
    }

    method ParseBigintSumCall() returns (r: Result<(), SyntaxError>)
      requires pos < |tokens|
      modifies this
      ensures Follows(r, CheckSum(old(Left())[1..], old(depth), false), old(depth))
      decreases |tokens| - pos, 3
    {
      hide CheckPrimary;
      Advance();
      var _ :- Expect(Open);
      var _ :- ParsePrimary();
      if Peek() == Some(Comma) {
        Advance();
        var _ :- ParsePrimary();
      }
      r := Expect(Close);
    }

    method ParseTwoArgCall() returns (r: Result<(), SyntaxError>)
      requires pos < |tokens|
      modifies this
      ensures Follows(r, CheckTwo(old(Left())[1..], old(depth), false), old(depth))
      decreases |tokens| - pos, 3
    {
      hide CheckExpr;
      Advance();
      var _ :- Expect(Open);
      var _ :- ParseExpr();
      var _ :- Expect(Comma);
      var _ :- ParseExpr();
      r := Expect(Close);
    }

    method ParseOneArgCall() returns (r: Result<(), SyntaxError>)
      requires pos < |tokens|
      modifies this
      ensures Follows(r, CheckTime(old(Left())[1..], old(depth), false), old(depth))
      decreases |tokens| - pos, 3
    {
      hide CheckField;
      Advance();
      var _ :- Expect(Open);
      var _ :- ParseFieldPath();
      r := Expect(Close);
    }
  }

  // ----- Whole expressions -----

  datatype Verdict = Valid | Invalid(problem: Problem, position: nat)

  function Validate(expression: string): Verdict {
    match Lex(expression, 0, [])
    case Failure(e) => Invalid(Lexical(e), e.pos)
    case Success(tokens) =>
      match CheckExpr(Symbols(tokens), 0, false)
      case Reject(e, rest) => Invalid(Syntactic(e), PositionOf(tokens, |tokens| - |rest|))
      case Accept(rest, _, _) =>
        if rest == [] then Valid
        else Invalid(Syntactic(UnexpectedToken(rest[0])), PositionOf(tokens, |tokens| - |rest|))
  }

  method ValidateExpression(expression: string) returns (verdict: Verdict)
    ensures verdict == Validate(expression)
  {
    var tokens := Tokenize(expression);
    if tokens.Failure? {
      return Invalid(Lexical(tokens.error), tokens.error.pos);
    }
    var validator := new SyntaxValidator(tokens.value);
    assert validator.Left() == Symbols(tokens.value);
    var r := validator.ParseExpr();
    if r.Failure? {
      return Invalid(Syntactic(r.error.error), r.error.position);
    }
    var remaining := validator.Peek();
    if remaining.Some? {
      return Invalid(Syntactic(UnexpectedToken(remaining.value)), PositionOf(tokens.value, validator.pos));
    }
    return Valid;
  }
}
