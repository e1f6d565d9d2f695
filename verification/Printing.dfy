/** Printing trees as expressions, with no more parentheses than precedence asks for. Tokenizing, reading and
    evaluating the text of a tree gives the tree's value, as long as the text stays within the depth limit. */
module Printing {
  import opened Results
  import opened Values
  import opened Tokenizer
  import opened Syntax
  import opened Nesting

  // ----- Printing. `after` is what follows the printed tree -----

  /** How tightly the outermost operator of a tree binds. */
  function Level(e: Expr): nat {
    match e
    case Implies(_, _) => 0
    case Or(_, _) => 1
    case And(_, _) => 2
    case Compare(_, _, _) => 3
    case Not(_) => 4
    case _ => 5
  }

  function ShowAt(e: Expr, level: nat, after: seq<Symbol>): seq<Symbol>
    decreases e, 1
  {
    if Level(e) < level then [Open] + Show(e, [Close] + after) else Show(e, after)
  }

  function ComparisonOp(cmp: Comparison): (op: Operator)
    ensures ComparisonOf(op) == Some(cmp)
  {
    match cmp
    case CmpEq => EqOp
    case CmpNe => NeOp
    case CmpLt => LtOp
    case CmpGt => GtOp
    case CmpLe => LeOp
    case CmpGe => GeOp
  }

  function FunctionName(f: TwoArguments): (name: string)
    ensures WordOf(name) == Function(Two(f)) && IsIdentifier(name)
  {
    match f
    case BigintGte => "bigint_gte"
    case BigintGt => "bigint_gt"
    case BigintEq => "bigint_eq"
    case BigintSub => "bigint_sub"
    case BigintAdd => "bigint_add"
    case StrictlyEqual => "eq"
  }

  function TemporalName(op: TemporalOp): (name: string)
    ensures WordOf(name) == Function(Time(op)) && IsIdentifier(name)
  {
    match op
    case Changed => "changed"
    case Previous => "previous"
    case Delta => "delta"
  }

  function Show(e: Expr, after: seq<Symbol>): seq<Symbol>
    decreases e, 0
  {
    match e
    case Implies(a, b) => ShowAt(a, 1, [Arrow] + ShowAt(b, 1, after))
    case Or(a, b) => ShowAt(a, 1, [Op(OrOp)] + ShowAt(b, 2, after))
    case And(a, b) => ShowAt(a, 2, [Op(AndOp)] + ShowAt(b, 3, after))
    case Compare(cmp, a, b) => ShowAt(a, 4, [Op(ComparisonOp(cmp))] + ShowAt(b, 4, after))
    case Not(a) => [Op(NotOp)] + ShowAt(a, 4, after)
    case NumberLit(text) => [Number(text)] + after
    case TextLit(value) => [Text(value)] + after
    case NullLit => [Ident("null")] + after
    case BoolLit(b) => [Ident(if b then "true" else "false")] + after
    case Field(path) => ShowPath(path, after)
    case LengthOf(path) => ShowPath(path, [Dot, Ident("length")] + after)
    case Every(path, param, body) =>
      ShowPath(path, [Dot, Ident("every"), Open, Ident(param), Arrow] + ShowAt(body, 0, [Close] + after))
    case ArrayLit(es) => [BracketOpen] + ShowElems(es, [BracketClose] + after)
    case SumList(a) => [Ident("bigint_sum"), Open] + ShowAt(a, 5, [Close] + after)
    case SumField(a, b) =>
      [Ident("bigint_sum"), Open] + ShowAt(a, 5, [Comma] + ShowAt(b, 5, [Close] + after))
    case LenCall(a) => [Ident("len"), Open] + ShowAt(a, 0, [Close] + after)
    case Call(f, a, b) =>
      [Ident(FunctionName(f)), Open] + ShowAt(a, 0, [Comma] + ShowAt(b, 0, [Close] + after))
    case Temporal(op, path) => [Ident(TemporalName(op)), Open] + ShowPath(path, [Close] + after)
    case Stuck(_, _) => after
    case Bad(_) => after
  }

  function ShowElems(es: Elems, after: seq<Symbol>): seq<Symbol>
    decreases es, 0
  {
    match es
    case NoElems => after
    case Elem(e, NoElems) => Show(e, after)
    case Elem(e, tail) => Show(e, [Comma] + ShowElems(tail, after))
  }

  function ShowPath(path: string, after: seq<Symbol>): seq<Symbol> {
    var parts := Split(path, '.');
    [Ident(parts[0])] + ShowParts(parts[1..], after)
  }

  function ShowParts(parts: seq<string>, after: seq<Symbol>): seq<Symbol> {
    if parts == [] then after else [Dot, Ident(parts[0])] + ShowParts(parts[1..], after)
  }

  /** The text of a tree. */
  function TextOf(e: Expr): string {
    Render(ShowAt(e, 0, []))
  }

  // ----- Which trees have a text -----

  /** A dotted path of identifiers. */
  predicate IsPath(path: string) {
    && (forall p :: p in Split(path, '.') ==> IsIdentifier(p))
    && forall p :: p in Split(path, '.')[1..] ==> MemberOf(p) == PlainMember
  }

  /** A path that names a field where an operand is expected. */
  predicate IsFieldPath(path: string) {
    IsPath(path) && WordOf(Split(path, '.')[0]) == FieldName
  }

  predicate HasText(e: Expr) {
    match e
    case Implies(a, b) => HasText(a) && HasText(b)
    case Or(a, b) => HasText(a) && HasText(b)
    case And(a, b) => HasText(a) && HasText(b)
    case Compare(_, a, b) => HasText(a) && HasText(b)
    case Not(a) => HasText(a)
    case NumberLit(text) => IsNumeral(text)
    case TextLit(_) => true
    case NullLit => true
    case BoolLit(_) => true
    case Field(path) => IsFieldPath(path)
    case LengthOf(path) => IsFieldPath(path)
    case Every(path, param, body) => IsFieldPath(path) && IsIdentifier(param) && HasText(body)
    case ArrayLit(es) => ElemsHaveText(es)
    case SumList(a) => HasText(a)
    case SumField(a, b) => HasText(a) && HasText(b)
    case LenCall(a) => HasText(a)
    case Call(_, a, b) => HasText(a) && HasText(b)
    case Temporal(_, path) => IsPath(path)
    case Stuck(_, _) => false
    case Bad(_) => false
  }

  predicate ElemsHaveText(es: Elems) {
    es.Elem? ==> IsElement(es.head) && HasText(es.head) && ElemsHaveText(es.tail)
  }

  predicate IsElement(e: Expr) {
    e.NumberLit? || e.TextLit? || e.Field? || e.LengthOf? || e.Every?
  }

  // ----- Depth: how often reading the text enters an expression -----

  function DepthAt(e: Expr, level: nat): nat
    decreases e, 1
  {
    (if Level(e) < level then 1 else 0) + Depth(e)
  }

  function Depth(e: Expr): nat
    decreases e, 0
  {
    match e
    case Implies(a, b) => DepthAt(a, 1) + DepthAt(b, 1)
    case Or(a, b) => DepthAt(a, 1) + DepthAt(b, 2)
    case And(a, b) => DepthAt(a, 2) + DepthAt(b, 3)
    case Compare(_, a, b) => DepthAt(a, 4) + DepthAt(b, 4)
    case Not(a) => DepthAt(a, 4)
    case SumList(a) => DepthAt(a, 5)
    case SumField(a, b) => DepthAt(a, 5) + DepthAt(b, 5)
    case LenCall(a) => 1 + DepthAt(a, 0)
    case Call(_, a, b) => 1 + DepthAt(a, 0) + 1 + DepthAt(b, 0)
    case _ => 0
  }

  /** Reading the text from depth `d` stays within the limit, in every lambda body too. A body starts from the
      depth reached where it stands, and what it uses is given back. */
  predicate FitsAt(e: Expr, level: nat, d: nat)
    decreases e, 1
  {
    if Level(e) < level then d + 1 <= MAX_EXPRESSION_DEPTH && Fits(e, d + 1) else Fits(e, d)
  }

  predicate FitsExpr(e: Expr, d: nat)
    decreases e, 2
  {
    d + 1 <= MAX_EXPRESSION_DEPTH && FitsAt(e, 0, d + 1)
  }

  predicate Fits(e: Expr, d: nat)
    decreases e, 0
  {
    match e
    case Implies(a, b) => FitsAt(a, 1, d) && FitsAt(b, 1, d + DepthAt(a, 1))
    case Or(a, b) => FitsAt(a, 1, d) && FitsAt(b, 2, d + DepthAt(a, 1))
    case And(a, b) => FitsAt(a, 2, d) && FitsAt(b, 3, d + DepthAt(a, 2))
    case Compare(_, a, b) => FitsAt(a, 4, d) && FitsAt(b, 4, d + DepthAt(a, 4))
    case Not(a) => FitsAt(a, 4, d)
    case SumList(a) => FitsAt(a, 5, d)
    case SumField(a, b) => FitsAt(a, 5, d) && FitsAt(b, 5, d + DepthAt(a, 5))
    case LenCall(a) => FitsExpr(a, d)
    case Call(_, a, b) => FitsExpr(a, d) && FitsExpr(b, d + 1 + DepthAt(a, 0))
    case Every(_, _, body) => FitsExpr(body, d)
    case ArrayLit(es) => ElemsFit(es, d)
    case _ => true
  }

  predicate ElemsFit(es: Elems, d: nat) {
    es.Elem? ==> Fits(es.head, d) && ElemsFit(es.tail, d)
  }

  // ----- Paths -----

  function Extend(path: string, parts: seq<string>): string
    decreases |parts|
  {
    if parts == [] then path else Extend(path + "." + parts[0], parts[1..])
  }

  lemma {:induction false} ExtendPrefix(p: string, q: string, parts: seq<string>)
    ensures Extend(p + q, parts) == p + Extend(q, parts)
    decreases |parts|
  {
    if parts != [] {
      assert p + q + "." + parts[0] == p + (q + "." + parts[0]);
      ExtendPrefix(p, q + "." + parts[0], parts[1..]);
    }
  }

  /** Putting the parts of a path together again gives the path. */
  lemma {:induction false} ExtendSplit(path: string)
    ensures Extend(Split(path, '.')[0], Split(path, '.')[1..]) == path
  {
    if path != "" {
      var rest := Split(path[1..], '.');
      ExtendSplit(path[1..]);
      if path[0] == '.' {
        assert ([""] + rest)[1..] == rest;
        assert Extend("", rest) == Extend("" + "." + rest[0], rest[1..]);
        assert "" + "." + rest[0] == "." + rest[0];
        ExtendPrefix(".", rest[0], rest[1..]);
        assert "." + path[1..] == path;
      } else {
        ExtendPrefix([path[0]], rest[0], rest[1..]);
        assert [path[0]] + path[1..] == path;
      }
    }
  }

  lemma {:induction false} ReadParts(path: string, parts: seq<string>, after: seq<Symbol>, d: nat)
    requires forall p :: p in parts ==> MemberOf(p) == PlainMember
    ensures PathRest(path, ShowParts(parts, after), d) == PathRest(Extend(path, parts), after, d)
    decreases |parts|
  {
    hide MemberOf;
    if parts != [] {
      var ts := ShowParts(parts, after);
      assert ts[0] == Dot && ts[1] == Ident(parts[0]) && ts[2..] == ShowParts(parts[1..], after);
      assert parts[0] in parts;
      ReadParts(path + "." + parts[0], parts[1..], after, d);
    }
  }

  lemma ReadPath(path: string, after: seq<Symbol>, d: nat)
    requires IsPath(path) && !At(after, BracketOpen)
    ensures ReadField(ShowPath(path, after), d) == PathRest(path, after, d)
  {
    hide MemberOf, PathRest, IsIdentifier;
    var parts := Split(path, '.');
    ReadParts(parts[0], parts[1..], after, d);
    ExtendSplit(path);
    assert ShowPath(path, after)[1..] == ShowParts(parts[1..], after);
  }

  lemma {:induction false} ReadTemporalParts(op: TemporalOp, path: string, parts: seq<string>,
                                             after: seq<Symbol>, d: nat)
    ensures ReadTemporal(op, path, ShowParts(parts, after), d) == ReadTemporal(op, Extend(path, parts), after, d)
    decreases |parts|
  {
    if parts != [] {
      var ts := ShowParts(parts, after);
      assert ts[0] == Dot && ts[1] == Ident(parts[0]) && ts[2..] == ShowParts(parts[1..], after);
      ReadTemporalParts(op, path + "." + parts[0], parts[1..], after, d);
    }
  }

  // ----- What follows a printed tree does not change it -----

  lemma {:induction false} PartsAppend(parts: seq<string>, after: seq<Symbol>, tail: seq<Symbol>)
    ensures ShowParts(parts, after + tail) == ShowParts(parts, after) + tail
    decreases |parts|
  {
    if parts != [] {
      PartsAppend(parts[1..], after, tail);
    }
  }

  lemma {:induction false} ShowAppend(e: Expr, level: nat, after: seq<Symbol>, tail: seq<Symbol>)
    ensures ShowAt(e, level, after + tail) == ShowAt(e, level, after) + tail
    decreases e, 1
  {
    if Level(e) < level {
      TopAppend(e, [Close] + after, tail);
      assert [Close] + (after + tail) == [Close] + after + tail;
    } else {
      TopAppend(e, after, tail);
    }
  }

  /** Two operands with a symbol between them. */
  lemma {:induction false} PairAppend(e: Expr, a: Expr, k: nat, mid: Symbol, b: Expr, m: nat,
                                      after: seq<Symbol>, tail: seq<Symbol>)
    requires a < e && b < e
    ensures ShowAt(a, k, [mid] + ShowAt(b, m, after + tail)) == ShowAt(a, k, [mid] + ShowAt(b, m, after)) + tail
    decreases e, 0, 0
  {
    var rest := ShowAt(b, m, after);
    ShowAppend(b, m, after, tail);
    assert [mid] + (rest + tail) == [mid] + rest + tail;
    ShowAppend(a, k, [mid] + rest, tail);
  }

  lemma LengthAppend(path: string, after: seq<Symbol>, tail: seq<Symbol>)
    ensures Show(LengthOf(path), after + tail) == Show(LengthOf(path), after) + tail
  {
    var rest := [Dot, Ident("length")] + after;
    assert [Dot, Ident("length")] + (after + tail) == rest + tail;
    PartsAppend(Split(path, '.')[1..], rest, tail);
  }

  lemma {:induction false} EveryAppend(path: string, param: string, body: Expr, after: seq<Symbol>,
                                       tail: seq<Symbol>)
    ensures Show(Every(path, param, body), after + tail) == Show(Every(path, param, body), after) + tail
    decreases body, 2
  {
    hide ShowAt;
    var closed := [Close] + after;
    assert [Close] + (after + tail) == closed + tail;
    var head := [Dot, Ident("every"), Open, Ident(param), Arrow];
    ShowAppend(body, 0, closed, tail);
    var rest := ShowAt(body, 0, closed);
    assert head + (rest + tail) == head + rest + tail;
    PartsAppend(Split(path, '.')[1..], head + rest, tail);
  }

  lemma {:induction false} OperandAppend(e: Expr, after: seq<Symbol>, tail: seq<Symbol>)
    requires Level(e) == 5
    ensures Show(e, after + tail) == Show(e, after) + tail
    decreases e, 0, 1
  {
    var closed := [Close] + after;
    assert [Close] + (after + tail) == closed + tail;
    match e
    case Field(path) => PartsAppend(Split(path, '.')[1..], after, tail);
    case LengthOf(path) => LengthAppend(path, after, tail);
    case Every(path, param, body) => EveryAppend(path, param, body, after, tail);
    case ArrayLit(es) =>
      assert [BracketClose] + (after + tail) == [BracketClose] + after + tail;
      ElemsAppend(es, [BracketClose] + after, tail);
    case SumList(a) => ShowAppend(a, 5, closed, tail);
    case SumField(a, b) => PairAppend(e, a, 5, Comma, b, 5, closed, tail);
    case LenCall(a) => ShowAppend(a, 0, closed, tail);
    case Call(f, a, b) => PairAppend(e, a, 0, Comma, b, 0, closed, tail);
    case Temporal(op, path) => PartsAppend(Split(path, '.')[1..], closed, tail);
    case _ =>
  }

  lemma {:induction false} TopAppend(e: Expr, after: seq<Symbol>, tail: seq<Symbol>)
    ensures Show(e, after + tail) == Show(e, after) + tail
    decreases e, 0, 2
  {
    match e
    case Implies(a, b) => PairAppend(e, a, 1, Arrow, b, 1, after, tail);
    case Or(a, b) => PairAppend(e, a, 1, Op(OrOp), b, 2, after, tail);
    case And(a, b) => PairAppend(e, a, 2, Op(AndOp), b, 3, after, tail);
    case Compare(cmp, a, b) => PairAppend(e, a, 4, Op(ComparisonOp(cmp)), b, 4, after, tail);
    case Not(a) => ShowAppend(a, 4, after, tail);
    case _ => OperandAppend(e, after, tail);
  }

  lemma {:induction false} ElemsAppend(es: Elems, after: seq<Symbol>, tail: seq<Symbol>)
    ensures ShowElems(es, after + tail) == ShowElems(es, after) + tail
    decreases es, 0, 0
  {
    match es
    case NoElems =>
    case Elem(e, NoElems) => TopAppend(e, after, tail);
    case Elem(e, rest) =>
      var others := ShowElems(rest, after);
      ElemsAppend(rest, after, tail);
      assert [Comma] + (others + tail) == [Comma] + others + tail;
      TopAppend(e, [Comma] + others, tail);
  }

  // ----- Printed trees balance their parentheses -----

  lemma {:induction false} PartsSkip(parts: seq<string>, after: seq<Symbol>)
    ensures Skips(ShowParts(parts, after), after)
    decreases |parts|
  {
    if parts == [] {
      SkipsNothing(after);
    } else {
      var ts := ShowParts(parts, after);
      assert ts[1..][1..] == ShowParts(parts[1..], after);
      SkipsOne(ts);
      SkipsOne(ts[1..]);
      SkipsOn(ts, ts[1..], ts[2..]);
      PartsSkip(parts[1..], after);
      SkipsOn(ts, ts[2..], after);
    }
  }

  lemma PathSkips(path: string, after: seq<Symbol>)
    ensures Skips(ShowPath(path, after), after)
  {
    var ts := ShowPath(path, after);
    SkipsOne(ts);
    assert ts[1..] == ShowParts(Split(path, '.')[1..], after);
    PartsSkip(Split(path, '.')[1..], after);
    SkipsOn(ts, ts[1..], after);
  }

  lemma SkipsFirst(s: Symbol, ts: seq<Symbol>, rest: seq<Symbol>)
    requires s != Open && s != Close && Skips(ts, rest)
    ensures Skips([s] + ts, rest)
  {
    assert ([s] + ts)[1..] == ts;
    SkipsOne([s] + ts);
    SkipsOn([s] + ts, ts, rest);
  }

  lemma SkipsParens(ts: seq<Symbol>, after: seq<Symbol>)
    requires Skips(ts, [Close] + after)
    ensures Skips([Open] + ts, after)
  {
    assert ([Open] + ts)[1..] == ts && ([Close] + after)[1..] == after;
    SkipsGroup([Open] + ts, [Close] + after);
  }

  lemma SkipsCall(name: string, ts: seq<Symbol>, after: seq<Symbol>)
    requires Skips(ts, [Close] + after)
    ensures Skips([Ident(name), Open] + ts, after)
  {
    SkipsParens(ts, after);
    SkipsFirst(Ident(name), [Open] + ts, after);
    assert [Ident(name)] + ([Open] + ts) == [Ident(name), Open] + ts;
  }

  lemma {:induction false} ShowSkips(e: Expr, level: nat, after: seq<Symbol>)
    ensures Skips(ShowAt(e, level, after), after)
    decreases e, 1
  {
    if Level(e) < level {
      TopSkips(e, [Close] + after);
      SkipsParens(Show(e, [Close] + after), after);
    } else {
      TopSkips(e, after);
    }
  }

  lemma {:induction false} PairSkips(e: Expr, a: Expr, k: nat, mid: Symbol, b: Expr, m: nat, after: seq<Symbol>)
    requires a < e && b < e && mid != Open && mid != Close
    ensures Skips(ShowAt(a, k, [mid] + ShowAt(b, m, after)), after)
    decreases e, 0, 0
  {
    var second := ShowAt(b, m, after);
    ShowSkips(b, m, after);
    SkipsFirst(mid, second, after);
    ShowSkips(a, k, [mid] + second);
    SkipsOn(ShowAt(a, k, [mid] + second), [mid] + second, after);
  }

  lemma {:induction false} EverySkips(path: string, param: string, body: Expr, after: seq<Symbol>)
    ensures Skips(Show(Every(path, param, body), after), after)
    decreases body, 2
  {
    hide Skips, Split, ShowPath, ShowParts, ShowAt, ComparisonOp;
    var inner := ShowAt(body, 0, [Close] + after);
    ShowSkips(body, 0, [Close] + after);
    SkipsFirst(Arrow, inner, [Close] + after);
    SkipsFirst(Ident(param), [Arrow] + inner, [Close] + after);
    SkipsCall("every", [Ident(param)] + ([Arrow] + inner), after);
    var call := [Ident("every"), Open] + ([Ident(param)] + ([Arrow] + inner));
    SkipsFirst(Dot, call, after);
    assert [Dot] + call == [Dot, Ident("every"), Open, Ident(param), Arrow] + inner;
    PathSkips(path, [Dot] + call);
    SkipsOn(Show(Every(path, param, body), after), [Dot] + call, after);
  }

  lemma {:induction false} OperandSkips(e: Expr, after: seq<Symbol>)
    requires Level(e) == 5
    ensures Skips(Show(e, after), after)
    decreases e, 0, 1
  {
    hide Skips, Split, ShowPath, ShowParts, ShowAt, ComparisonOp;
    SkipsNothing(after);
    match e
    case NumberLit(text) => SkipsFirst(Number(text), after, after);
    case TextLit(value) => SkipsFirst(Text(value), after, after);
    case NullLit => SkipsFirst(Ident("null"), after, after);
    case BoolLit(b) => SkipsFirst(Ident(if b then "true" else "false"), after, after);
    case Field(path) => PathSkips(path, after);
    case LengthOf(path) =>
      SkipsFirst(Ident("length"), after, after);
      SkipsFirst(Dot, [Ident("length")] + after, after);
      assert [Dot] + ([Ident("length")] + after) == [Dot, Ident("length")] + after;
      PathSkips(path, [Dot, Ident("length")] + after);
      SkipsOn(Show(e, after), [Dot, Ident("length")] + after, after);
    case Every(path, param, body) => EverySkips(path, param, body, after);
    case ArrayLit(es) =>
      SkipsFirst(BracketClose, after, after);
      ElemsSkip(es, [BracketClose] + after);
      SkipsOn(ShowElems(es, [BracketClose] + after), [BracketClose] + after, after);
      SkipsFirst(BracketOpen, ShowElems(es, [BracketClose] + after), after);
    case SumList(a) =>
      ShowSkips(a, 5, [Close] + after);
      SkipsCall("bigint_sum", ShowAt(a, 5, [Close] + after), after);
    case SumField(a, b) =>
      PairSkips(e, a, 5, Comma, b, 5, [Close] + after);
      SkipsCall("bigint_sum", ShowAt(a, 5, [Comma] + ShowAt(b, 5, [Close] + after)), after);
    case LenCall(a) =>
      ShowSkips(a, 0, [Close] + after);
      SkipsCall("len", ShowAt(a, 0, [Close] + after), after);
    case Call(f, a, b) =>
      PairSkips(e, a, 0, Comma, b, 0, [Close] + after);
      SkipsCall(FunctionName(f), ShowAt(a, 0, [Comma] + ShowAt(b, 0, [Close] + after)), after);
    case Temporal(op, path) =>
      PathSkips(path, [Close] + after);
      SkipsCall(TemporalName(op), ShowPath(path, [Close] + after), after);
    case Stuck(_, _) =>
    case Bad(_) =>
  }

  lemma {:induction false} TopSkips(e: Expr, after: seq<Symbol>)
    ensures Skips(Show(e, after), after)
    decreases e, 0, 2
  {
    hide Skips, Split, ShowPath, ShowParts, ShowAt, ComparisonOp;
    match e
    case Implies(a, b) => PairSkips(e, a, 1, Arrow, b, 1, after);
    case Or(a, b) => PairSkips(e, a, 1, Op(OrOp), b, 2, after);
    case And(a, b) => PairSkips(e, a, 2, Op(AndOp), b, 3, after);
    case Compare(cmp, a, b) => PairSkips(e, a, 4, Op(ComparisonOp(cmp)), b, 4, after);
    case Not(a) =>
      ShowSkips(a, 4, after);
      SkipsFirst(Op(NotOp), ShowAt(a, 4, after), after);
    case _ => OperandSkips(e, after);
  }

  lemma {:induction false} ElemsSkip(es: Elems, after: seq<Symbol>)
    ensures Skips(ShowElems(es, after), after)
    decreases es, 0, 0
  {
    match es
    case NoElems => SkipsNothing(after);
    case Elem(e, NoElems) => TopSkips(e, after);
    case Elem(e, rest) =>
      ElemsSkip(rest, after);
      SkipsFirst(Comma, ShowElems(rest, after), after);
      TopSkips(e, [Comma] + ShowElems(rest, after));
      SkipsOn(ShowElems(es, after), [Comma] + ShowElems(rest, after), after);
  }
}
