/** Expressions as trees, and the reading of a symbol stream as a tree without looking at any data.

    A reading never gets lost: where the text stops being an expression, the tree holds the error at the place
    where evaluation runs into it. So a tree says both what an expression means and which error it raises, and
    after what. In the body of an `every` lambda an error stays hidden until the lambda is first applied. */
module Syntax {
  import opened Results
  import opened Tokenizer

  const MAX_EXPRESSION_DEPTH := 32

  datatype Error =
    | DepthExceeded
    | UnexpectedEnd
    | UnexpectedToken(sym: Symbol)
    | Expected(want: Symbol, got: Option<Symbol>)
    | ExpectedIdentifier(got: Option<Symbol>)
    | OutsideFragment

  datatype Comparison = CmpEq | CmpNe | CmpLt | CmpGt | CmpLe | CmpGe

  datatype TwoArguments = BigintGte | BigintGt | BigintEq | BigintSub | BigintAdd | StrictlyEqual

  datatype TemporalOp = Changed | Previous | Delta

  datatype Expr =
    | NumberLit(text: string)
    | TextLit(value: string)
    | NullLit
    | BoolLit(b: bool)
    | Field(path: string)
    | LengthOf(path: string)
    | Every(path: string, param: string, body: Expr)
    | ArrayLit(elems: Elems)
    | Not(operand: Expr)
    | Compare(cmp: Comparison, left: Expr, right: Expr)
    | And(left: Expr, right: Expr)
    | Or(left: Expr, right: Expr)
    | Implies(left: Expr, right: Expr)
    | SumList(list: Expr)
    | SumField(list: Expr, name: Expr)
    | LenCall(arg: Expr)
    | Call(f: TwoArguments, left: Expr, right: Expr)
    | Temporal(op: TemporalOp, path: string)
    | Stuck(before: Expr, error: Error)  // `before` is evaluated, then the error is raised
    | Bad(error: Error)

  datatype Elems = NoElems | Elem(head: Expr, tail: Elems)

  /** The functions a name can call. */
  datatype Builtin =
    | BigintSum
    | LenFunction
    | Two(f: TwoArguments)
    | Time(op: TemporalOp)
    | Unmodelled

  /** Registered functions whose meaning is not part of this model. */
  const UNMODELLED_BUILTINS: set<string> := {
    "all_links_subset_authority", "delegation_budget_conserved", "links_temporally_ordered", "links_form_chain",
    "is_valid_dag", "no_emergent_in_individual", "all_emergent_have_evidence", "object_keys_subset", "type_of",
    "is_bigint_coercible", "unique_values", "tree_budget_conserved", "tree_authority_narrowing",
    "saga_amount_conserved", "saga_steps_sequential",
    "outcome_consensus_valid", "monetary_policy_solvent", "permission_boundary_active", "proposal_quorum_met",
    "saga_timeout_valid", "proposal_weights_normalized", "is_after", "is_before", "is_between", "is_stale",
    "is_within", "constraint_lifecycle_valid", "proposal_execution_valid", "now", "model_routing_eligible",
    "basket_weights_normalized", "execution_checkpoint_valid", "audit_trail_chain_valid",
    "nonce_unique_per_signer_window", "sequence_monotonic_per_cluster", "chain_validator_prev_hash",
    "canonical_size_cap", "signer_key_id_matches_derivation", "percentiles_monotonic_nondecreasing",
    "utf8_byte_length_max", "plan_content_hash_unchanged_since_signoff"
  }

  function BuiltinOf(name: string): Option<Builtin> {
    if name == "bigint_sum" then Some(BigintSum)
    else if name == "bigint_gte" then Some(Two(BigintGte))
    else if name == "bigint_gt" then Some(Two(BigintGt))
    else if name == "bigint_eq" then Some(Two(BigintEq))
    else if name == "bigint_sub" then Some(Two(BigintSub))
    else if name == "bigint_add" then Some(Two(BigintAdd))
    else if name == "eq" then Some(Two(StrictlyEqual))
    else if name == "changed" then Some(Time(Changed))
    else if name == "previous" then Some(Time(Previous))
    else if name == "delta" then Some(Time(Delta))
    else if name == "len" then Some(LenFunction)
    else if name in UNMODELLED_BUILTINS then Some(Unmodelled)
    else None
  }

  /** What a name means where an operand is expected. */
  datatype Word = NullWord | BoolWord(b: bool) | Function(builtin: Builtin) | FieldName

  function WordOf(name: string): Word {
    if name == "null" then NullWord
    else if name == "true" then BoolWord(true)
    else if name == "false" then BoolWord(false)
    else if BuiltinOf(name).Some? then Function(BuiltinOf(name).value)
    else FieldName
  }

  /** What a name means after a dot. */
  datatype Member = LengthMember | EveryMember | PlainMember

  function MemberOf(name: string): Member {
    if name == "length" then LengthMember
    else if name == "every" then EveryMember
    else PlainMember
  }

  function ComparisonOf(op: Operator): Option<Comparison> {
    match op
    case EqOp => Some(CmpEq)
    case NeOp => Some(CmpNe)
    case LtOp => Some(CmpLt)
    case GtOp => Some(CmpGt)
    case LeOp => Some(CmpLe)
    case GeOp => Some(CmpGe)
    case _ => None
  }

  // ----- Trees that certainly fail -----

  /** Evaluation cannot get past this tree: it holds an error outside every lambda. */
  predicate Broken(e: Expr) {
    match e
    case Not(a) => Broken(a)
    case Compare(_, a, b) => Broken(a) || Broken(b)
    case And(a, b) => Broken(a) || Broken(b)
    case Or(a, b) => Broken(a) || Broken(b)
    case Implies(a, b) => Broken(a) || Broken(b)
    case SumList(a) => Broken(a)
    case SumField(a, b) => Broken(a) || Broken(b)
    case LenCall(a) => Broken(a)
    case Call(_, a, b) => Broken(a) || Broken(b)
    case ArrayLit(es) => BrokenElems(es)
    case Stuck(_, _) => true
    case Bad(_) => true
    case _ => false
  }

  predicate BrokenElems(es: Elems) {
    es.Elem? && (Broken(es.head) || BrokenElems(es.tail))
  }

  // ----- Reading -----

  /** A tree with the symbols left and the depth reached, or a broken tree. */
  datatype Reading<T> = Ok(t: T, rest: seq<Symbol>, depth: nat) | Err(t: T)

  predicate At(ts: seq<Symbol>, sym: Symbol) {
    ts != [] && ts[0] == sym
  }

  function First(ts: seq<Symbol>): Option<Symbol> {
    if ts == [] then None else Some(ts[0])
  }

  predicate AtComparison(ts: seq<Symbol>) {
    ts != [] && ts[0].Op? && ComparisonOf(ts[0].op).Some?
  }

  predicate Shorter<T>(r: Reading<T>, ts: seq<Symbol>) {
    r.Ok? ==> |r.rest| < |ts|
  }

  predicate NotLonger<T>(r: Reading<T>, ts: seq<Symbol>) {
    r.Ok? ==> |r.rest| <= |ts|
  }

  function ReadExpr(ts: seq<Symbol>, d: nat): (r: Reading<Expr>)
    ensures Shorter(r, ts) && (r.Err? <==> Broken(r.t))
    decreases |ts|, 9
  {
    if d + 1 > MAX_EXPRESSION_DEPTH then Err(Bad(DepthExceeded))
    else
      var l := ReadOr(ts, d + 1);
      if l.Err? || !At(l.rest, Arrow) then l
      else
        var r := ReadOr(l.rest[1..], l.depth);
        if r.Err? then Err(Implies(l.t, r.t)) else Ok(Implies(l.t, r.t), r.rest, r.depth)
  }

  function ReadOr(ts: seq<Symbol>, d: nat): (r: Reading<Expr>)
    ensures Shorter(r, ts) && (r.Err? <==> Broken(r.t))
    decreases |ts|, 8
  {
    var l := ReadAnd(ts, d);
    if l.Err? then l else OrRest(l.t, l.rest, l.depth)
  }

  function OrRest(left: Expr, ts: seq<Symbol>, d: nat): (r: Reading<Expr>)
    requires !Broken(left)
    ensures NotLonger(r, ts) && (r.Err? <==> Broken(r.t))
    decreases |ts|, 8
  {
    if !At(ts, Op(OrOp)) then Ok(left, ts, d)
    else
      var r := ReadAnd(ts[1..], d);
      if r.Err? then Err(Or(left, r.t)) else OrRest(Or(left, r.t), r.rest, r.depth)
  }

  function ReadAnd(ts: seq<Symbol>, d: nat): (r: Reading<Expr>)
    ensures Shorter(r, ts) && (r.Err? <==> Broken(r.t))
    decreases |ts|, 7
  {
    var l := ReadComparison(ts, d);
    if l.Err? then l else AndRest(l.t, l.rest, l.depth)
  }

  function AndRest(left: Expr, ts: seq<Symbol>, d: nat): (r: Reading<Expr>)
    requires !Broken(left)
    ensures NotLonger(r, ts) && (r.Err? <==> Broken(r.t))
    decreases |ts|, 7
  {
    if !At(ts, Op(AndOp)) then Ok(left, ts, d)
    else
      var r := ReadComparison(ts[1..], d);
      if r.Err? then Err(And(left, r.t)) else AndRest(And(left, r.t), r.rest, r.depth)
  }

  function ReadComparison(ts: seq<Symbol>, d: nat): (r: Reading<Expr>)
    ensures Shorter(r, ts) && (r.Err? <==> Broken(r.t))
    decreases |ts|, 6
  {
    var l := ReadUnary(ts, d);
    if l.Err? || !AtComparison(l.rest) then l
    else
      var cmp := ComparisonOf(l.rest[0].op).value;
      var r := ReadUnary(l.rest[1..], l.depth);
      if r.Err? then Err(Compare(cmp, l.t, r.t)) else Ok(Compare(cmp, l.t, r.t), r.rest, r.depth)
  }

  function ReadUnary(ts: seq<Symbol>, d: nat): (r: Reading<Expr>)
    ensures Shorter(r, ts) && (r.Err? <==> Broken(r.t))
    decreases |ts|, 5
  {
    if !At(ts, Op(NotOp)) then ReadPrimary(ts, d)
    else
      var a := ReadUnary(ts[1..], d);
      if a.Err? then Err(Not(a.t)) else Ok(Not(a.t), a.rest, a.depth)
  }

  function ReadPrimary(ts: seq<Symbol>, d: nat): (r: Reading<Expr>)
    ensures Shorter(r, ts) && (r.Err? <==> Broken(r.t))
    decreases |ts|, 4
  {
    if ts == [] then Err(Bad(UnexpectedEnd))
    else
      match ts[0]
      case Open =>
        var a := ReadExpr(ts[1..], d);
        if a.Err? then a
        else if At(a.rest, Close) then Ok(a.t, a.rest[1..], a.depth)
        else Err(Stuck(a.t, Expected(Close, First(a.rest))))
      case BracketOpen =>
        var es := ReadElems(ts[1..], d);
        if es.Err? then Err(ArrayLit(es.t)) else Ok(ArrayLit(es.t), es.rest, es.depth)
      case Number(text) => Ok(NumberLit(text), ts[1..], d)
      case Text(value) => Ok(TextLit(value), ts[1..], d)
      case Ident(name) =>
        (match WordOf(name)
         case NullWord => Ok(NullLit, ts[1..], d)
         case BoolWord(b) => Ok(BoolLit(b), ts[1..], d)
         case Function(f) => ReadCall(f, ts[1..], d)
         case FieldName => ReadField(ts, d))
      case _ => Err(Bad(UnexpectedToken(ts[0])))
  }

  /** The elements of an array literal, behind its `[`, up to and including its `]`. Any other symbol than a
      string or a number starts a field path, and commas are optional. */
  function ReadElems(ts: seq<Symbol>, d: nat): (r: Reading<Elems>)
    ensures Shorter(r, ts) && (r.Err? <==> BrokenElems(r.t))
    decreases |ts|, 4
  {
    if ts == [] then Err(Elem(Bad(Expected(BracketClose, None)), NoElems))
    else if ts[0] == BracketClose then Ok(NoElems, ts[1..], d)
    else
      var e := ReadElement(ts, d);
      if e.Err? then Err(Elem(e.t, NoElems))
      else
        var es := ReadElems(if At(e.rest, Comma) then e.rest[1..] else e.rest, e.depth);
        if es.Err? then Err(Elem(e.t, es.t)) else Ok(Elem(e.t, es.t), es.rest, es.depth)
  }

  function ReadElement(ts: seq<Symbol>, d: nat): (r: Reading<Expr>)
    requires ts != []
    ensures Shorter(r, ts) && (r.Err? <==> Broken(r.t))
    decreases |ts|, 3, 1
  {
    match ts[0]
    case Text(value) => Ok(TextLit(value), ts[1..], d)
    case Number(text) => Ok(NumberLit(text), ts[1..], d)
    case _ => ReadField(ts, d)
  }

  function ReadField(ts: seq<Symbol>, d: nat): (r: Reading<Expr>)
    requires ts != []
    ensures Shorter(r, ts) && (r.Err? <==> Broken(r.t))
    decreases |ts|, 3, 0
  {
    if At(ts[1..], BracketOpen) then Err(Bad(OutsideFragment))
    else PathRest(ValueOf(ts[0]), ts[1..], d)
  }

  function PathRest(path: string, ts: seq<Symbol>, d: nat): (r: Reading<Expr>)
    ensures NotLonger(r, ts) && (r.Err? <==> Broken(r.t))
    decreases |ts|, 3
  {
    if !At(ts, Dot) then Ok(Field(path), ts, d)
    else if |ts| == 1 then Err(Bad(ExpectedIdentifier(None)))
    else
      match ts[1]
      case Ident(name) =>
        (match MemberOf(name)
         case LengthMember => Ok(LengthOf(path), ts[2..], d)
         case EveryMember => ReadEvery(path, ts[2..], d)
         case PlainMember => PathRest(path + "." + name, ts[2..], d))
      case _ => Ok(Field(path), ts[1..], d)
  }

  /** How many symbols come before the `)` that closes `open` open parentheses; all of them if none does. */
  function Enclosed(ts: seq<Symbol>, open: nat): (n: nat)
    ensures n <= |ts|
    ensures open > 0 && n < |ts| ==> ts[n] == Close
  {
    if ts == [] || open == 0 then 0
    else if ts[0] == Close && open == 1 then 0
    else 1 + Enclosed(ts[1..], if ts[0] == Open then open + 1 else if ts[0] == Close then open - 1 else open)
  }

  /** `(param => body)`. The body is read on its own, up to the matching parenthesis, from the depth reached so
      far; symbols left over in it are ignored. */
  function ReadEvery(path: string, ts: seq<Symbol>, d: nat): (r: Reading<Expr>)
    ensures NotLonger(r, ts) && (r.Err? <==> Broken(r.t))
    decreases |ts|, 2
  {
    if !At(ts, Open) then Err(Bad(Expected(Open, First(ts))))
    else if |ts| == 1 || !ts[1].Ident? then Err(Bad(ExpectedIdentifier(First(ts[1..]))))
    else if !At(ts[2..], Arrow) then Err(Bad(Expected(Arrow, First(ts[2..]))))
    else
      var inner := ts[3..];
      var n := Enclosed(inner, 1);
      if n == |inner| then Err(Bad(Expected(Close, None)))
      else Ok(Every(path, ts[1].name, ReadExpr(inner[..n], d).t), inner[n + 1..], d)
  }

  /** A call of `f`, behind its name. */
  function ReadCall(f: Builtin, ts: seq<Symbol>, d: nat): (r: Reading<Expr>)
    ensures NotLonger(r, ts) && (r.Err? <==> Broken(r.t))
    decreases |ts|, 10
  {
    if !At(ts, Open) then Err(Bad(Expected(Open, First(ts))))
    else
      match f
      case BigintSum => ReadSum(ts[1..], d)
      case LenFunction => ReadLen(ts[1..], d)
      case Two(f2) => ReadTwo(f2, ts[1..], d)
      case Time(op) => ReadTime(op, ts[1..], d)
      case Unmodelled => Err(Bad(OutsideFragment))
  }

  /** `arg)` */
  function ReadLen(ts: seq<Symbol>, d: nat): (r: Reading<Expr>)
    ensures NotLonger(r, ts) && (r.Err? <==> Broken(r.t))
    decreases |ts|, 10
  {
    var a := ReadExpr(ts, d);
    if a.Err? then a
    else if At(a.rest, Close) then Ok(LenCall(a.t), a.rest[1..], a.depth)
    else Err(Stuck(a.t, Expected(Close, First(a.rest))))
  }

  /** `left, right)` */
  function ReadTwo(f2: TwoArguments, ts: seq<Symbol>, d: nat): (r: Reading<Expr>)
    ensures NotLonger(r, ts) && (r.Err? <==> Broken(r.t))
    decreases |ts|, 10
  {
    var a := ReadExpr(ts, d);
    if a.Err? then a
    else if !At(a.rest, Comma) then Err(Stuck(a.t, Expected(Comma, First(a.rest))))
    else
      var b := ReadExpr(a.rest[1..], a.depth);
      if b.Err? then Err(Call(f2, a.t, b.t))
      else if At(b.rest, Close) then Ok(Call(f2, a.t, b.t), b.rest[1..], b.depth)
      else Err(Stuck(Call(f2, a.t, b.t), Expected(Close, First(b.rest))))
  }

  function ReadSum(ts: seq<Symbol>, d: nat): (r: Reading<Expr>)
    ensures NotLonger(r, ts) && (r.Err? <==> Broken(r.t))
    decreases |ts|, 5
  {
    var a := ReadPrimary(ts, d);
    if a.Err? then a
    else if At(a.rest, Comma) then
      var b := ReadPrimary(a.rest[1..], a.depth);
      if b.Err? then Err(SumField(a.t, b.t))
      else if At(b.rest, Close) then Ok(SumField(a.t, b.t), b.rest[1..], b.depth)
      else Err(Stuck(SumField(a.t, b.t), Expected(Close, First(b.rest))))
    else if At(a.rest, Close) then Ok(SumList(a.t), a.rest[1..], a.depth)
    else Err(Stuck(a.t, Expected(Close, First(a.rest))))
  }

  /** `path)` */
  function ReadTime(op: TemporalOp, ts: seq<Symbol>, d: nat): (r: Reading<Expr>)
    ensures NotLonger(r, ts) && (r.Err? <==> Broken(r.t))
  {
    if ts == [] || !ts[0].Ident? then Err(Bad(ExpectedIdentifier(First(ts))))
    else ReadTemporal(op, ts[0].name, ts[1..], d)
  }

  /** The rest of a temporal call whose argument starts with `path`. */
  function ReadTemporal(op: TemporalOp, path: string, ts: seq<Symbol>, d: nat): (r: Reading<Expr>)
    ensures NotLonger(r, ts) && (r.Err? <==> Broken(r.t))
    decreases |ts|
  {
    if At(ts, Dot) then
      if |ts| > 1 && ts[1].Ident? then ReadTemporal(op, path + "." + ts[1].name, ts[2..], d)
      else Err(Bad(ExpectedIdentifier(First(ts[1..]))))
    else if At(ts, Close) then Ok(Temporal(op, path), ts[1..], d)
    else Err(Bad(Expected(Close, First(ts))))
  }
}
