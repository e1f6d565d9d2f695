/** The detailed evaluator: validate, then evaluate. Which of the expressions that the validator accepts the evaluator
    can evaluate, whatever the data. */
module Detailed {
  import opened Results
  import opened Values
  import opened Tokenizer
  import opened Syntax
  import opened Semantics
  import opened Evaluator
  import opened Grammar
  import opened Agreement
  import opened Lambdas
  import opened Printing
  import opened RoundTrip
  import opened Acceptance

  /** The validator accepts all of `ts`; or, in full, the check of what the evaluator reads does. */
  predicate Accepts(ts: seq<Symbol>, full: bool) {
    var c := CheckExpr(ts, 0, full);
    c.Accept? && c.rest == []
  }

  /** Of what either of the two accepts, the evaluator reads without any error, in every lambda body too, and to the
      last symbol, exactly what the check in full accepts at a price within the depth limit. And what that check
      accepts runs into no other error than the depth limit. */
  lemma ReadsWhatIsAcceptedInFull(ts: seq<Symbol>, side: bool)
    requires Accepts(ts, side)
    ensures var read, full := ReadExpr(ts, 0), CheckExpr(ts, 0, true);
            && (Clean(read.t) <==> Accepts(ts, true) && full.peak <= MAX_EXPRESSION_DEPTH)
            && (Clean(read.t) ==> read.Ok? && read.rest == [])
            && (Accepts(ts, true) ==> OnlyTooDeep(read.t) && (read.Ok? ==> read.rest == []))
  {
    hide CheckExpr, ReadExpr, Clean, OnlyTooDeep;
    assert Cut(ts, 0) == ts;
    MatchExpr(ts, 0, [], 0, side, 0);
    if ReadExpr(ts, 0).Err? {
      BrokenIsNotClean(ReadExpr(ts, 0).t);
    }
  }

  // ----- The detailed evaluator -----

  datatype EvaluationResult =
    | Evaluated(value: bool)
    | UnsupportedVersion
    | SyntaxInvalid(problem: Problem, position: nat)
    | EvaluationFailed(problem: Problem)

  /** A version is supported when its major number is from 1 to 2. */
  predicate VersionSupported(version: string) {
    var major := ParseNumber(Split(version, '.')[0]);
    major.Some? && 1.0 <= major.value <= 2.0
  }

  /** A version that is a whole number, or starts with one in front of a dot, is supported if that is one or two; a
      version that starts with a letter is not. */
  lemma VersionsAre(major: string, rest: string)
    requires major != "" && '.' !in major
    ensures VersionSupported(major) == VersionSupported(major + "." + rest)
    ensures AllDigits(major) ==> (VersionSupported(major) <==> Decimal(major) == 1 || Decimal(major) == 2)
    ensures IsWordStart(major[0]) ==> !VersionSupported(major)
  {
    hide ParseNumber, Decimal;
    SplitWhole(major, '.');
    SplitAppend(major, rest, '.');
    if AllDigits(major) {
      NumberOfDigits(major);
    } else if IsWordStart(major[0]) {
      NumberOfWord(major);
    }
  }

  /** No version, or an empty one, asks for no check. */
  predicate VersionAccepted(version: Option<string>) {
    version.None? || version.value == "" || VersionSupported(version.value)
  }

  method EvaluateConstraintDetailed(expression: string, data: Data, version: Option<string>)
    returns (r: EvaluationResult)
    ensures r.UnsupportedVersion? <==> !VersionAccepted(version)
    ensures VersionAccepted(version) ==>
              match Validate(expression)
              case Invalid(problem, position) => r == SyntaxInvalid(problem, position)
              case Valid =>
                match Evaluate(expression, data)
                case Success(v) => r == Evaluated(Truthy(v))
                case Failure(problem) => r == EvaluationFailed(problem)
  {
    if version.Some? && version.value != "" && !VersionSupported(version.value) {
      return UnsupportedVersion;
    }
    var verdict := ValidateExpression(expression);
    if verdict.Invalid? {
      return SyntaxInvalid(verdict.problem, verdict.position);
    }
    var value := EvaluateConstraint(data, expression);
    match value {
      case Success(b) => return Evaluated(b);
      case Failure(problem) => return EvaluationFailed(problem);
    }
  }

  /** The check in full accepts the expression. */
  predicate Readable(expression: string) {
    var tokens := Lex(expression, 0, []);
    tokens.Success? && Accepts(Symbols(tokens.value), true)
  }

  /** How high the evaluator's depth counter gets raised. */
  function DepthNeeded(expression: string): nat
    requires Readable(expression)
  {
    CheckExpr(Symbols(Lex(expression, 0, []).value), 0, true).peak
  }

  /** What can be told from the text, before any evaluation: the check in full accepts it, at a price within the depth
      limit. */
  predicate Evaluable(expression: string) {
    Readable(expression) && DepthNeeded(expression) <= MAX_EXPRESSION_DEPTH
  }

  /** Accepted by the validator, or by the check in full. */
  predicate Known(expression: string) {
    Validate(expression).Valid? || Readable(expression)
  }

  /** The tree the evaluator's parsing amounts to. */
  function TreeOf(expression: string): Expr
    requires Known(expression)
  {
    ReadExpr(Symbols(Lex(expression, 0, []).value), 0).t
  }

  /** There is no error in the tree exactly if that can be told from the text. */
  lemma EvaluableIsClean(expression: string)
    requires Known(expression)
    ensures Clean(TreeOf(expression)) <==> Evaluable(expression)
  {
    hide CheckExpr, ReadExpr, Lex;
    ReadsWhatIsAcceptedInFull(Symbols(Lex(expression, 0, []).value), Readable(expression));
  }

  /** An expression the validator accepts and the check in full does not is misread: the evaluator's tree for it holds
      an error. Whether evaluation runs into it is said below. */
  lemma OthersAreMisread(expression: string)
    requires Validate(expression).Valid? && !Readable(expression)
    ensures Known(expression) && !Clean(TreeOf(expression))
  {
    hide Readable, Clean, TreeOf;
    EvaluableIsClean(expression);
  }

  /** An expression the check in full accepts never fails for another reason than the depth limit, and not for that one
      if its price is within it. */
  lemma ValidatedExpressionsEvaluate(expression: string, data: Data)
    requires Readable(expression)
    ensures var r := Evaluate(expression, data);
            && (r.Success? || r == Failure(Syntactic(DepthExceeded)))
            && (Evaluable(expression) ==> r.Success?)
  {
    hide CheckExpr, ReadExpr, Lex;
    var ts := Symbols(Lex(expression, 0, []).value);
    ReadsWhatIsAcceptedInFull(ts, true);
    TooDeepIsTheOnlyError(ReadExpr(ts, 0).t, data);
    if Evaluable(expression) {
      CleanHasValue(ReadExpr(ts, 0).t, data);
    }
  }

  lemma HasValueIf(expression: string, data: Data)
    requires Known(expression)
    ensures Evaluate(expression, data).Success? <==> Eval(TreeOf(expression), data).Success?
  {
    hide CheckExpr, ReadExpr, Lex, Eval;
  }

  /** Without lambdas, whether an expression can be evaluated can be told from its text, and depends on no data. */
  lemma LambdaFreeExpressions(expression: string, data: Data)
    requires Known(expression) && NoEvery(Symbols(Lex(expression, 0, []).value))
    ensures Evaluate(expression, data).Success? <==> Evaluable(expression)
  {
    hide CheckExpr, ReadExpr, Lex, Clean, LambdaFree, Eval;
    EvaluableIsClean(expression);
    FreeExpr(Symbols(Lex(expression, 0, []).value), 0);
    LambdaFreeHasValue(TreeOf(expression), data);
    HasValueIf(expression, data);
  }

  /** With lambdas, each over something in the parameter of the one around it, an expression evaluates on all data
      exactly if that can be told from its text. */
  lemma LinkedExpressions(expression: string)
    requires Known(expression) && Linked(TreeOf(expression), None)
    ensures (forall data: Data :: Evaluate(expression, data).Success?) <==> Evaluable(expression)
  {
    hide Evaluate, Evaluable, Clean, Linked, Eval, TreeOf;
    EvaluableIsClean(expression);
    LinkedHasValues(TreeOf(expression));
    if Evaluable(expression) {
      forall data: Data ensures Evaluate(expression, data).Success? {
        HasValueIf(expression, data);
      }
    } else {
      var data: Data :| !Eval(TreeOf(expression), data).Success?;
      HasValueIf(expression, data);
      assert !Evaluate(expression, data).Success?;
    }
  }

  // ----- Printed trees -----

  /** The converse of reading printed trees back: only what fits the depth limit is read without an error. */
  lemma PrintedTreeIsReadIfItFits(e: Expr)
    requires HasText(e)
    ensures Clean(ReadExpr(ShowAt(e, 0, []), 0).t) <==> FitsExpr(e, 0)
  {
    hide HasText, CheckExpr, FitsExpr, ShowAt, ReadExpr, Clean;
    PriceIsDepth(e);
    ReadsWhatIsAcceptedInFull(ShowAt(e, 0, []), true);
  }

  /** Without lambdas, the text of a tree evaluates exactly if the tree fits the depth limit. */
  lemma PrintedTreeEvaluatesIfItFits(e: Expr, data: Data)
    requires HasText(e) && NoEvery(ShowAt(e, 0, []))
    ensures Evaluate(TextOf(e), data).Success? <==> FitsExpr(e, 0)
  {
    hide HasText, Lex, CheckExpr, TextOf, FitsExpr, Evaluate, ShowAt;
    PriceIsDepth(e);
    TextTokens(e);
    LambdaFreeExpressions(TextOf(e), data);
  }
}
