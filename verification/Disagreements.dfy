/** Expressions in which the validator and the evaluator disagree: valid ones that fail on all data, and one kind whose
    error is never reached. */
module Disagreements {
  import opened Results
  import opened Values
  import opened Tokenizer
  import opened Syntax
  import opened Semantics
  import opened Evaluator
  import opened Nesting
  import opened Printing
  import opened RoundTrip
  import opened Grammar
  import opened Acceptance
  import opened Detailed

  predicate IsUnknownFunction(name: string) {
    IsIdentifier(name) && WordOf(name).Function? && !KnownCall(WordOf(name).builtin)
  }

  // ----- The name of a function as a field -----

  /** The name of a function the validator does not know, standing alone: a field to the validator, a call that misses
      its parenthesis to the evaluator. It is valid, and fails on all data. */
  lemma FunctionNameIsNoField(name: string, data: Data)
    requires IsUnknownFunction(name)
    ensures Validate(name).Valid? && !Readable(name)
    ensures Evaluate(name, data).Failure?
  {
    hide Lex, IsIdentifier, WordOf, CheckExpr, ReadExpr;
    var ts := [Ident(name)];
    assert ts[1..] == [];
    assert Printable(ts);
    assert ts == [Ident(name)] + [];
    RenderPlain(Ident(name), []);
    assert Render([]) == "" && name + "" == name;
    LexRender(ts);
    assert Symbols(Placed(ts, 0)) == ts;
    CheckName(name, [], 0);
    ReadName(name, 0);
  }

  lemma ReadName(name: string, d: nat)
    requires WordOf(name).Function? && d < MAX_EXPRESSION_DEPTH
    ensures ReadExpr([Ident(name)], d) == Err(Bad(Expected(Open, None)))
  {
    hide WordOf;
    var ts := [Ident(name)];
    assert ts[1..] == [];
    assert ReadPrimary(ts, d + 1) == Err(Bad(Expected(Open, None)));
    assert ReadComparison(ts, d + 1) == ReadPrimary(ts, d + 1);
    assert ReadOr(ts, d + 1) == ReadPrimary(ts, d + 1);
  }

  lemma CheckName(name: string, after: seq<Symbol>, d: nat)
    requires IsUnknownFunction(name) && (after == [] || after[0] == Close) && d < MAX_EXPRESSION_DEPTH
    ensures CheckExpr([Ident(name)] + after, d, false) == Accept(after, 1, 1)
    ensures CheckExpr([Ident(name)] + after, d, true).Reject?
  {
    hide WordOf, CheckExpr, IsIdentifier;
    var ts := [Ident(name)] + after;
    assert ts[1..] == after;
    assert CheckField(ts, d + 1, false, false) == Free(after);
    CheckOperand(ts, d, false);
    CheckOperand(ts, d, true);
  }

  // ----- An error that is never reached -----

  /** `path.every(p => path.member.every(q => name))`: the inner lambda ranges over a member of the array the outer one
      ranges over, and arrays have no such members. */
  function UnreachedTree(path: string, member: string, p: string, q: string, name: string): Expr {
    Every(path, p, Every(path + "." + member, q, Field(name)))
  }

  predicate IsUnreached(path: string, member: string, p: string, q: string, name: string) {
    && IsFieldPath(path) && IsFieldPath(path + "." + member) && IsIdentifier(member)
    && IsIdentifier(p) && IsIdentifier(q) && p != Split(path, '.')[0]
    && IsUnknownFunction(name)
  }

  lemma {:induction false} SplitMember(path: string, member: string)
    requires forall i :: 0 <= i < |member| ==> member[i] != '.'
    ensures Split(path + "." + member, '.') == Split(path, '.') + [member]
  {
    if path == "" {
      assert path + "." + member == "." + member && ("." + member)[1..] == member;
      SplitJoin([member], '.');
    } else {
      SplitMember(path[1..], member);
      assert (path + "." + member)[1..] == path[1..] + "." + member;
    }
  }

  lemma {:induction false} ResolveMember(v: Value, names: seq<string>, member: string)
    ensures var w := Resolve(v, names);
            Resolve(v, names + [member]) == if w.IsObject() then Prop(w, member) else Undefined
    decreases |names|
  {
    if names == [] {
      assert names + [member] == [member] && [member][1..] == [];
    } else {
      assert (names + [member])[1..] == names[1..] + [member];
      if v.IsObject() {
        ResolveMember(Prop(v, names[0]), names[1..], member);
      }
    }
  }

  /** The inner lambda finds no array. */
  lemma NothingToApply(path: string, member: string, p: string, q: string, bad: Expr, data: Data)
    requires IsIdentifier(member) && MemberOf(member) == PlainMember && p != Split(path, '.')[0]
    ensures Eval(Every(path, p, Every(path + "." + member, q, bad)), data).Success?
  {
    var inner := Every(path + "." + member, q, bad);
    var arr := ResolveIn(data, path);
    if arr.Arr? && arr.elems != [] {
      var scoped := data[p := arr.elems[0]];
      NoMember(path, member, p, arr.elems[0], data);
      assert Eval(inner, scoped) == Success(Bool(false));
      assert EvalEvery(arr.elems, p, inner, data) == Success(false);
    }
  }

  lemma NoMember(path: string, member: string, p: string, item: Value, data: Data)
    requires IsIdentifier(member) && MemberOf(member) == PlainMember && p != Split(path, '.')[0]
    requires ResolveIn(data, path).Arr?
    ensures ResolveIn(data[p := item], path + "." + member) == Undefined
  {
    hide Split;
    var names := Split(path, '.');
    assert member[0] != '.' && !IsDigit(member[0]) && forall i :: 0 <= i < |member| ==> member[i] != '.';
    SplitMember(path, member);
    var there := Obj(Fresh, data[p := item]);
    ResolveMember(there, names, member);
    assert Prop(there, names[0]) == Prop(Obj(Fresh, data), names[0]);
    assert Resolve(there, names) == ResolveIn(data, path);
  }

  // How the two read lambdas.

  function Lambda(path: string, param: string, inner: seq<Symbol>): seq<Symbol> {
    ShowPath(path, [Dot, Ident("every"), Open, Ident(param), Arrow] + inner)
  }

  lemma LambdaFirst(path: string, param: string, inner: seq<Symbol>)
    ensures var ts := Lambda(path, param, inner);
            ts != [] && ts[0] == Ident(Split(path, '.')[0])
  {
  }

  lemma CheckLambda(path: string, param: string, inner: seq<Symbol>, d: nat, full: bool)
    requires IsFieldPath(path)
    ensures var c, r := CheckExpr(inner, d, full), CheckPrimary(Lambda(path, param, inner), d, full);
            && (c.Accept? && At(c.rest, Close) ==> r == Accept(c.rest[1..], 0, c.peak))
            && (c.Reject? ==> r == c)
  {
    hide CheckExpr, CheckPath, CheckField, IsPath, WordOf, ShowPath, Split;
    var lambda := [Open, Ident(param), Arrow] + inner;
    var every := [Dot, Ident("every"), Open, Ident(param), Arrow] + inner;
    assert [Dot, Ident("every")] + lambda == every;
    assert lambda[2..] == [Arrow] + inner && lambda[3..] == inner;
    CheckShownParts(path, every, d, full, false);
    CheckPathEnd(lambda, d, full);
    LambdaFirst(path, param, inner);
  }

  lemma ReadLambda(path: string, param: string, inner: seq<Symbol>, n: nat, d: nat)
    requires IsFieldPath(path) && Enclosed(inner, 1) == n < |inner|
    ensures ReadPrimary(Lambda(path, param, inner), d)
         == Ok(Every(path, param, ReadExpr(inner[..n], d).t), inner[n + 1..], d)
  {
    hide ReadExpr, ReadEvery, ReadField, IsPath, WordOf, ShowPath, Split, MemberOf;
    var lambda := [Open, Ident(param), Arrow] + inner;
    var every := [Dot, Ident("every"), Open, Ident(param), Arrow] + inner;
    assert every[2..] == lambda;
    MemberFacts();
    ReadPath(path, every, d);
    PathStep(path, every, d);
    ReadEveryAs(path, param, inner, n, d);
    LambdaFirst(path, param, inner);
  }

  lemma ReadOperand(ts: seq<Symbol>, t: Expr, d: nat)
    requires ts != [] && !ts[0].Op? && d < MAX_EXPRESSION_DEPTH && !Broken(t)
    requires ReadPrimary(ts, d + 1) == Ok(t, [], d + 1)
    ensures ReadExpr(ts, d) == Ok(t, [], d + 1)
  {
    hide ReadPrimary;
    assert ReadComparison(ts, d + 1) == ReadPrimary(ts, d + 1);
    assert ReadAnd(ts, d + 1) == ReadPrimary(ts, d + 1);
    assert ReadOr(ts, d + 1) == ReadPrimary(ts, d + 1);
  }

  lemma ShowLambda(path: string, param: string, body: Expr, after: seq<Symbol>)
    ensures ShowAt(Every(path, param, body), 0, after) == Lambda(path, param, ShowAt(body, 0, [Close] + after))
  {
  }

  lemma ShowName(name: string, after: seq<Symbol>)
    requires IsIdentifier(name)
    ensures ShowAt(Field(name), 0, after) == [Ident(name)] + after
  {
    SplitJoin([name], '.');
    assert Split(name, '.')[1..] == [];
  }

  lemma UnreachedChecks(path: string, member: string, p: string, q: string, name: string)
    requires IsUnreached(path, member, p, q, name)
    ensures var ts := ShowAt(UnreachedTree(path, member, p, q, name), 0, []);
            CheckExpr(ts, 0, false) == Accept([], 1, 3) && CheckExpr(ts, 0, true).Reject?
  {
    hide CheckExpr, CheckPrimary, IsFieldPath, IsIdentifier, WordOf, ShowAt, ShowPath;
    var longer, closed := path + "." + member, [Close, Close];
    var body := Lambda(longer, q, [Ident(name)] + closed);
    var ts := Lambda(path, p, body);
    ShowName(name, [Close] + ([Close] + []));
    assert [Close] + ([Close] + []) == closed && closed[1..] == [Close];
    ShowLambda(longer, q, Field(name), [Close] + []);
    ShowLambda(path, p, Every(longer, q, Field(name)), []);
    assert ShowAt(UnreachedTree(path, member, p, q, name), 0, []) == ts;
    CheckName(name, closed, 2);
    CheckLambda(longer, q, [Ident(name)] + closed, 2, false);
    CheckLambda(longer, q, [Ident(name)] + closed, 2, true);
    LambdaFirst(longer, q, [Ident(name)] + closed);
    CheckOperand(body, 1, false);
    CheckOperand(body, 1, true);
    CheckLambda(path, p, body, 1, false);
    CheckLambda(path, p, body, 1, true);
    LambdaFirst(path, p, body);
    CheckOperand(ts, 0, false);
    CheckOperand(ts, 0, true);
  }

  /** The inner lambda, standing alone. */
  lemma InnerIsRead(longer: string, q: string, name: string)
    requires IsFieldPath(longer) && IsUnknownFunction(name)
    ensures ReadExpr(ShowAt(Every(longer, q, Field(name)), 0, []), 1)
         == Ok(Every(longer, q, Bad(Expected(Open, None))), [], 2)
  {
    hide ReadExpr, ReadPrimary, IsFieldPath, IsIdentifier, WordOf, ShowAt, ShowPath, Enclosed;
    var inner := [Ident(name)] + ([Close] + []);
    ShowName(name, [Close] + []);
    ShowLambda(longer, q, Field(name), []);
    EnclosedName(name);
    ReadLambda(longer, q, inner, 1, 2);
    assert inner[..1] == [Ident(name)];
    ReadName(name, 2);
    LambdaFirst(longer, q, inner);
    ReadOperand(Lambda(longer, q, inner), Every(longer, q, Bad(Expected(Open, None))), 1);
  }

  lemma UnreachedIsRead(path: string, member: string, p: string, q: string, name: string)
    requires IsUnreached(path, member, p, q, name)
    ensures ReadExpr(ShowAt(UnreachedTree(path, member, p, q, name), 0, []), 0)
         == Ok(Every(path, p, Every(path + "." + member, q, Bad(Expected(Open, None)))), [], 1)
  {
    hide ReadExpr, ReadPrimary, IsFieldPath, IsIdentifier, WordOf, ShowAt, ShowPath, Skips, Enclosed;
    var inner := Every(path + "." + member, q, Field(name));
    var read := Every(path + "." + member, q, Bad(Expected(Open, None)));
    var alone, body := ShowAt(inner, 0, []), ShowAt(inner, 0, [Close] + []);
    InnerIsRead(path + "." + member, q, name);
    ShowLambda(path, p, inner, []);
    ShowAppend(inner, 0, [], [Close]);
    assert [] + [Close] == [Close] + [] == [Close];
    ShowSkips(inner, 0, [Close]);
    EnclosedIs(body, [Close]);
    assert body == alone + [Close];
    ReadLambda(path, p, body, |alone|, 1);
    LambdaFirst(path, p, body);
    ReadOperand(Lambda(path, p, body), Every(path, p, read), 0);
  }

  lemma EnclosedName(name: string)
    ensures Enclosed([Ident(name)] + ([Close] + []), 1) == 1
  {
    var ts := [Ident(name)] + ([Close] + []);
    assert ts[1..] == [Close];
  }

  lemma UnreachedIsPrintable(path: string, member: string, p: string, q: string, name: string)
    requires IsUnreached(path, member, p, q, name)
    ensures Printable(ShowAt(UnreachedTree(path, member, p, q, name), 0, []))
  {
    hide Printable, IsIdentifier, IsPath, ShowAt, ShowPath, WordOf;
    var closed := [Close] + ([Close] + []);
    EmptyIsPrintable();
    PrintableFirst(Close, []);
    PrintableFirst(Close, [Close] + []);
    ShowName(name, closed);
    PrintableFirst(Ident(name), closed);
    ShowLambda(path + "." + member, q, Field(name), [Close] + []);
    ShowLambda(path, p, Every(path + "." + member, q, Field(name)), []);
    PrintableLambda(path + "." + member, q, [Ident(name)] + closed);
    PrintableLambda(path, p, Lambda(path + "." + member, q, [Ident(name)] + closed));
  }

  lemma EmptyIsPrintable()
    ensures Printable([])
  {
  }

  /** It is valid, and what the evaluator makes of the lambda body inside is an error; but the body is never applied,
      and the expression has a value on all data. So among expressions with lambdas that are not linked, some evaluate
      on all data although the check in full does not accept them. */
  lemma UnreachedErrorEvaluates(path: string, member: string, p: string, q: string, name: string, data: Data)
    requires IsUnreached(path, member, p, q, name)
    ensures var text := TextOf(UnreachedTree(path, member, p, q, name));
            Validate(text).Valid? && !Readable(text) && Evaluate(text, data).Success?
  {
    hide CheckExpr, ReadExpr, Lex, ShowAt, Printable, Eval, IsFieldPath, IsIdentifier, Render;
    var ts := ShowAt(UnreachedTree(path, member, p, q, name), 0, []);
    UnreachedIsPrintable(path, member, p, q, name);
    LexRender(ts);
    SymbolsPlaced(ts, 0);
    UnreachedChecks(path, member, p, q, name);
    UnreachedIsRead(path, member, p, q, name);
    NoSuchMember(path, member);
    NothingToApply(path, member, p, q, Bad(Expected(Open, None)), data);
  }

  lemma NoSuchMember(path: string, member: string)
    requires IsFieldPath(path + "." + member) && IsIdentifier(member)
    ensures MemberOf(member) == PlainMember
  {
    hide MemberOf, WordOf;
    SplitMember(path, member);
    var names := Split(path + "." + member, '.');
    assert names[1..][|names| - 2] == member && names[1..][|names| - 2] in names[1..];
  }
}
