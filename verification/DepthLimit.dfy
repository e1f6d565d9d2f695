/** How deep expressions may be nested: a name inside pairs of parentheses. */
module DepthLimit {
  import opened Results
  import opened Values
  import opened Tokenizer
  import opened Syntax
  import opened Semantics
  import opened Evaluator
  import opened RoundTrip
  import opened Grammar
  import opened Texts
  import opened Breakdown

  /** The name inside `n` pairs of parentheses. */
  function Parens(n: nat, name: string): string {
    if n == 0 then name else "(" + Parens(n - 1, name) + ")"
  }

  /** The same in symbols, in front of others. */
  function Wrapped(n: nat, name: string, after: seq<Symbol>): seq<Symbol> {
    if n == 0 then [Ident(name)] + after else [Open] + Wrapped(n - 1, name, [Close] + after)
  }

  lemma {:induction false} WrappedText(n: nat, name: string, after: seq<Symbol>)
    ensures Render(Wrapped(n, name, after)) == Parens(n, name) + Render(after)
  {
    hide Render;
    if n == 0 {
      RenderPlain(Ident(name), after);
    } else {
      RenderPlain(Open, Wrapped(n - 1, name, [Close] + after));
      WrappedText(n - 1, name, [Close] + after);
      RenderClose(after);
      Assoc(Parens(n - 1, name), ")", Render(after));
      Assoc("(", Parens(n - 1, name) + ")", Render(after));
      Assoc("(", Parens(n - 1, name), ")");
    }
  }

  lemma {:induction false} WrappedIsPrintable(n: nat, name: string, after: seq<Symbol>)
    requires IsIdentifier(name) && Printable(after) && Clear(after)
    ensures Printable(Wrapped(n, name, after))
  {
    hide IsIdentifier, Printable;
    if n == 0 {
      PrintableFirst(Ident(name), after);
    } else {
      PrintableFirst(Close, after);
      WrappedIsPrintable(n - 1, name, [Close] + after);
      PrintableFirst(Open, Wrapped(n - 1, name, [Close] + after));
    }
  }

  /** The first `n` symbols are as wide as they are many. */
  lemma {:induction false} WrappedPlaces(n: nat, name: string, after: seq<Symbol>, off: nat, k: nat)
    requires k <= n
    ensures |Wrapped(n, name, after)| > k
    ensures var tokens := Placed(Wrapped(n, name, after), off); |tokens| > k && tokens[k].pos == off + k
  {
    var ts := Wrapped(n, name, after);
    if n > 0 {
      assert ts[1..] == Wrapped(n - 1, name, [Close] + after);
      if k > 0 {
        WrappedPlaces(n - 1, name, [Close] + after, off + 1, k - 1);
        assert Placed(ts, off)[k] == Placed(ts[1..], off + 1)[k - 1];
      }
    }
  }

  predicate EndsThere(after: seq<Symbol>) {
    after == [] || after[0] == Close
  }

  lemma OneOperand(ts: seq<Symbol>, d: nat)
    requires ts != [] && !ts[0].Op? && d + 1 <= MAX_EXPRESSION_DEPTH
    ensures var r := ReadPrimary(ts, d + 1); r.Ok? && EndsThere(r.rest) ==> ReadExpr(ts, d) == r
    ensures var c := CheckPrimary(ts, d + 1, false);
            c.Accept? && EndsThere(c.rest) ==> CheckExpr(ts, d, false) == Entered(c)
  {
    hide ReadPrimary, CheckPrimary;
    var r, c := ReadPrimary(ts, d + 1), CheckPrimary(ts, d + 1, false);
    if r.Ok? && EndsThere(r.rest) {
      assert ReadComparison(ts, d + 1) == r;
      assert ReadAnd(ts, d + 1) == r;
      assert ReadOr(ts, d + 1) == r;
    }
    if c.Accept? && EndsThere(c.rest) {
      CheckOperand(ts, d, false);
    }
  }

  lemma NamePrimary(name: string, after: seq<Symbol>, d: nat)
    requires WordOf(name) == FieldName && EndsThere(after)
    ensures ReadPrimary([Ident(name)] + after, d) == Ok(Field(name), after, d)
    ensures CheckPrimary([Ident(name)] + after, d, false) == Free(after)
  {
    hide WordOf;
    var ts := [Ident(name)] + after;
    assert ts[1..] == after;
    assert ReadField(ts, d) == Ok(Field(name), after, d);
    assert CheckField(ts, d, false, false) == Free(after);
    hide ReadField, CheckField;
    assert ReadPrimary(ts, d) == ReadField(ts, d);
  }

  lemma ParensPrimary(ts: seq<Symbol>, after: seq<Symbol>, d: nat)
    ensures var r := ReadExpr(ts, d);
            && (r.Ok? && r.rest == [Close] + after ==> ReadPrimary([Open] + ts, d) == Ok(r.t, after, r.depth))
            && (r.Err? ==> ReadPrimary([Open] + ts, d) == r)
    ensures var c := CheckExpr(ts, d, false);
            && (c.Accept? && c.rest == [Close] + after ==>
                  CheckPrimary([Open] + ts, d, false) == Accept(after, c.spent, c.peak))
            && (c.Reject? ==> CheckPrimary([Open] + ts, d, false) == c)
  {
    hide ReadExpr, CheckExpr;
    assert ([Open] + ts)[1..] == ts && ([Close] + after)[1..] == after;
  }

  /** Both parsers enter an expression once for each pair of parentheses, and once for the whole; they stop in front of
      the symbol at which they would enter one too many. */
  lemma {:induction false} WrappedIsRead(n: nat, name: string, after: seq<Symbol>, d: nat)
    requires WordOf(name) == FieldName && EndsThere(after) && d <= MAX_EXPRESSION_DEPTH
    ensures var ts, left := Wrapped(n, name, after), MAX_EXPRESSION_DEPTH - d;
            if n < left then
              && ReadExpr(ts, d) == Ok(Field(name), after, d + n + 1)
              && var c := CheckExpr(ts, d, false); c.Accept? && c.rest == after
            else
              && ReadExpr(ts, d) == Err(Bad(DepthExceeded))
              && CheckExpr(ts, d, false).Reject?
              && CheckExpr(ts, d, false).error == DepthExceeded
              && |CheckExpr(ts, d, false).rest| == |ts| - left
    decreases n
  {
    hide ReadExpr, CheckExpr, ReadPrimary, CheckPrimary, WordOf;
    var ts := Wrapped(n, name, after);
    if d == MAX_EXPRESSION_DEPTH {
      TooDeep(ts);
    } else if n == 0 {
      NamePrimary(name, after, d + 1);
      OneOperand(ts, d);
    } else {
      var inner := Wrapped(n - 1, name, [Close] + after);
      WrappedIsRead(n - 1, name, [Close] + after, d + 1);
      ParensPrimary(inner, after, d + 1);
      OneOperand(ts, d);
      NoOperand(ts, d);
    }
  }

  lemma TooDeep(ts: seq<Symbol>)
    ensures ReadExpr(ts, MAX_EXPRESSION_DEPTH) == Err(Bad(DepthExceeded))
    ensures CheckExpr(ts, MAX_EXPRESSION_DEPTH, false) == Reject(DepthExceeded, ts)
  {
    hide ReadOr, CheckOr;
  }

  /** Up to 31 pairs of parentheses mean nothing to either parser; with more, both report the depth limit, the validator
      at the 33rd symbol. */
  lemma NestingLimit(n: nat, name: string, data: Data)
    requires IsIdentifier(name) && WordOf(name) == FieldName
    ensures n <= 31 ==>
              && Validate(Parens(n, name)) == Valid
              && Evaluate(Parens(n, name), data) == Success(Held(data, name))
    ensures n >= 32 ==>
              && Validate(Parens(n, name)) == Invalid(Syntactic(DepthExceeded), 32)
              && Evaluate(Parens(n, name), data) == Failure(Syntactic(DepthExceeded))
  {
    hide ReadExpr, CheckExpr, Evaluate, Validate, Render, Placed, WordOf, IsIdentifier;
    var ts := Wrapped(n, name, []);
    WrappedText(n, name, []);
    RenderEmpty();
    assert Parens(n, name) + "" == Parens(n, name);
    WrappedIsPrintable(n, name, []);
    OnSymbols(ts, data);
    WrappedIsRead(n, name, [], 0);
    if n <= 31 {
      NameIsHeld(name, data);
    } else {
      WrappedPlaces(n, name, [], 0, 32);
      assert Eval(Bad(DepthExceeded), data) == Failure(DepthExceeded);
    }
  }

  lemma NameIsHeld(name: string, data: Data)
    requires IsIdentifier(name)
    ensures Eval(Field(name), data) == Success(Held(data, name))
  {
    hide Split;
    assert '.' !in name;
    SplitWhole(name, '.');
    assert [name][1..] == [];
    assert Resolve(Obj(Fresh, data), [name]) == Resolve(Prop(Obj(Fresh, data), name), []);
  }
}
