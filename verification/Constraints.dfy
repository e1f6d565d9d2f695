/** Constraints that the library ships, and what they mean on the records they are written for. They are stated for any
    names that can stand for fields. */
module Constraints {
  import opened Results
  import opened Values
  import opened Tokenizer
  import opened Syntax
  import opened Evaluator
  import opened Printing
  import opened RoundTrip
  import opened Texts
  import opened Laws
  import opened BuiltinLaws

  /** A name that can stand for a field. */
  predicate IsName(name: string) {
    IsFieldPath(name) && '.' !in name
  }

  lemma FieldLaw(path: string, data: Data)
    requires IsFieldPath(path)
    ensures Sound(Field(path)) && TextOf(Field(path)) == path && ValueIn(Field(path), data) == Evaluate(path, data)
    ensures Evaluate(path, data).Success?
  {
    hide Evaluate, TextOf, IsFieldPath;
    LeafIsSound(Field(path));
    FieldText(path);
    FieldValue(path, data);
  }

  /** A name behind a name. */
  lemma MemberLaw(outer: string, inner: string, data: Data)
    requires IsName(outer) && IsName(inner) && IsFieldPath(outer + "." + inner)
    ensures Evaluate(outer + "." + inner, data) ==
            var v := Held(data, outer); Success(if v.Obj? then Held(v.fields, inner) else Undefined)
  {
    hide Evaluate, IsFieldPath;
    NameLaw(outer, data);
    PathLaw(outer, inner, data);
    var v := Held(data, outer);
    if v.Obj? {
      NameLaw(inner, v.fields);
    }
  }

  // ----- Trees that stay within the depth limit -----

  /** The tree has a text that raises the depth by `used`, and can be read from any depth up to `from`. */
  ghost predicate Roomy(e: Expr, used: nat, from: nat) {
    HasText(e) && Depth(e) == used && forall d: nat :: d <= from ==> Fits(e, d)
  }

  lemma RoomyIsSound(e: Expr, used: nat, from: nat)
    requires Roomy(e, used, from) && from >= 1
    ensures Sound(e)
  {
    hide HasText, Fits;
    assert Fits(e, 1);
    assert FitsAt(e, 0, 1);
  }

  lemma RoomyLeaf(e: Expr)
    requires HasText(e)
    requires e.NumberLit? || e.TextLit? || e.NullLit? || e.Field? || e.LengthOf? || e.Temporal?
    ensures Roomy(e, 0, 32)
  {
    hide HasText;
    forall d: nat ensures Fits(e, d) {
    }
  }

  lemma RoomyAt(e: Expr, used: nat, from: nat, level: nat)
    requires Roomy(e, used, from) && Level(e) >= level
    ensures DepthAt(e, level) == used && forall d: nat :: d <= from ==> FitsAt(e, level, d)
  {
    hide HasText;
    forall d: nat | d <= from ensures FitsAt(e, level, d) {
      assert Fits(e, d);
    }
  }

  lemma RoomyPair(e: Expr, m: nat, n: nat, from: nat)
    requires e.Compare? || e.And? || e.Or? || e.Implies?
    requires Roomy(e.left, m, from) && Roomy(e.right, n, from + m)
    requires e.Compare? ==> !IsBinary(e.left) && !IsBinary(e.right)
    requires e.And? ==> !e.left.Implies? && !e.left.Or? && (!IsBinary(e.right) || e.right.Compare?)
    requires e.Or? ==> !e.left.Implies? && !e.right.Implies? && !e.right.Or?
    requires e.Implies? ==> !e.left.Implies? && !e.right.Implies?
    ensures Roomy(e, m + n, from)
  {
    hide HasText, FitsAt, DepthAt;
    PairHasText(e.left, e.right);
    var k := if e.Compare? then 4 else if e.And? then 2 else 1;
    var l := if e.Compare? then 4 else if e.And? then 3 else if e.Or? then 2 else 1;
    if e.Compare? {
      ComparisonHasText(e.cmp, e.left, e.right);
    }
    RoomyAt(e.left, m, from, k);
    RoomyAt(e.right, n, from + m, l);
    forall d: nat | d <= from ensures Fits(e, d) {
      assert FitsAt(e.left, k, d) && FitsAt(e.right, l, d + m);
    }
  }

  lemma RoomyNot(a: Expr, m: nat, from: nat)
    requires Roomy(a, m, from) && !IsBinary(a)
    ensures Roomy(Not(a), m, from)
  {
    hide FitsAt, DepthAt, IsFieldPath, IsPath, IsNumeral, IsIdentifier, ElemsHaveText;
    RoomyAt(a, m, from, 4);
    forall d: nat | d <= from ensures Fits(Not(a), d) {
      assert FitsAt(a, 4, d);
    }
  }

  lemma RoomyColumn(path: string, name: string)
    requires IsFieldPath(path)
    ensures Roomy(SumField(Field(path), TextLit(name)), 0, 32)
  {
    hide FitsAt, DepthAt, IsFieldPath;
    var a, b := Field(path), TextLit(name);
    RoomyLeaf(a);
    RoomyLeaf(b);
    RoomyAt(a, 0, 32, 5);
    RoomyAt(b, 0, 32, 5);
    assert HasText(a) && HasText(b);
    forall d: nat | d <= 32 ensures Fits(SumField(a, b), d) {
      assert FitsAt(a, 5, d) && FitsAt(b, 5, d + 0);
    }
  }

  lemma RoomyCall(f: TwoArguments, a: Expr, b: Expr, m: nat, n: nat, from: nat)
    requires Roomy(a, m, from + 1) && Roomy(b, n, from + 2 + m) && from + 2 + m <= 32
    ensures Roomy(Call(f, a, b), 2 + m + n, from)
  {
    hide FitsAt, DepthAt, IsFieldPath, IsPath, IsNumeral, IsIdentifier, ElemsHaveText;
    RoomyAt(a, m, from + 1, 0);
    RoomyAt(b, n, from + 2 + m, 0);
    forall d: nat | d <= from ensures Fits(Call(f, a, b), d) {
      assert FitsAt(a, 0, d + 1) && FitsAt(b, 0, d + 1 + m + 1);
      assert FitsExpr(a, d) && FitsExpr(b, d + 1 + m);
    }
  }

  lemma RoomyEvery(path: string, param: string, body: Expr, n: nat, from: nat)
    requires IsFieldPath(path) && IsIdentifier(param) && Roomy(body, n, from + 1) && from + 1 <= 32
    ensures Roomy(Every(path, param, body), 0, from)
  {
    hide FitsAt, DepthAt, IsFieldPath, IsIdentifier;
    RoomyAt(body, n, from + 1, 0);
    forall d: nat | d <= from ensures Fits(Every(path, param, body), d) {
      assert FitsAt(body, 0, d + 1);
      assert FitsExpr(body, d);
    }
  }

  // ----- Dividends: `distribution != null => bigint_sum(distribution.recipients, 'share_bps') == 10000` -----

  function Shares(d: string, r: string, s: string): Expr {
    SumField(Field(d + "." + r), TextLit(s))
  }

  function DividendTree(d: string, r: string, s: string, total: string): Expr {
    Implies(Compare(CmpNe, Field(d), NullLit), Compare(CmpEq, Shares(d, r, s), NumberLit(total)))
  }

  lemma DividendIsSound(d: string, r: string, s: string, total: string)
    requires IsFieldPath(d) && IsFieldPath(d + "." + r) && IsNumeral(total)
    ensures Sound(DividendTree(d, r, s, total)) && Sound(Shares(d, r, s))
    ensures Sound(Compare(CmpNe, Field(d), NullLit)) && Sound(Compare(CmpNe, NullLit, Field(d)))
    ensures forall cmp :: Sound(Compare(cmp, Shares(d, r, s), NumberLit(total)))
  {
    hide IsFieldPath, IsNumeral, Roomy, Sound;
    RoomyLeaf(Field(d));
    RoomyLeaf(NullLit);
    RoomyLeaf(NumberLit(total));
    RoomyColumn(d + "." + r, s);
    RoomyPair(Compare(CmpNe, Field(d), NullLit), 0, 0, 32);
    RoomyPair(Compare(CmpNe, NullLit, Field(d)), 0, 0, 32);
    forall cmp ensures Roomy(Compare(cmp, Shares(d, r, s), NumberLit(total)), 0, 32) {
      RoomyPair(Compare(cmp, Shares(d, r, s), NumberLit(total)), 0, 0, 32);
    }
    RoomyPair(DividendTree(d, r, s, total), 0, 0, 32);
    RoomyIsSound(DividendTree(d, r, s, total), 0, 32);
    RoomyIsSound(Shares(d, r, s), 0, 32);
    RoomyIsSound(Compare(CmpNe, Field(d), NullLit), 0, 32);
    RoomyIsSound(Compare(CmpNe, NullLit, Field(d)), 0, 32);
    forall cmp { RoomyIsSound(Compare(cmp, Shares(d, r, s), NumberLit(total)), 0, 32); }
  }

  /** The text of the constraint, for these names and this total. */
  function DividendText(d: string, r: string, s: string, total: string): string {
    d + " != null => bigint_sum(" + d + "." + r + ", '" + s + "') == " + total
  }

  lemma DividendTextIs(d: string, r: string, s: string, total: string)
    requires '\'' !in s && '\\' !in s
    ensures TextOf(DividendTree(d, r, s, total)) == DividendText(d, r, s, total)
  {
    hide TextOf;
    var left, right := Compare(CmpNe, Field(d), NullLit), Compare(CmpEq, Shares(d, r, s), NumberLit(total));
    GuardText(d);
    SharesText(d, r, s, total);
    ImplicationText(left, right);
    DividendPieces(d, d + "." + r, s, total);
  }

  lemma GuardText(d: string)
    ensures TextOf(Compare(CmpNe, Field(d), NullLit)) == d + " != " + "null"
  {
    hide TextOf;
    FieldText(d);
    LiteralTexts("0");
    ComparisonText(CmpNe, Field(d), NullLit);
  }

  lemma SharesText(d: string, r: string, s: string, total: string)
    requires '\'' !in s && '\\' !in s
    ensures TextOf(Compare(CmpEq, Shares(d, r, s), NumberLit(total)))
         == "bigint_sum(" + (d + "." + r) + ", '" + s + "')" + " == " + total
  {
    hide TextOf;
    LiteralTexts(total);
    FieldText(d + "." + r);
    SumFieldTexts(Field(d + "." + r), s);
    ComparisonText(CmpEq, Shares(d, r, s), NumberLit(total));
  }

  lemma DividendPieces(d: string, path: string, s: string, total: string)
    ensures d + " != " + "null" + " => " + ("bigint_sum(" + path + ", '" + s + "')" + " == " + total)
         == d + " != null => bigint_sum(" + path + ", '" + s + "') == " + total
  {
    assert " != " + "null" + " => " + "bigint_sum(" == " != null => bigint_sum(";
    assert "')" + " == " == "') == ";
    Assoc(d, " != ", "null");
    Assoc(d, " != null", " => ");
    var tail := path + ", '" + s + "')" + " == " + total;
    assert "bigint_sum(" + path + ", '" + s + "')" + " == " + total == "bigint_sum(" + tail;
    assert d + " != null => bigint_sum(" + tail == d + " != null => bigint_sum(" + path + ", '" + s + "') == " + total;
  }

  /** Both sides of the constraint: whether there is a distribution, and whether the shares add up. */
  lemma DividendSides(d: string, r: string, s: string, total: string, data: Data, x: Value, sum: int)
    requires IsFieldPath(d) && IsFieldPath(d + "." + r) && total != "" && AllDigits(total)
    requires Evaluate(d, data) == Success(x)
    requires ValueIn(Shares(d, r, s), data) == Success(Big(sum))
    ensures IsNumeral(total)
    ensures ValueIn(Compare(CmpNe, Field(d), NullLit), data) == Success(Bool(x != Null && x != Undefined))
    ensures ValueIn(Compare(CmpEq, Shares(d, r, s), NumberLit(total)), data) == Success(Bool(sum == Decimal(total)))
  {
    hide Evaluate, TextOf, IsFieldPath, Decimal, Sound, Operand, Shares;
    NumeralTexts(total, "");
    DividendIsSound(d, r, s, total);
    FieldLaw(d, data);
    NullLaw(CmpNe, Field(d), data, x);
    NumberLaw(total, "", data);
    LiteralTexts(total);
    var n := Decimal(total) as real;
    assert n == n.Floor as real;
    ComparisonLaw(Shares(d, r, s), NumberLit(total), data, Big(sum), Num(n), sum as real < n, sum as real == n);
    ComparisonText(CmpEq, Shares(d, r, s), NumberLit(total));
  }

  lemma SharesIn(d: string, r: string, s: string, data: Data, y: Value, ns: seq<int>)
    requires IsFieldPath(d + "." + r) && Evaluate(d + "." + r, data) == Success(y)
    requires '\'' !in s && '\\' !in s && '.' !in s
    requires y.Arr? ==>
               && |y.elems| == |ns|
               && forall i :: 0 <= i < |ns| ==> !y.elems[i].Arr? && Denotes(HeldBy(y.elems[i], s), ns[i])
    ensures ValueIn(Shares(d, r, s), data) == Success(Big(if y.Arr? then Sum(ns) else 0))
  {
    hide Evaluate, TextOf, IsFieldPath, Denotes, Operand, Roomy, Sound;
    var a := Field(d + "." + r);
    FieldLaw(d + "." + r, data);
    RoomyColumn(d + "." + r, s);
    RoomyIsSound(Shares(d, r, s), 0, 32);
    SumFieldTexts(a, s);
    if y.Arr? {
      SumFieldLaw(a, s, data, y, ns);
    } else {
      NoColumnLaw(a, s, data, y);
    }
  }

  /** Without a distribution the constraint holds. With one whose recipients hold integers, or nothing, under the
      name of the share, it holds exactly if the shares add up to the total. */
  lemma DividendLaw(d: string, r: string, s: string, total: string, data: Data, ns: seq<int>)
    requires IsName(d) && IsName(r) && IsFieldPath(d + "." + r) && total != "" && AllDigits(total)
    requires '\'' !in s && '\\' !in s && '.' !in s
    ensures Held(data, d) == Null || Held(data, d) == Undefined ==>
              Evaluate(DividendText(d, r, s, total), data) == Success(Bool(true))
    ensures Held(data, d).Obj? && Held(Held(data, d).fields, r).Arr? ==>
              var items := Held(Held(data, d).fields, r).elems;
              |items| == |ns|
              && (forall i :: 0 <= i < |ns| ==> !items[i].Arr? && Denotes(HeldBy(items[i], s), ns[i])) ==>
                Evaluate(DividendText(d, r, s, total), data) == Success(Bool(Sum(ns) == Decimal(total)))
  {
    hide Evaluate, TextOf, IsFieldPath, Denotes, Operand, Sound, Shares, DividendText, Decimal;
    var x := Held(data, d);
    var y := if x.Obj? then Held(x.fields, r) else Undefined;
    NameLaw(d, data);
    MemberLaw(d, r, data);
    NumeralTexts(total, "");
    DividendIsSound(d, r, s, total);
    DividendTextIs(d, r, s, total);
    var left, right := Compare(CmpNe, Field(d), NullLit), Compare(CmpEq, Shares(d, r, s), NumberLit(total));
    if !y.Arr? || (|y.elems| == |ns|
        && forall i :: 0 <= i < |ns| ==> !y.elems[i].Arr? && Denotes(HeldBy(y.elems[i], s), ns[i])) {
      SharesIn(d, r, s, data, y, ns);
      DividendSides(d, r, s, total, data, x, if y.Arr? then Sum(ns) else 0);
      ImplicationLaw(left, right, data);
      ImplicationText(left, right);
    }
  }

  // ----- Transfers: `bigint_eq(bigint_sub(sender.pre_balance_micro, amount_micro), sender.post_balance_micro)` -----

  /** On integers, the constraint holds exactly if the balance after is the one before less the amount. */
  lemma TransferLaw(before: string, amount: string, after: string, data: Data, x: Value, y: Value, z: Value,
                    m: int, n: int, k: int)
    requires IsFieldPath(before) && IsFieldPath(amount) && IsFieldPath(after)
    requires Evaluate(before, data) == Success(x) && Evaluate(amount, data) == Success(y)
    requires Evaluate(after, data) == Success(z) && Denotes(x, m) && Denotes(y, n) && Denotes(z, k)
    ensures Evaluate("bigint_eq(" + ("bigint_sub(" + (before + ", " + amount + ")") + ", " + after + ")"), data)
         == Success(Bool(m - n == k))
  {
    hide Evaluate, TextOf, IsFieldPath, Denotes, Roomy, Sound, IntText;
    var a, b, c := Field(before), Field(amount), Field(after);
    FieldLaw(before, data);
    FieldLaw(amount, data);
    FieldLaw(after, data);
    RoomyLeaf(a);
    RoomyLeaf(b);
    RoomyLeaf(c);
    RoomyFrom(c, 0, 32, 28);
    forall f ensures Sound(Call(f, a, b)) && Roomy(Call(f, a, b), 2, 30) {
      RoomyFrom(a, 0, 32, 31);
      RoomyCall(f, a, b, 0, 0, 30);
      RoomyIsSound(Call(f, a, b), 2, 30);
    }
    BigintLaw(a, b, data, x, y, m, n);
    CallText(BigintSub, a, b);
    var difference := Call(BigintSub, a, b);
    forall f ensures Sound(Call(f, difference, c)) {
      RoomyFrom(difference, 2, 30, 25);
      RoomyCall(f, difference, c, 2, 0, 24);
      RoomyIsSound(Call(f, difference, c), 4, 24);
    }
    IntTextIs(m - n);
    assert Denotes(Str(IntText(m - n)), m - n) by { SpelledDenotes(IntText(m - n), m - n); }
    BigintLaw(difference, c, data, Str(IntText(m - n)), z, m - n, k);
  }

  lemma SpelledDenotes(s: string, n: int)
    requires Spells(s, n)
    ensures Denotes(Str(s), n)
  {
  }

  lemma RoomyFrom(e: Expr, used: nat, from: nat, less: nat)
    requires Roomy(e, used, from) && less <= from
    ensures Roomy(e, used, less)
  {
    hide HasText;
  }

  // ----- Sagas: `_previous == null || !changed(step) || delta(step) > 0 || direction == 'compensation'` -----

  lemma PreviousIsAName()
    ensures IsName("_previous")
  {
    hide Split, WordOf;
    SplitWhole("_previous", '.');
    assert [("_previous")][1..] == [];
    NoWordStartsSo("_previous");
  }

  lemma NoWordStartsSo(name: string)
    requires name != "" && name[0] == '_'
    ensures WordOf(name) == FieldName
  {
    hide UNMODELLED_BUILTINS;
    NoBuiltinStartsSo();
    Differ(name, "null");
    Differ(name, "true");
    Differ(name, "false");
    Differ(name, "eq");
    Differ(name, "len");
    Differ(name, "changed");
    Differ(name, "previous");
    Differ(name, "delta");
    Differ(name, "bigint_sum");
    Differ(name, "bigint_gte");
    Differ(name, "bigint_gt");
    Differ(name, "bigint_eq");
    Differ(name, "bigint_sub");
    Differ(name, "bigint_add");
  }

  lemma Differ(s: string, t: string)
    requires s != "" && t != "" && s[0] != t[0]
    ensures s != t
  {
  }

  lemma NoBuiltinStartsSo()
    ensures forall name :: name in UNMODELLED_BUILTINS ==> name != "" && name[0] != '_'
  {
  }

  function SagaTree(step: string, direction: string, w: string): Expr {
    Or(Or(Or(Compare(CmpEq, Field("_previous"), NullLit), Not(Temporal(Changed, step))),
          Compare(CmpGt, Temporal(Delta, step), NumberLit("0"))),
       Compare(CmpEq, Field(direction), TextLit(w)))
  }

  function SagaText(step: string, direction: string, w: string): string {
    "_previous == null || !changed(" + step + ") || delta(" + step + ") > 0 || " + direction + " == '" + w + "'"
  }

  lemma SagaTextIs(step: string, direction: string, w: string)
    requires '\'' !in w && '\\' !in w
    ensures TextOf(SagaTree(step, direction, w)) == SagaText(step, direction, w)
  {
    hide TextOf, EscapeText;
    var a, b := Compare(CmpEq, Field("_previous"), NullLit), Not(Temporal(Changed, step));
    var c := Compare(CmpGt, Temporal(Delta, step), NumberLit("0"));
    var d := Compare(CmpEq, Field(direction), TextLit(w));
    FieldText("_previous");
    FieldText(direction);
    LiteralTexts("0");
    EscapeIs(w);
    QuotedText(w);
    TemporalText(Changed, step);
    TemporalText(Delta, step);
    NegationText(Temporal(Changed, step));
    ComparisonText(CmpEq, Field("_previous"), NullLit);
    ComparisonText(CmpGt, Temporal(Delta, step), NumberLit("0"));
    ComparisonText(CmpEq, Field(direction), TextLit(w));
    DisjunctionText(a, b);
    DisjunctionText(Or(a, b), c);
    DisjunctionText(Or(Or(a, b), c), d);
    SagaPieces(step, direction, w);
  }

  lemma SagaPieces(step: string, direction: string, w: string)
    ensures "_previous" + " == " + "null" + " || " + ("!" + ("changed(" + step + ")")) + " || "
            + ("delta(" + step + ")" + " > " + "0") + " || " + (direction + " == " + ("'" + w + "'"))
         == SagaText(step, direction, w)
  {
    assert "_previous" + " == " + "null" + " || " == "_previous == null || ";
    var head := "_previous == null || " + ("!" + ("changed(" + step + ")"));
    assert head == "_previous == null || !changed(" + step + ")";
    var next := "delta(" + step + ")" + " > " + "0";
    assert next == "delta(" + step + ") > 0";
    var last := direction + " == " + ("'" + w + "'");
    assert last == direction + " == '" + w + "'";
    assert head + " || " + next == "_previous == null || !changed(" + step + ") || delta(" + step + ") > 0";
    assert head + " || " + next + " || " + last
        == "_previous == null || !changed(" + step + ") || delta(" + step + ") > 0 || " + last;
  }

  lemma SagaIsSound(step: string, direction: string, w: string)
    requires IsName(step) && IsName(direction)
    ensures var a, b := Compare(CmpEq, Field("_previous"), NullLit), Not(Temporal(Changed, step));
            var c := Compare(CmpGt, Temporal(Delta, step), NumberLit("0"));
            var d := Compare(CmpEq, Field(direction), TextLit(w));
            && Sound(a) && Sound(Compare(CmpEq, NullLit, Field("_previous"))) && Sound(b)
            && Sound(Or(a, b)) && Sound(Or(Or(a, b), c)) && Sound(Or(Or(Or(a, b), c), d))
            && (forall cmp :: Sound(Compare(cmp, Temporal(Delta, step), NumberLit("0"))))
            && forall cmp :: Sound(Compare(cmp, Field(direction), TextLit(w)))
  {
    hide IsFieldPath, IsPath, Roomy, Sound;
    PreviousIsAName();
    var p, n, zero, text := Field("_previous"), NullLit, NumberLit("0"), TextLit(w);
    var changed, delta, dir := Temporal(Changed, step), Temporal(Delta, step), Field(direction);
    RoomyLeaf(p);
    RoomyLeaf(n);
    RoomyLeaf(zero);
    RoomyLeaf(text);
    TemporalHasText(step);
    RoomyLeaf(changed);
    RoomyLeaf(delta);
    RoomyLeaf(dir);
    var a, b := Compare(CmpEq, p, n), Not(changed);
    var c, d := Compare(CmpGt, delta, zero), Compare(CmpEq, dir, text);
    RoomyPair(a, 0, 0, 32);
    RoomyPair(Compare(CmpEq, n, p), 0, 0, 32);
    RoomyNot(changed, 0, 32);
    forall cmp ensures Roomy(Compare(cmp, delta, zero), 0, 32) { RoomyPair(Compare(cmp, delta, zero), 0, 0, 32); }
    forall cmp ensures Roomy(Compare(cmp, dir, text), 0, 32) { RoomyPair(Compare(cmp, dir, text), 0, 0, 32); }
    RoomyPair(Or(a, b), 0, 0, 32);
    RoomyPair(Or(Or(a, b), c), 0, 0, 32);
    RoomyPair(Or(Or(Or(a, b), c), d), 0, 0, 32);
    RoomyIsSound(a, 0, 32);
    RoomyIsSound(Compare(CmpEq, n, p), 0, 32);
    RoomyIsSound(b, 0, 32);
    forall cmp { RoomyIsSound(Compare(cmp, delta, zero), 0, 32); }
    forall cmp { RoomyIsSound(Compare(cmp, dir, text), 0, 32); }
    RoomyIsSound(Or(a, b), 0, 32);
    RoomyIsSound(Or(Or(a, b), c), 0, 32);
    RoomyIsSound(Or(Or(Or(a, b), c), d), 0, 32);
  }

  lemma TemporalHasText(step: string)
    requires IsName(step)
    ensures IsPath(step) && HasText(Temporal(Changed, step)) && HasText(Temporal(Delta, step))
  {
    hide IsPath;
  }

  /** What the four alternatives amount to. */
  lemma SagaSides(step: string, direction: string, w: string, data: Data, x: Value, changed: bool, grown: int,
                  v: string)
    requires IsName(step) && IsName(direction) && '\'' !in w && '\\' !in w
    requires Held(data, "_previous") == x && Held(data, direction) == Str(v)
    requires Evaluate("changed(" + step + ")", data) == Success(Bool(changed))
    requires Evaluate("delta(" + step + ")", data) == Success(Big(grown))
    ensures var a, b := Compare(CmpEq, Field("_previous"), NullLit), Not(Temporal(Changed, step));
            var c := Compare(CmpGt, Temporal(Delta, step), NumberLit("0"));
            var d := Compare(CmpEq, Field(direction), TextLit(w));
            && ValueIn(a, data) == Success(Bool(x == Null || x == Undefined))
            && ValueIn(b, data) == Success(Bool(!changed))
            && ValueIn(c, data) == Success(Bool(grown > 0))
            && ValueIn(d, data) == Success(Bool(v == w))
  {
    hide Evaluate, TextOf, IsFieldPath, Sound, Operand, EscapeText, UnitsLess, CodeUnits;
    SagaIsSound(step, direction, w);
    PreviousIsAName();
    FieldLaw("_previous", data);
    NameLaw("_previous", data);
    NullLaw(CmpEq, Field("_previous"), data, x);
    TemporalText(Changed, step);
    TemporalText(Delta, step);
    NegationLaw(Temporal(Changed, step), data);
    NegationText(Temporal(Changed, step));
    NumberLaw("0", "", data);
    LiteralTexts("0");
    ZeroIsZero();
    var zero := 0.0;
    assert zero == zero.Floor as real;
    ComparisonLaw(Temporal(Delta, step), NumberLit("0"), data, Big(grown), Num(0.0), grown < 0, grown == 0);
    ComparisonText(CmpGt, Temporal(Delta, step), NumberLit("0"));
    FieldLaw(direction, data);
    NameLaw(direction, data);
    EscapeIs(w);
    QuotedText(w);
    TextLaw(w, data);
    ComparisonLaw(Field(direction), TextLit(w), data, Str(v), Str(w), UnitsLess(CodeUnits(v), CodeUnits(w)), v == w);
    ComparisonText(CmpEq, Field(direction), TextLit(w));
  }

  lemma ZeroIsZero()
    ensures AllDigits("0") && Decimal("0") == 0
  {
    DecimalIs("", '0');
    assert "" + ['0'] == "0";
  }

  lemma SagaValue(step: string, direction: string, w: string, data: Data, x: Value, changed: bool, grown: int,
                  v: string)
    requires IsName(step) && IsName(direction) && '\'' !in w && '\\' !in w
    requires Held(data, "_previous") == x && Held(data, direction) == Str(v)
    requires Evaluate("changed(" + step + ")", data) == Success(Bool(changed))
    requires Evaluate("delta(" + step + ")", data) == Success(Big(grown))
    ensures Evaluate(SagaText(step, direction, w), data)
         == Success(Bool(x == Null || x == Undefined || !changed || grown > 0 || v == w))
  {
    hide Evaluate, TextOf, IsFieldPath, Sound, Operand, SagaText;
    var a, b := Compare(CmpEq, Field("_previous"), NullLit), Not(Temporal(Changed, step));
    var c := Compare(CmpGt, Temporal(Delta, step), NumberLit("0"));
    var d := Compare(CmpEq, Field(direction), TextLit(w));
    SagaIsSound(step, direction, w);
    SagaSides(step, direction, w, data, x, changed, grown, v);
    SagaTextIs(step, direction, w);
    DisjunctionLaw(a, b, data);
    DisjunctionText(a, b);
    DisjunctionLaw(Or(a, b), c, data);
    DisjunctionText(Or(a, b), c);
    DisjunctionLaw(Or(Or(a, b), c), d, data);
    DisjunctionText(Or(Or(a, b), c), d);
  }

  /** A saga holds without a record before. With one, and integer steps, it holds exactly if the step is the same, has
      grown, or goes the given way. */
  lemma SagaLaw(step: string, direction: string, w: string, data: Data, m: int, n: int, v: string)
    requires IsName(step) && IsName(direction) && '\'' !in w && '\\' !in w && Held(data, direction) == Str(v)
    ensures Held(data, "_previous").IsNullish() ==>
              Evaluate(SagaText(step, direction, w), data) == Success(Bool(true))
    ensures Held(data, "_previous").Obj? ==>
              var now, was := Held(data, step), Held(data["_previous"].fields, step);
              Denotes(now, m) && Denotes(was, n) ==>
                Evaluate(SagaText(step, direction, w), data) == Success(Bool(Identical(now, was) || m > n || v == w))
  {
    hide Evaluate, TextOf, IsFieldPath, IsPath, Denotes, SagaText;
    TemporalHasText(step);
    var x := Held(data, "_previous");
    if x.IsNullish() {
      NothingBeforeLaw(step, data);
      SagaValue(step, direction, w, data, x, false, 0, v);
    } else if x.Obj? {
      var now, was := Held(data, step), Held(x.fields, step);
      if Denotes(now, m) && Denotes(was, n) {
        TemporalLaw(step, data, x.fields, m, n);
        SagaValue(step, direction, w, data, x, !Identical(now, was), m - n, v);
      }
    }
  }
}
