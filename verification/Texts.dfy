/** What the text of a tree looks like, construct by construct. */
module Texts {
  import opened Values
  import opened Tokenizer
  import opened Syntax
  import opened Printing

  // ----- Pieces of printed text -----

  lemma {:induction false} RenderAppend(ts: seq<Symbol>, us: seq<Symbol>)
    ensures Render(ts + us) == Render(ts) + Render(us)
  {
    hide Spell, Lead, Trail;
    if ts == [] {
      assert [] + us == us;
      NoPrefix(Render(us));
    } else {
      assert (ts + us)[1..] == ts[1..] + us;
      RenderAppend(ts[1..], us);
      var lead, spell, trail := Lead(ts[0]), Spell(ts[0]), Trail(ts[0]);
      Assoc(trail, Render(ts[1..]), Render(us));
      Assoc(spell, trail + Render(ts[1..]), Render(us));
      Assoc(lead, spell + (trail + Render(ts[1..])), Render(us));
    }
  }

  function Written(e: Expr, level: nat): string {
    Render(ShowAt(e, level, []))
  }

  lemma WrittenBefore(e: Expr, level: nat, after: seq<Symbol>)
    ensures Render(ShowAt(e, level, after)) == Written(e, level) + Render(after)
  {
    hide Render, ShowAt;
    ShowAppend(e, level, [], after);
    assert [] + after == after;
    RenderAppend(ShowAt(e, level, []), after);
  }

  /** An operand, in parentheses where they are needed. */
  function Operand(e: Expr, needed: bool): string {
    if needed then "(" + TextOf(e) + ")" else TextOf(e)
  }

  lemma RenderClose(after: seq<Symbol>)
    ensures Render([Close] + after) == ")" + Render(after)
  {
    RenderPlain(Close, after);
  }

  lemma RenderEmpty()
    ensures Render([]) == "" && Render([Close]) == ")"
  {
    RenderClose([]);
    assert [Close] + [] == [Close];
  }

  lemma WrittenIs(e: Expr, level: nat)
    ensures Written(e, level) == Operand(e, Level(e) < level)
  {
    hide Render, Show;
    if Level(e) < level {
      assert ShowAt(e, level, []) == [Open] + Show(e, [Close] + []);
      assert Show(e, [Close] + []) == ShowAt(e, 0, [Close] + []);
      RenderPlain(Open, Show(e, [Close] + []));
      WrittenBefore(e, 0, [Close] + []);
      RenderEmpty();
      assert [Close] + [] == [Close];
      Assoc("(", Written(e, 0), ")");
    } else {
      assert ShowAt(e, level, []) == ShowAt(e, 0, []);
    }
  }

  /** Implications, disjunctions, conjunctions and comparisons. */
  predicate IsBinary(e: Expr) {
    e.Implies? || e.Or? || e.And? || e.Compare?
  }

  lemma LevelsAre(e: Expr)
    ensures Level(e) < 1 <==> e.Implies?
    ensures Level(e) < 2 <==> e.Implies? || e.Or?
    ensures Level(e) < 3 <==> e.Implies? || e.Or? || e.And?
    ensures Level(e) < 4 <==> IsBinary(e)
    ensures Level(e) < 5 <==> IsBinary(e) || e.Not?
  {
  }

  // ----- Operators -----

  lemma RenderSpaced(s: Symbol, ts: seq<Symbol>)
    requires Spaced(s)
    ensures Render([s] + ts) == " " + ValueOf(s) + " " + Render(ts)
  {
    hide Render, ValueOf;
    RenderCons(s, ts);
    Assoc(ValueOf(s), " ", Render(ts));
    Assoc(" ", ValueOf(s) + " ", Render(ts));
    Assoc(" ", ValueOf(s), " ");
  }

  lemma PairText(e: Expr, a: Expr, k: nat, mid: Symbol, b: Expr, m: nat)
    requires Spaced(mid) && ShowAt(e, 0, []) == ShowAt(a, k, [mid] + ShowAt(b, m, []))
    ensures TextOf(e) == Operand(a, Level(a) < k) + (" " + ValueOf(mid) + " ") + Operand(b, Level(b) < m)
  {
    hide Render, ShowAt, ValueOf, Operand;
    WrittenBefore(a, k, [mid] + ShowAt(b, m, []));
    RenderSpaced(mid, ShowAt(b, m, []));
    WrittenIs(a, k);
    WrittenIs(b, m);
    Assoc(Written(a, k), " " + ValueOf(mid) + " ", Written(b, m));
  }

  lemma ImplicationText(a: Expr, b: Expr)
    ensures TextOf(Implies(a, b)) == Operand(a, a.Implies?) + " => " + Operand(b, b.Implies?)
  {
    hide Render, Show, Operand;
    LevelsAre(a);
    LevelsAre(b);
    PairShown(Implies(a, b));
    PairText(Implies(a, b), a, 1, Arrow, b, 1);
    assert " " + "=>" + " " == " => ";
  }

  lemma DisjunctionText(a: Expr, b: Expr)
    ensures TextOf(Or(a, b)) == Operand(a, a.Implies?) + " || " + Operand(b, b.Implies? || b.Or?)
  {
    hide Render, Show, Operand;
    LevelsAre(a);
    LevelsAre(b);
    PairShown(Or(a, b));
    PairText(Or(a, b), a, 1, Op(OrOp), b, 2);
    assert " " + "||" + " " == " || ";
  }

  lemma ConjunctionText(a: Expr, b: Expr)
    ensures TextOf(And(a, b))
         == Operand(a, a.Implies? || a.Or?) + " && " + Operand(b, b.Implies? || b.Or? || b.And?)
  {
    hide Render, Show, Operand;
    LevelsAre(a);
    LevelsAre(b);
    PairShown(And(a, b));
    PairText(And(a, b), a, 2, Op(AndOp), b, 3);
    assert " " + "&&" + " " == " && ";
  }

  lemma PairShown(e: Expr)
    ensures e.Implies? ==> ShowAt(e, 0, []) == ShowAt(e.left, 1, [Arrow] + ShowAt(e.right, 1, []))
    ensures e.Or? ==> ShowAt(e, 0, []) == ShowAt(e.left, 1, [Op(OrOp)] + ShowAt(e.right, 2, []))
    ensures e.And? ==> ShowAt(e, 0, []) == ShowAt(e.left, 2, [Op(AndOp)] + ShowAt(e.right, 3, []))
    ensures e.Compare? ==>
              ShowAt(e, 0, []) == ShowAt(e.left, 4, [Op(ComparisonOp(e.cmp))] + ShowAt(e.right, 4, []))
  {
  }

  lemma ComparisonText(cmp: Comparison, a: Expr, b: Expr)
    ensures var l, r := Operand(a, IsBinary(a)), Operand(b, IsBinary(b));
            TextOf(Compare(cmp, a, b)) ==
            match cmp
            case CmpEq => l + " == " + r
            case CmpNe => l + " != " + r
            case CmpLt => l + " < " + r
            case CmpGt => l + " > " + r
            case CmpLe => l + " <= " + r
            case CmpGe => l + " >= " + r
  {
    hide Render, Show, Operand;
    LevelsAre(a);
    LevelsAre(b);
    PairShown(Compare(cmp, a, b));
    PairText(Compare(cmp, a, b), a, 4, Op(ComparisonOp(cmp)), b, 4);
    assert " " + "==" + " " == " == " && " " + "!=" + " " == " != ";
    assert " " + "<" + " " == " < " && " " + ">" + " " == " > ";
    assert " " + "<=" + " " == " <= " && " " + ">=" + " " == " >= ";
  }

  lemma NegationText(a: Expr)
    ensures TextOf(Not(a)) == "!" + Operand(a, IsBinary(a))
  {
    hide Render, Operand;
    LevelsAre(a);
    WrittenIs(a, 4);
    assert ShowAt(Not(a), 0, []) == [Op(NotOp)] + ShowAt(a, 4, []);
    RenderPlain(Op(NotOp), ShowAt(a, 4, []));
  }

  // ----- Literals and fields -----

  /** A text as it is quoted: quotes and backslashes escaped with a backslash. */
  lemma QuotedText(v: string)
    ensures TextOf(TextLit(v)) == "'" + EscapeText(v) + "'"
  {
    hide Render, EscapeText;
    assert ShowAt(TextLit(v), 0, []) == [Text(v)] + [];
    RenderCons(Text(v), []);
    RenderEmpty();
    assert "" + "" == "" && Spell(Text(v)) + "" == Spell(Text(v)) && "" + Spell(Text(v)) == Spell(Text(v));
    assert ['\''] == "'";
  }

  lemma {:induction false} EscapeIs(v: string)
    ensures (forall i :: 0 <= i < |v| ==> v[i] != '\'' && v[i] != '\\') ==> EscapeText(v) == v
  {
    if v != "" {
      EscapeIs(v[1..]);
      assert [v[0]] + v[1..] == v;
    }
  }

  lemma RenderLast(s: Symbol)
    requires !Spaced(s) && !s.Comma? && !s.Text?
    ensures Render([s] + []) == ValueOf(s)
  {
    hide Render, ValueOf;
    RenderPlain(s, []);
    RenderEmpty();
    assert ValueOf(s) + "" == ValueOf(s);
  }

  lemma LiteralTexts(n: string)
    ensures TextOf(NumberLit(n)) == n
    ensures TextOf(NullLit) == "null" && TextOf(BoolLit(true)) == "true" && TextOf(BoolLit(false)) == "false"
  {
    hide Render;
    assert ShowAt(NumberLit(n), 0, []) == [Number(n)] + [];
    assert ShowAt(NullLit, 0, []) == [Ident("null")] + [];
    assert forall b :: ShowAt(BoolLit(b), 0, []) == [Ident(if b then "true" else "false")] + [];
    RenderLast(Number(n));
    RenderLast(Ident("null"));
    RenderLast(Ident("true"));
    RenderLast(Ident("false"));
  }

  lemma {:induction false} RenderParts(path: string, parts: seq<string>, after: seq<Symbol>)
    ensures path + Render(ShowParts(parts, after)) == Extend(path, parts) + Render(after)
    decreases |parts|
  {
    hide Render;
    if parts != [] {
      var rest := ShowParts(parts[1..], after);
      RenderPlain(Ident(parts[0]), rest);
      RenderPlain(Dot, [Ident(parts[0])] + rest);
      assert [Dot] + ([Ident(parts[0])] + rest) == ShowParts(parts, after);
      RenderParts(path + "." + parts[0], parts[1..], after);
      Assoc(".", parts[0], Render(rest));
      Assoc(path, "." + parts[0], Render(rest));
      Assoc(path, ".", parts[0]);
    }
  }

  lemma RenderPath(path: string, after: seq<Symbol>)
    ensures Render(ShowPath(path, after)) == path + Render(after)
  {
    hide Render, Split, ShowParts;
    var parts := Split(path, '.');
    RenderPlain(Ident(parts[0]), ShowParts(parts[1..], after));
    RenderParts(parts[0], parts[1..], after);
    ExtendSplit(path);
  }

  lemma FieldText(path: string)
    ensures TextOf(Field(path)) == path
  {
    hide Render, ShowPath;
    assert ShowAt(Field(path), 0, []) == ShowPath(path, []);
    RenderPath(path, []);
    RenderEmpty();
  }

  lemma LengthText(path: string)
    ensures TextOf(LengthOf(path)) == path + ".length"
  {
    hide Render, ShowPath;
    assert ShowAt(LengthOf(path), 0, []) == ShowPath(path, [Dot, Ident("length")] + []);
    RenderPath(path, [Dot, Ident("length")] + []);
    assert [Dot, Ident("length")] + [] == [Dot] + ([Ident("length")] + []);
    RenderPlain(Dot, [Ident("length")] + []);
    RenderLast(Ident("length"));
    assert "." + "length" == ".length";
  }

  // ----- Calls -----

  lemma RenderCall(name: string, ts: seq<Symbol>)
    ensures Render([Ident(name), Open] + ts) == name + "(" + Render(ts)
  {
    hide Render;
    RenderPlain(Open, ts);
    RenderPlain(Ident(name), [Open] + ts);
    assert [Ident(name)] + ([Open] + ts) == [Ident(name), Open] + ts;
    Assoc(name, "(", Render(ts));
  }

  /** A call of one argument, as it is printed. */
  lemma RenderOne(name: string, a: Expr, level: nat)
    ensures Render([Ident(name), Open] + ShowAt(a, level, [Close] + [])) == name + "(" + Written(a, level) + ")"
  {
    hide Render, ShowAt;
    RenderCall(name, ShowAt(a, level, [Close] + []));
    WrittenBefore(a, level, [Close] + []);
    RenderEmpty();
    assert [Close] + [] == [Close];
    Assoc(name + "(", Written(a, level), ")");
  }

  /** A call of two arguments, as it is printed. */
  lemma RenderTwo(name: string, a: Expr, b: Expr, level: nat)
    ensures Render([Ident(name), Open] + ShowAt(a, level, [Comma] + ShowAt(b, level, [Close] + [])))
         == name + "(" + Written(a, level) + ", " + Written(b, level) + ")"
  {
    hide Render, ShowAt;
    var second := ShowAt(b, level, [Close] + []);
    RenderCall(name, ShowAt(a, level, [Comma] + second));
    WrittenBefore(a, level, [Comma] + second);
    RenderComma(second);
    WrittenBefore(b, level, [Close] + []);
    RenderEmpty();
    assert [Close] + [] == [Close];
    var head, x, y := name + "(", Written(a, level), Written(b, level);
    Assoc(", ", y, ")");
    Assoc(x, ", " + y, ")");
    Assoc(x, ", ", y);
    Assoc(head, x + ", " + y, ")");
    Assoc(head, x + ", ", y);
    Assoc(head, x, ", ");
  }

  lemma CallShown(e: Expr)
    ensures e.LenCall? ==> ShowAt(e, 0, []) == [Ident("len"), Open] + ShowAt(e.arg, 0, [Close] + [])
    ensures e.SumList? ==> ShowAt(e, 0, []) == [Ident("bigint_sum"), Open] + ShowAt(e.list, 5, [Close] + [])
    ensures e.SumField? ==>
              ShowAt(e, 0, []) ==
              [Ident("bigint_sum"), Open] + ShowAt(e.list, 5, [Comma] + ShowAt(e.name, 5, [Close] + []))
    ensures e.Call? ==>
              ShowAt(e, 0, []) ==
              [Ident(FunctionName(e.f)), Open] + ShowAt(e.left, 0, [Comma] + ShowAt(e.right, 0, [Close] + []))
  {
    hide FunctionName;
  }

  lemma LenText(a: Expr)
    ensures TextOf(LenCall(a)) == "len(" + TextOf(a) + ")"
  {
    hide Render, ShowAt;
    CallShown(LenCall(a));
    RenderOne("len", a, 0);
    assert "len" + "(" == "len(";
  }

  lemma SumListText(a: Expr)
    ensures TextOf(SumList(a)) == "bigint_sum(" + Operand(a, IsBinary(a) || a.Not?) + ")"
  {
    hide Render, ShowAt, Operand;
    LevelsAre(a);
    WrittenIs(a, 5);
    CallShown(SumList(a));
    RenderOne("bigint_sum", a, 5);
    assert "bigint_sum" + "(" == "bigint_sum(";
  }

  lemma SumFieldText(a: Expr, b: Expr)
    ensures TextOf(SumField(a, b))
         == "bigint_sum(" + Operand(a, IsBinary(a) || a.Not?) + ", " + Operand(b, IsBinary(b) || b.Not?) + ")"
  {
    hide Render, ShowAt, Operand;
    LevelsAre(a);
    LevelsAre(b);
    WrittenIs(a, 5);
    WrittenIs(b, 5);
    CallShown(SumField(a, b));
    RenderTwo("bigint_sum", a, b, 5);
    assert "bigint_sum" + "(" == "bigint_sum(";
  }

  lemma CallText(f: TwoArguments, a: Expr, b: Expr)
    ensures var args := TextOf(a) + ", " + TextOf(b) + ")";
            TextOf(Call(f, a, b)) ==
            match f
            case BigintGte => "bigint_gte(" + args
            case BigintGt => "bigint_gt(" + args
            case BigintEq => "bigint_eq(" + args
            case BigintSub => "bigint_sub(" + args
            case BigintAdd => "bigint_add(" + args
            case StrictlyEqual => "eq(" + args
  {
    CallNames(f);
    CallTextAs(f, a, b);
  }

  lemma CallNames(f: TwoArguments)
    ensures FunctionName(f) + "(" ==
            match f
            case BigintGte => "bigint_gte("
            case BigintGt => "bigint_gt("
            case BigintEq => "bigint_eq("
            case BigintSub => "bigint_sub("
            case BigintAdd => "bigint_add("
            case StrictlyEqual => "eq("
  {
  }

  lemma CallTextAs(f: TwoArguments, a: Expr, b: Expr)
    ensures TextOf(Call(f, a, b)) == FunctionName(f) + "(" + (TextOf(a) + ", " + TextOf(b) + ")")
  {
    hide Render, ShowAt, FunctionName;
    CallShown(Call(f, a, b));
    RenderTwo(FunctionName(f), a, b, 0);
    var head := FunctionName(f) + "(";
    Assoc(head, TextOf(a), ", ");
    Assoc(head, TextOf(a) + ", ", TextOf(b));
    Assoc(head, TextOf(a) + ", " + TextOf(b), ")");
  }

  lemma TemporalText(op: TemporalOp, path: string)
    ensures TextOf(Temporal(op, path)) ==
            match op
            case Changed => "changed(" + path + ")"
            case Previous => "previous(" + path + ")"
            case Delta => "delta(" + path + ")"
  {
    hide Render, ShowPath;
    var inner := ShowPath(path, [Close] + []);
    assert ShowAt(Temporal(op, path), 0, []) == [Ident(TemporalName(op)), Open] + inner;
    RenderCall(TemporalName(op), inner);
    RenderPath(path, [Close] + []);
    RenderEmpty();
    assert [Close] + [] == [Close];
    Assoc(TemporalName(op) + "(", path, ")");
    assert "changed" + "(" == "changed(" && "previous" + "(" == "previous(" && "delta" + "(" == "delta(";
  }

  lemma EveryText(path: string, param: string, body: Expr)
    ensures TextOf(Every(path, param, body)) == path + ".every(" + param + " => " + TextOf(body) + ")"
  {
    hide Render, ShowAt, ShowPath;
    var inner := ShowAt(body, 0, [Close] + []);
    var lambda := [Dot, Ident("every"), Open, Ident(param), Arrow] + inner;
    assert ShowAt(Every(path, param, body), 0, []) == ShowPath(path, lambda) by {
      EveryShown(path, param, body);
    }
    RenderPath(path, lambda);
    RenderSpaced(Arrow, inner);
    RenderPlain(Ident(param), [Arrow] + inner);
    var call := [Ident(param)] + ([Arrow] + inner);
    RenderCall("every", call);
    RenderPlain(Dot, [Ident("every"), Open] + call);
    assert lambda == [Dot] + ([Ident("every"), Open] + call);
    WrittenBefore(body, 0, [Close] + []);
    RenderEmpty();
    assert [Close] + [] == [Close];
    EveryPieces(path, param, TextOf(body));
  }

  lemma EveryShown(path: string, param: string, body: Expr)
    ensures ShowAt(Every(path, param, body), 0, [])
         == ShowPath(path, [Dot, Ident("every"), Open, Ident(param), Arrow] + ShowAt(body, 0, [Close] + []))
  {
    hide ShowPath;
  }

  lemma EveryPieces(path: string, param: string, body: string)
    ensures path + ("." + ("every" + "(" + (param + (" " + "=>" + " " + (body + ")")))))
         == path + ".every(" + param + " => " + body + ")"
  {
    assert "." + ("every" + "(" + (param + (" " + "=>" + " " + (body + ")"))))
        == ".every(" + (param + (" => " + (body + ")")));
    Assoc(" => ", body, ")");
    Assoc(param, " => " + body, ")");
    Assoc(param, " => ", body);
    Assoc(".every(", param + " => " + body, ")");
    Assoc(".every(", param + " => ", body);
    Assoc(".every(", param, " => ");
    assert path + (".every(" + param + " => " + body + ")") == path + ".every(" + param + " => " + body + ")";
  }

  // ----- Array literals -----

  function ElemTexts(es: Elems): seq<string> {
    if es.NoElems? then [] else [TextOf(es.head)] + ElemTexts(es.tail)
  }

  lemma {:induction false} RenderElems(es: Elems, after: seq<Symbol>)
    ensures Render(ShowElems(es, after)) == Join(ElemTexts(es), ", ") + Render(after)
    decreases es
  {
    hide Render, Show;
    if es.NoElems? {
      NoPrefix(Render(after));
    } else {
      assert Show(es.head, after) == ShowAt(es.head, 0, after);
      if es.tail.NoElems? {
        WrittenBefore(es.head, 0, after);
        assert ElemTexts(es) == [TextOf(es.head)];
      } else {
        var rest := ShowElems(es.tail, after);
        assert Show(es.head, [Comma] + rest) == ShowAt(es.head, 0, [Comma] + rest);
        WrittenBefore(es.head, 0, [Comma] + rest);
        RenderComma(rest);
        RenderElems(es.tail, after);
        var others := Join(ElemTexts(es.tail), ", ");
        assert ElemTexts(es)[1..] == ElemTexts(es.tail);
        Assoc(", ", others, Render(after));
        Assoc(TextOf(es.head), ", " + others, Render(after));
        Assoc(TextOf(es.head), ", ", others);
      }
    }
  }

  lemma ArrayText(es: Elems)
    ensures TextOf(ArrayLit(es)) == "[" + Join(ElemTexts(es), ", ") + "]"
  {
    hide Render, ShowElems, Join;
    var inner := ShowElems(es, [BracketClose] + []);
    assert ShowAt(ArrayLit(es), 0, []) == [BracketOpen] + inner;
    RenderPlain(BracketOpen, inner);
    RenderElems(es, [BracketClose] + []);
    RenderLast(BracketClose);
    Assoc("[", Join(ElemTexts(es), ", "), "]");
  }
}
