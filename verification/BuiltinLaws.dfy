/** What literals, fields, calls and quantifiers mean, said of their texts and of the values of their arguments. */
module BuiltinLaws {
  import opened Results
  import opened Values
  import opened Tokenizer
  import opened Syntax
  import opened Semantics
  import opened Evaluator
  import opened Printing
  import opened Texts
  import opened Laws

  // ----- Literals -----

  lemma LeafIsSound(e: Expr)
    requires HasText(e)
    requires e.NumberLit? || e.TextLit? || e.NullLit? || e.BoolLit? || e.Field? || e.LengthOf? || e.Temporal?
    ensures Sound(e)
  {
    assert FitsAt(e, 0, 1);
  }

  lemma WordsLaw(data: Data)
    ensures Evaluate("null", data) == Success(Null)
    ensures Evaluate("true", data) == Success(Bool(true)) && Evaluate("false", data) == Success(Bool(false))
  {
    hide Evaluate, TextOf, FitsExpr;
    LiteralTexts("");
    LeafIsSound(NullLit);
    LeafIsSound(BoolLit(true));
    LeafIsSound(BoolLit(false));
    ValueIs(NullLit, data);
    ValueIs(BoolLit(true), data);
    ValueIs(BoolLit(false), data);
  }

  /** A quoted text without quotes or backslashes stands for itself. */
  lemma TextLaw(v: string, data: Data)
    requires '\'' !in v && '\\' !in v
    ensures Evaluate("'" + v + "'", data) == Success(Str(v))
  {
    hide Evaluate, TextOf, FitsExpr, EscapeText;
    EscapeIs(v);
    QuotedText(v);
    LeafIsSound(TextLit(v));
    ValueIs(TextLit(v), data);
  }

  lemma WholeIsRead(w: string)
    requires AllDigits(w)
    ensures ParseFloat(w) == Decimal(w) as real
  {
    hide Decimal;
    assert w[..|w|] == w && w + "" == w;
    RunOf(w, "", IsDigit);
  }

  lemma {:induction false} RealProduct(a: nat, b: nat)
    ensures (a * b) as real == a as real * b as real
  {
    if b > 0 {
      RealProduct(a, b - 1);
      assert a * b == a * (b - 1) + a;
      assert a as real * b as real == a as real * (b - 1) as real + a as real;
    }
  }

  lemma WholeAndFraction(a: nat, b: nat, p: nat)
    requires p > 0
    ensures (a as real + b as real / p as real) * p as real == (a * p + b) as real
  {
    RealProduct(a, p);
    var q := b as real / p as real;
    assert q * p as real == b as real;
    assert (a as real + q) * p as real == a as real * p as real + q * p as real;
  }

  lemma PartsAreRead(w: string, f: string)
    requires AllDigits(w) && AllDigits(f)
    ensures ParseFloat(w + "." + f) == Decimal(w) as real + Decimal(f) as real / Pow10(|f|) as real
  {
    hide Decimal, Pow10;
    var text := w + "." + f;
    assert text == w + ("." + f) && text[..|w|] == w && text[|w| + 1..] == f;
    RunOf(w, "." + f, IsDigit);
    assert f + "" == f && f[..|f|] == f;
    RunOf(f, "", IsDigit);
  }

  /** What is read of a number: its digits without the dot, divided by ten as often as there are digits behind it. */
  lemma DecimalIsRead(w: string, f: string)
    requires AllDigits(w) && AllDigits(f)
    ensures AllDigits(w + f) && ParseFloat(w + "." + f) * (Pow10(|f|) as real) == Decimal(w + f) as real
  {
    hide Decimal, Pow10, ParseFloat;
    PartsAreRead(w, f);
    DecimalAppend(w, f);
    WholeAndFraction(Decimal(w), Decimal(f), Pow10(|f|));
  }

  lemma NumeralTexts(w: string, f: string)
    requires w != "" && AllDigits(w) && AllDigits(f)
    ensures IsNumeral(w) && IsNumeral(w + "." + f)
  {
    assert (w + "." + f)[0] == w[0];
  }

  lemma NumeralValue(n: string, data: Data)
    requires IsNumeral(n)
    ensures Evaluate(n, data) == Success(Num(ParseFloat(n)))
  {
    hide Evaluate, TextOf, FitsExpr, ParseFloat, IsNumeral;
    LiteralTexts(n);
    LeafIsSound(NumberLit(n));
    ValueIs(NumberLit(n), data);
  }

  /** Digits stand for the number they spell, and digits behind a dot for as many tenths of tenths. */
  lemma NumberLaw(w: string, f: string, data: Data)
    requires w != "" && AllDigits(w) && AllDigits(f)
    ensures Evaluate(w, data) == Success(Num(Decimal(w) as real))
    ensures AllDigits(w + f)
    ensures var r := Evaluate(w + "." + f, data);
            r.Success? && r.value.Num? && r.value.r * (Pow10(|f|) as real) == Decimal(w + f) as real
  {
    hide Evaluate, ParseFloat, Decimal, IsNumeral, Pow10;
    NumeralTexts(w, f);
    NumeralValue(w, data);
    NumeralValue(w + "." + f, data);
    WholeIsRead(w);
    DecimalIsRead(w, f);
  }

  // ----- Fields -----

  lemma FieldValue(path: string, data: Data)
    requires IsFieldPath(path)
    ensures Evaluate(path, data) == Success(ResolveIn(data, path))
  {
    hide Evaluate, TextOf, FitsExpr, IsFieldPath, ResolveIn;
    LeafIsSound(Field(path));
    FieldText(path);
    ValueIs(Field(path), data);
  }

  /** A name stands for what the record holds under it. */
  lemma NameLaw(name: string, data: Data)
    requires IsFieldPath(name) && '.' !in name
    ensures Evaluate(name, data) == Success(Held(data, name))
  {
    hide Evaluate, IsFieldPath, Split;
    FieldValue(name, data);
    SplitWhole(name, '.');
    assert [name][1..] == [];
    assert Resolve(Obj(Fresh, data), [name]) == Resolve(Prop(Obj(Fresh, data), name), []);
  }

  /** A path behind a dot is followed in the object before it, and leads nowhere if there is none. */
  lemma PathLaw(path: string, rest: string, data: Data)
    requires IsFieldPath(path) && IsFieldPath(rest) && IsFieldPath(path + "." + rest)
    ensures Evaluate(path, data).Success?
    ensures var v := Evaluate(path, data).value;
            Evaluate(path + "." + rest, data) == if v.Obj? then Evaluate(rest, v.fields) else Success(Undefined)
  {
    hide Evaluate, IsFieldPath, Split, Resolve;
    var root, whole := Obj(Fresh, data), path + "." + rest;
    FieldValue(path, data);
    FieldValue(whole, data);
    SplitAppend(path, rest, '.');
    var names := Split(rest, '.');
    ResolveAppend(root, Split(path, '.'), names);
    var v := ResolveIn(data, path);
    if v.Obj? {
      FieldValue(rest, v.fields);
      SameFields(v, Obj(Fresh, v.fields), names);
    } else {
      SplitNames(path, rest);
      LeadsNowhere(v, names);
    }
  }

  lemma SameFields(v: Value, w: Value, names: seq<string>)
    requires v.Obj? && w.Obj? && v.fields == w.fields && names != []
    ensures Resolve(v, names) == Resolve(w, names)
  {
    assert Prop(v, names[0]) == Prop(w, names[0]);
  }

  lemma SplitNames(path: string, rest: string)
    requires IsFieldPath(path + "." + rest)
    ensures IsIdentifier(Split(rest, '.')[0]) && MemberOf(Split(rest, '.')[0]) == PlainMember
  {
    hide Split, IsIdentifier, MemberOf, WordOf;
    SplitAppend(path, rest, '.');
    var a, b := Split(path, '.'), Split(rest, '.');
    assert (a + b)[|a|] == b[0] && (a + b)[1..][|a| - 1] == b[0];
    assert b[0] in a + b && b[0] in (a + b)[1..];
  }

  lemma LeadsNowhere(v: Value, names: seq<string>)
    requires !v.Obj? && names != [] && IsIdentifier(names[0]) && MemberOf(names[0]) == PlainMember
    ensures Resolve(v, names) == Undefined
  {
    assert names[0][0] != '0' && !IsDigit(names[0][0]);
    assert !IsIndex(names[0]);
    assert Prop(v, names[0]) == Undefined;
    if v.IsObject() {
      assert Resolve(v, names) == Resolve(Undefined, names[1..]);
    }
  }

  /** `path.length` counts the elements of an array and the code units of a text; of anything else it is zero. */
  lemma LengthLaw(path: string, data: Data)
    requires IsFieldPath(path)
    ensures Evaluate(path, data).Success?
    ensures Evaluate(path + ".length", data) ==
            match Evaluate(path, data).value
            case Arr(_, elems) => Success(Num(|elems| as real))
            case Str(s) => Success(Num(|CodeUnits(s)| as real))
            case _ => Success(Num(0.0))
  {
    hide Evaluate, TextOf, FitsExpr, IsFieldPath, ResolveIn;
    FieldValue(path, data);
    LeafIsSound(LengthOf(path));
    LengthText(path);
    ValueIs(LengthOf(path), data);
  }

  // ----- Calls of two arguments -----

  lemma CallIs(f: TwoArguments, a: Expr, b: Expr, data: Data, x: Value, y: Value)
    requires Sound(Call(f, a, b))
    requires ValueIn(a, data) == Success(x) && ValueIn(b, data) == Success(y)
    ensures ValueIn(Call(f, a, b), data) == Success(CallValue(f, x, y))
  {
    hide Sound, Evaluate, TextOf, CallValue;
    var e := Call(f, a, b);
    SoundParts(e);
    ValueIs(e, data);
    ValueIs(a, data);
    ValueIs(b, data);
  }

  /** The BigInt functions on two integers: comparisons give booleans, sums and differences the text of an integer. */
  lemma BigintLaw(a: Expr, b: Expr, data: Data, x: Value, y: Value, m: int, n: int)
    requires forall f :: Sound(Call(f, a, b))
    requires ValueIn(a, data) == Success(x) && ValueIn(b, data) == Success(y) && Denotes(x, m) && Denotes(y, n)
    ensures var args := TextOf(a) + ", " + TextOf(b) + ")";
            && Evaluate("bigint_gte(" + args, data) == Success(Bool(m >= n))
            && Evaluate("bigint_gt(" + args, data) == Success(Bool(m > n))
            && Evaluate("bigint_eq(" + args, data) == Success(Bool(m == n))
            && Evaluate("bigint_sub(" + args, data) == Success(Str(IntText(m - n)))
            && Evaluate("bigint_add(" + args, data) == Success(Str(IntText(m + n)))
  {
    hide Sound, Evaluate, TextOf, Denotes, BigIntOf, IntText, OrElse;
    forall f ensures ValueIn(Call(f, a, b), data) == Success(CallValue(f, x, y)) {
      CallIs(f, a, b, data, x, y);
    }
    DenotedIsRead(x, m);
    DenotedIsRead(y, n);
    forall f { CallText(f, a, b); }
    assert TextOf(Call(BigintGte, a, b)) == "bigint_gte(" + (TextOf(a) + ", " + TextOf(b) + ")");
    assert TextOf(Call(BigintGt, a, b)) == "bigint_gt(" + (TextOf(a) + ", " + TextOf(b) + ")");
    assert TextOf(Call(BigintEq, a, b)) == "bigint_eq(" + (TextOf(a) + ", " + TextOf(b) + ")");
    assert TextOf(Call(BigintSub, a, b)) == "bigint_sub(" + (TextOf(a) + ", " + TextOf(b) + ")");
    assert TextOf(Call(BigintAdd, a, b)) == "bigint_add(" + (TextOf(a) + ", " + TextOf(b) + ")");
  }

  /** If one of the two stands for no integer, the comparisons are false, and sums and differences zero. */
  lemma NoIntegerLaw(a: Expr, b: Expr, data: Data, x: Value, y: Value)
    requires forall f :: Sound(Call(f, a, b))
    requires ValueIn(a, data) == Success(x) && ValueIn(b, data) == Success(y) && (DenotesNone(x) || DenotesNone(y))
    ensures var args := TextOf(a) + ", " + TextOf(b) + ")";
            && Evaluate("bigint_gte(" + args, data) == Success(Bool(false))
            && Evaluate("bigint_gt(" + args, data) == Success(Bool(false))
            && Evaluate("bigint_eq(" + args, data) == Success(Bool(false))
            && Evaluate("bigint_sub(" + args, data) == Success(Str("0"))
            && Evaluate("bigint_add(" + args, data) == Success(Str("0"))
  {
    hide Sound, Evaluate, TextOf, DenotesNone, BigIntOf, IntText;
    forall f ensures ValueIn(Call(f, a, b), data) == Success(CallValue(f, x, y)) {
      CallIs(f, a, b, data, x, y);
    }
    if DenotesNone(x) {
      NoneIsRead(x);
    } else {
      NoneIsRead(y);
    }
    forall f { CallText(f, a, b); }
    assert TextOf(Call(BigintGte, a, b)) == "bigint_gte(" + (TextOf(a) + ", " + TextOf(b) + ")");
    assert TextOf(Call(BigintGt, a, b)) == "bigint_gt(" + (TextOf(a) + ", " + TextOf(b) + ")");
    assert TextOf(Call(BigintEq, a, b)) == "bigint_eq(" + (TextOf(a) + ", " + TextOf(b) + ")");
    assert TextOf(Call(BigintSub, a, b)) == "bigint_sub(" + (TextOf(a) + ", " + TextOf(b) + ")");
    assert TextOf(Call(BigintAdd, a, b)) == "bigint_add(" + (TextOf(a) + ", " + TextOf(b) + ")");
  }

  /** `eq` asks whether two values are identical; it converts nothing, and tells null from undefined. */
  lemma EqLaw(a: Expr, b: Expr, data: Data, x: Value, y: Value)
    requires Sound(Call(StrictlyEqual, a, b))
    requires ValueIn(a, data) == Success(x) && ValueIn(b, data) == Success(y)
    ensures Evaluate("eq(" + (TextOf(a) + ", " + TextOf(b) + ")"), data) == Success(Bool(Identical(x, y)))
  {
    hide Sound, Evaluate, TextOf;
    CallIs(StrictlyEqual, a, b, data, x, y);
    CallText(StrictlyEqual, a, b);
  }

  // ----- Sums and counts -----

  /** `len` counts elements, code units or properties; of anything else it is zero. */
  lemma LenLaw(a: Expr, data: Data, x: Value)
    requires Sound(LenCall(a)) && ValueIn(a, data) == Success(x)
    ensures Evaluate("len(" + TextOf(a) + ")", data) ==
            match x
            case Arr(_, elems) => Success(Num(|elems| as real))
            case Str(s) => Success(Num(|CodeUnits(s)| as real))
            case Obj(_, fields) => Success(Num(|fields| as real))
            case _ => Success(Num(0.0))
  {
    hide Sound, Evaluate, TextOf;
    SoundParts(LenCall(a));
    ValueIs(a, data);
    ValueIs(LenCall(a), data);
    LenText(a);
  }

  lemma {:induction false} SumIs(vs: seq<Value>, ns: seq<int>)
    requires |vs| == |ns| && forall i :: 0 <= i < |vs| ==> Denotes(vs[i], ns[i])
    ensures SumOf(vs) == Some(Sum(ns))
  {
    hide Denotes, BigIntOf;
    if vs != [] {
      var n := |vs| - 1;
      SumIs(vs[..n], ns[..n]);
      SumSnoc(ns[..n], ns[n]);
      assert ns[..n] + [ns[n]] == ns;
      DenotedIsRead(vs[n], ns[n]);
      if vs[n].IsNullish() {
        NothingIsZero(vs[n], ns[n]);
      }
    }
  }

  lemma NothingIsZero(v: Value, n: int)
    requires v.IsNullish() && Denotes(v, n)
    ensures n == 0
  {
  }

  lemma {:induction false} SumIsNone(vs: seq<Value>, i: nat)
    requires i < |vs| && DenotesNone(vs[i])
    ensures SumOf(vs) == None
  {
    hide DenotesNone, BigIntOf;
    var n := |vs| - 1;
    if i == n {
      NoneIsRead(vs[n]);
    } else {
      SumIsNone(vs[..n], i);
    }
  }

  /** `bigint_sum` of an array of integers is their sum; what is missing counts as zero. */
  lemma SumLaw(a: Expr, data: Data, x: Value, ns: seq<int>)
    requires Sound(SumList(a)) && ValueIn(a, data) == Success(x)
    requires x.Arr? && |x.elems| == |ns| && forall i :: 0 <= i < |ns| ==> Denotes(x.elems[i], ns[i])
    ensures Evaluate("bigint_sum(" + Operand(a, IsBinary(a) || a.Not?) + ")", data) == Success(Big(Sum(ns)))
  {
    hide Sound, Evaluate, TextOf, Denotes, SumOf, Operand;
    SoundParts(SumList(a));
    ValueIs(a, data);
    ValueIs(SumList(a), data);
    SumListText(a);
    SumIs(x.elems, ns);
  }

  /** One element that is no integer makes the whole sum zero, and so does an argument that is no array. */
  lemma NoSumLaw(a: Expr, data: Data, x: Value, i: nat)
    requires Sound(SumList(a)) && ValueIn(a, data) == Success(x)
    requires !x.Arr? || (i < |x.elems| && DenotesNone(x.elems[i]))
    ensures Evaluate("bigint_sum(" + Operand(a, IsBinary(a) || a.Not?) + ")", data) == Success(Big(0))
  {
    hide Sound, Evaluate, TextOf, DenotesNone, SumOf, Operand;
    SoundParts(SumList(a));
    ValueIs(a, data);
    ValueIs(SumList(a), data);
    SumListText(a);
    if x.Arr? {
      SumIsNone(x.elems, i);
    }
  }

  /** `bigint_sum` over a field of the objects in an array; what is no object adds nothing. */
  lemma SumFieldLaw(a: Expr, name: string, data: Data, x: Value, ns: seq<int>)
    requires Sound(SumField(a, TextLit(name))) && ValueIn(a, data) == Success(x) && '.' !in name
    requires '\'' !in name && '\\' !in name
    requires x.Arr? && |x.elems| == |ns|
    requires forall i :: 0 <= i < |ns| ==> !x.elems[i].Arr? && Denotes(HeldBy(x.elems[i], name), ns[i])
    ensures Evaluate("bigint_sum(" + Operand(a, IsBinary(a) || a.Not?) + ", '" + name + "')", data)
         == Success(Big(Sum(ns)))
  {
    hide Sound, Evaluate, TextOf, Denotes, SumOf, Operand, Column, EscapeText, HeldBy;
    var e := SumField(a, TextLit(name));
    SoundParts(e);
    ValueIs(a, data);
    ValueIs(e, data);
    SumFieldTexts(a, name);
    ColumnIs(x.elems, name);
    SumIs(Column(x.elems, name), ns);
  }

  /** Of what is no array there is nothing to sum. */
  lemma NoColumnLaw(a: Expr, name: string, data: Data, x: Value)
    requires Sound(SumField(a, TextLit(name))) && ValueIn(a, data) == Success(x) && !x.Arr?
    requires '\'' !in name && '\\' !in name
    ensures Evaluate("bigint_sum(" + Operand(a, IsBinary(a) || a.Not?) + ", '" + name + "')", data) == Success(Big(0))
  {
    hide Sound, Evaluate, TextOf, Operand;
    SoundParts(SumField(a, TextLit(name)));
    ValueIs(a, data);
    ValueIs(SumField(a, TextLit(name)), data);
    SumFieldTexts(a, name);
  }

  lemma SumFieldTexts(a: Expr, name: string)
    requires '\'' !in name && '\\' !in name
    ensures TextOf(SumField(a, TextLit(name)))
         == "bigint_sum(" + Operand(a, IsBinary(a) || a.Not?) + ", '" + name + "')"
  {
    hide TextOf, EscapeText;
    SumFieldText(a, TextLit(name));
    EscapeIs(name);
    QuotedText(name);
    assert Operand(TextLit(name), false) == "'" + name + "'";
    var head := "bigint_sum(" + Operand(a, IsBinary(a) || a.Not?);
    assert head + ", " + ("'" + name + "'") + ")" == head + ", '" + name + "')";
  }

  /** What a value holds under a name, if it is an object. */
  function HeldBy(v: Value, name: string): Value {
    if v.Obj? then Held(v.fields, name) else Undefined
  }

  lemma ColumnIs(items: seq<Value>, name: string)
    requires '.' !in name && forall i :: 0 <= i < |items| ==> !items[i].Arr?
    ensures |Column(items, name)| == |items|
    ensures forall i :: 0 <= i < |items| ==> Column(items, name)[i] == HeldBy(items[i], name)
  {
    hide Split;
    SplitWhole(name, '.');
    assert [name][1..] == [];
    forall i | 0 <= i < |items| ensures Column(items, name)[i] == HeldBy(items[i], name) {
      assert items[i].Obj? ==> Resolve(items[i], [name]) == Resolve(Prop(items[i], name), []);
    }
  }

  /** `bigint_sum` over a field of a field. */
  lemma SumNestedLaw(a: Expr, outer: string, inner: string, data: Data, x: Value, ns: seq<int>)
    requires Sound(SumField(a, TextLit(outer + "." + inner))) && ValueIn(a, data) == Success(x)
    requires '.' !in outer && '.' !in inner && '\'' !in outer + inner && '\\' !in outer + inner
    requires x.Arr? && |x.elems| == |ns|
    requires forall i :: 0 <= i < |ns| ==> !x.elems[i].Arr? && !HeldBy(x.elems[i], outer).Arr?
    requires forall i :: 0 <= i < |ns| ==> Denotes(HeldBy(HeldBy(x.elems[i], outer), inner), ns[i])
    ensures Evaluate("bigint_sum(" + Operand(a, IsBinary(a) || a.Not?) + ", '" + (outer + "." + inner) + "')", data)
         == Success(Big(Sum(ns)))
  {
    hide Sound, Evaluate, TextOf, Denotes, SumOf, Operand, EscapeText, HeldBy, ResolvePath;
    var name := outer + "." + inner;
    var e := SumField(a, TextLit(name));
    SoundParts(e);
    ValueIs(a, data);
    ValueIs(e, data);
    SumFieldTexts(a, name);
    NestedColumnIs(x.elems, outer, inner);
    SumIs(Column(x.elems, name), ns);
  }

  lemma NestedColumnIs(items: seq<Value>, outer: string, inner: string)
    requires '.' !in outer && '.' !in inner
    requires forall i :: 0 <= i < |items| ==> !items[i].Arr? && !HeldBy(items[i], outer).Arr?
    ensures var name := outer + "." + inner;
            && |Column(items, name)| == |items|
            && forall i :: 0 <= i < |items| ==> Column(items, name)[i] == HeldBy(HeldBy(items[i], outer), inner)
  {
    hide ResolvePath, HeldBy;
    forall i | 0 <= i < |items|
      ensures Column(items, outer + "." + inner)[i] == HeldBy(HeldBy(items[i], outer), inner)
    {
      ResolveNested(items[i], outer, inner);
      NoObjectHolds(items[i], outer, inner);
    }
  }

  lemma NoObjectHolds(v: Value, outer: string, inner: string)
    ensures !v.Obj? ==> HeldBy(HeldBy(v, outer), inner) == Undefined
  {
  }

  lemma ResolveNested(v: Value, outer: string, inner: string)
    requires '.' !in outer && '.' !in inner && !v.Arr? && !HeldBy(v, outer).Arr?
    ensures ResolvePath(v, outer + "." + inner) == HeldBy(HeldBy(v, outer), inner)
  {
    hide Split;
    SplitAppend(outer, inner, '.');
    SplitWhole(outer, '.');
    SplitWhole(inner, '.');
    assert [outer] + [inner] == [outer, inner] && [outer, inner][1..] == [inner] && [inner][1..] == [];
    var w := Prop(v, outer);
    assert v.Obj? ==> Resolve(v, [outer, inner]) == Resolve(w, [inner]);
    assert w.Obj? ==> Resolve(w, [inner]) == Resolve(Prop(w, inner), []);
  }

  // ----- The record before -----

  lemma TemporalIs(op: TemporalOp, path: string, data: Data)
    requires IsPath(path)
    ensures ValueIn(Temporal(op, path), data) == Success(TemporalValue(op, data, path))
  {
    hide Evaluate, TextOf, FitsExpr, IsPath, TemporalValue;
    LeafIsSound(Temporal(op, path));
    ValueIs(Temporal(op, path), data);
  }

  lemma ResolveName(data: Data, name: string, v: Value)
    requires '.' !in name
    ensures ResolveIn(data, name) == Held(data, name)
    ensures ResolvePath(v, name) == if v.IsObject() then Prop(v, name) else Undefined
  {
    hide Split;
    SplitWhole(name, '.');
    assert [name][1..] == [];
    assert Resolve(Obj(Fresh, data), [name]) == Resolve(Prop(Obj(Fresh, data), name), []);
    if v.IsObject() {
      assert Resolve(v, [name]) == Resolve(Prop(v, name), []);
    }
  }

  /** With a record before, under `_previous`: whether the field is not identical to what it was, what it was, and by
      how much it has grown if both stand for integers. */
  lemma TemporalLaw(name: string, data: Data, before: map<string, Value>, m: int, n: int)
    requires IsPath(name) && '.' !in name && Held(data, "_previous").Obj? && data["_previous"].fields == before
    ensures var now, was := Held(data, name), Held(before, name);
            && Evaluate("changed(" + name + ")", data) == Success(Bool(!Identical(now, was)))
            && Evaluate("previous(" + name + ")", data) == Success(was)
            && (Denotes(now, m) && Denotes(was, n) ==> Evaluate("delta(" + name + ")", data) == Success(Big(m - n)))
  {
    hide Evaluate, TextOf, FitsExpr, IsPath, Denotes, BigIntOf, NumberOf, ResolveIn, ResolvePath, OrElse;
    TemporalIs(Changed, name, data);
    TemporalIs(Previous, name, data);
    TemporalIs(Delta, name, data);
    TemporalText(Changed, name);
    TemporalText(Previous, name);
    TemporalText(Delta, name);
    ResolveName(data, name, data["_previous"]);
    var now, was := Held(data, name), Held(before, name);
    if Denotes(now, m) && Denotes(was, n) {
      DenotedIsRead(now, m);
      DenotedIsRead(was, n);
    }
  }

  /** With no record before, nothing has changed, nothing was there, and nothing has grown. */
  lemma NothingBeforeLaw(name: string, data: Data)
    requires IsPath(name) && Held(data, "_previous").IsNullish()
    ensures Evaluate("changed(" + name + ")", data) == Success(Bool(false))
    ensures Evaluate("previous(" + name + ")", data) == Success(Undefined)
    ensures Evaluate("delta(" + name + ")", data) == Success(Big(0))
  {
    hide Evaluate, TextOf, FitsExpr, IsPath;
    TemporalIs(Changed, name, data);
    TemporalIs(Previous, name, data);
    TemporalIs(Delta, name, data);
    TemporalText(Changed, name);
    TemporalText(Previous, name);
    TemporalText(Delta, name);
  }

  /** Where one of the two is no number at all, nothing is said to have grown. */
  lemma NoGrowthLaw(name: string, data: Data, before: map<string, Value>)
    requires IsPath(name) && '.' !in name && Held(data, "_previous").Obj? && data["_previous"].fields == before
    requires IsNoNumber(Held(data, name)) || IsNoNumber(Held(before, name))
    ensures Evaluate("delta(" + name + ")", data) == Success(Big(0))
  {
    hide Evaluate, IsPath, DeltaValue, IsNoNumber;
    GrowthIs(name, data, before);
    NoGrowth(Held(data, name), Held(before, name));
  }

  lemma GrowthIs(name: string, data: Data, before: map<string, Value>)
    requires IsPath(name) && '.' !in name && Held(data, "_previous").Obj? && data["_previous"].fields == before
    ensures Evaluate("delta(" + name + ")", data)
         == Success(DeltaValue(OrElse(Held(data, name), Num(0.0)), OrElse(Held(before, name), Num(0.0))))
  {
    hide Evaluate, TextOf, FitsExpr, IsPath, ResolveIn, ResolvePath, DeltaValue, OrElse;
    TemporalIs(Delta, name, data);
    TemporalText(Delta, name);
    ResolveName(data, name, data["_previous"]);
  }

  lemma NoGrowth(now: Value, was: Value)
    requires IsNoNumber(now) || IsNoNumber(was)
    ensures DeltaValue(OrElse(now, Num(0.0)), OrElse(was, Num(0.0))) == Big(0)
  {
    hide BigIntOf, NumberOf, IsNoNumber;
    if IsNoNumber(now) {
      NoNumber(now);
    } else {
      NoNumber(was);
    }
  }

  /** Booleans, objects, and texts that start like a word. */
  predicate IsNoNumber(v: Value) {
    v.Bool? || v.Obj? || (v.Str? && v.s != "" && IsWordStart(v.s[0]))
  }

  lemma NoNumber(v: Value)
    requires IsNoNumber(v)
    ensures !v.IsNullish() && BigIntOf(v) == None && NumberOf(v) == None
  {
    hide ParseBigInt, ParseNumber;
    if v.Str? {
      WordIsNone(v.s);
      NumberOfWord(v.s);
    }
  }

  /** Numbers that are not whole have grown by a number. */
  lemma FractionLaw(name: string, data: Data, before: map<string, Value>, r: real, s: real)
    requires IsPath(name) && '.' !in name && Held(data, "_previous").Obj? && data["_previous"].fields == before
    requires Held(data, name) == Num(r) && Held(before, name) == Num(s) && (DenotesNone(Num(r)) || DenotesNone(Num(s)))
    ensures Evaluate("delta(" + name + ")", data) == Success(Num(r - s))
  {
    hide Evaluate, IsPath;
    GrowthIs(name, data, before);
  }

  // ----- Quantifiers -----

  lemma {:induction false} EveryTrue(items: seq<Value>, param: string, body: Expr, data: Data)
    requires forall i :: 0 <= i < |items| ==>
               var r := Eval(body, data[param := items[i]]); r.Success? && Truthy(r.value)
    ensures EvalEvery(items, param, body, data) == Success(true)
    decreases |items|
  {
    hide Eval, Truthy;
    if items != [] {
      EveryTrue(items[1..], param, body, data);
    }
  }

  lemma {:induction false} EveryStops(items: seq<Value>, param: string, body: Expr, data: Data, k: nat)
    requires k < |items|
    requires forall i :: 0 <= i < k ==> var r := Eval(body, data[param := items[i]]); r.Success? && Truthy(r.value)
    requires var r := Eval(body, data[param := items[k]]); r.Failure? || !Truthy(r.value)
    ensures EvalEvery(items, param, body, data) ==
            match Eval(body, data[param := items[k]]) case Failure(e) => Failure(e) case Success(_) => Success(false)
    decreases |items|
  {
    hide Eval, Truthy;
    if k > 0 {
      EveryStops(items[1..], param, body, data, k - 1);
    }
  }

  /** The values an array path stands for. */
  predicate IsArray(path: string, data: Data, items: seq<Value>) {
    var r := Evaluate(path, data);
    r.Success? && r.value.Arr? && r.value.elems == items
  }

  /** The body is true for an element, with the parameter standing for it and hiding a field of that name. */
  predicate TrueFor(body: Expr, param: string, data: Data, item: Value) {
    var r := ValueIn(body, data[param := item]);
    r.Success? && !IsFalse(r.value)
  }

  lemma TrueForIs(body: Expr, param: string, data: Data, item: Value)
    requires Sound(body)
    ensures ValueIn(body, data[param := item]) == Lift(Eval(body, data[param := item]))
    ensures var r := Eval(body, data[param := item]);
            TrueFor(body, param, data, item) <==> r.Success? && Truthy(r.value)
  {
    hide Sound, Evaluate, TextOf, Eval, Truthy, IsFalse;
    ValueIs(body, data[param := item]);
    forall v ensures Truthy(v) <==> !IsFalse(v) { TruthyIs(v); }
  }

  lemma EveryValue(path: string, param: string, body: Expr, data: Data)
    requires Sound(Every(path, param, body)) && IsFieldPath(path)
    ensures Sound(body) && Evaluate(path, data) == Success(ResolveIn(data, path))
    ensures Evaluate(path + ".every(" + param + " => " + TextOf(body) + ")", data)
         == Lift(Eval(Every(path, param, body), data))
  {
    hide Sound, Evaluate, TextOf, Eval, IsFieldPath, ResolveIn;
    SoundParts(Every(path, param, body));
    ValueIs(Every(path, param, body), data);
    EveryText(path, param, body);
    FieldValue(path, data);
  }

  /** `path.every(p => body)` is true of an array if the body is true for every element; of what is no array it is
      false. */
  lemma EveryHoldsLaw(path: string, param: string, body: Expr, data: Data, items: seq<Value>)
    requires Sound(Every(path, param, body)) && IsFieldPath(path)
    ensures var text := path + ".every(" + param + " => " + TextOf(body) + ")";
            && (IsArray(path, data, items)
                && (forall i :: 0 <= i < |items| ==> TrueFor(body, param, data, items[i])) ==>
                  Evaluate(text, data) == Success(Bool(true)))
            && (Evaluate(path, data).Success? && !Evaluate(path, data).value.Arr? ==>
                  Evaluate(text, data) == Success(Bool(false)))
  {
    hide Sound, Evaluate, TextOf, Eval, IsFieldPath, ResolveIn, EvalEvery, TrueFor, Truthy;
    EveryValue(path, param, body, data);
    EveryStep(path, param, body, data);
    if IsArray(path, data, items) && forall i :: 0 <= i < |items| ==> TrueFor(body, param, data, items[i]) {
      forall i | 0 <= i < |items|
        ensures var r := Eval(body, data[param := items[i]]); r.Success? && Truthy(r.value)
      {
        TrueForIs(body, param, data, items[i]);
      }
      EveryTrue(items, param, body, data);
    }
  }

  /** The first element for which the body is not true decides: the whole is false, or the error of the body, and what
      comes after it is not looked at. */
  lemma EveryStopsLaw(path: string, param: string, body: Expr, data: Data, items: seq<Value>, k: nat)
    requires Sound(Every(path, param, body)) && IsFieldPath(path) && IsArray(path, data, items) && k < |items|
    requires forall i :: 0 <= i < k ==> TrueFor(body, param, data, items[i])
    requires !TrueFor(body, param, data, items[k])
    ensures Evaluate(path + ".every(" + param + " => " + TextOf(body) + ")", data) ==
            match ValueIn(body, data[param := items[k]])
            case Failure(p) => Failure(p)
            case Success(_) => Success(Bool(false))
  {
    hide Sound, Evaluate, TextOf, Eval, IsFieldPath, ResolveIn, EvalEvery, TrueFor, Truthy;
    EveryValue(path, param, body, data);
    EveryStep(path, param, body, data);
    forall i | 0 <= i <= k { TrueForIs(body, param, data, items[i]); }
    EveryStops(items, param, body, data, k);
  }

  lemma EveryStep(path: string, param: string, body: Expr, data: Data)
    ensures var arr := ResolveIn(data, path);
            Eval(Every(path, param, body), data) ==
            if !arr.Arr? then Success(Bool(false))
            else
              match EvalEvery(arr.elems, param, body, data)
              case Success(all) => Success(Bool(all))
              case Failure(error) => Failure(error)
  {
    hide EvalEvery, ResolveIn;
  }

  /** An array literal holds the values of its elements, in order. */
  lemma ArrayLaw(es: Elems, data: Data)
    requires Sound(ArrayLit(es))
    ensures match EvalElems(es, data)
            case Success(vs) => ValueIn(ArrayLit(es), data) == Success(Arr(Fresh, vs))
            case Failure(error) => ValueIn(ArrayLit(es), data) == Failure(Syntactic(error))
    ensures ElemsHaveText(es) && TextOf(ArrayLit(es)) == "[" + Join(ElemTexts(es), ", ") + "]"
  {
    hide Evaluate, TextOf, FitsExpr, EvalElems;
    ValueIs(ArrayLit(es), data);
    ArrayText(es);
  }
}
