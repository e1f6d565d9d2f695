/** What the host's conversions of texts and values to numbers give, form by form. */
module Conversions {
  import opened Results
  import opened Values

  // ----- White space -----

  /** The white-space characters, one by one. */
  lemma SpacesAre(c: char)
    ensures IsSpace(c) <==>
              || c == '\t' || c == '\n' || c == '\U{B}' || c == '\U{C}' || c == '\r' || c == ' ' || c == '\U{A0}'
              || c == '\U{1680}' || c == '\U{2000}' || c == '\U{2001}' || c == '\U{2002}' || c == '\U{2003}'
              || c == '\U{2004}' || c == '\U{2005}' || c == '\U{2006}' || c == '\U{2007}' || c == '\U{2008}'
              || c == '\U{2009}' || c == '\U{200A}' || c == '\U{2028}' || c == '\U{2029}' || c == '\U{202F}'
              || c == '\U{205F}' || c == '\U{3000}' || c == '\U{FEFF}'
  {
    var u := c as int;
  }

  predicate AllSpace(s: string) {
    forall i :: 0 <= i < |s| ==> IsSpace(s[i])
  }

  /** A text that neither starts nor ends in white space. */
  predicate IsSolid(s: string) {
    s != "" && !IsSpace(s[0]) && !IsSpace(s[|s| - 1])
  }

  lemma {:induction false} LeftPadding(pad: string, s: string)
    requires AllSpace(pad) && IsSolid(s)
    ensures TrimLeft(pad + s) == s
  {
    hide IsSpace;
    if pad == "" {
      assert pad + s == s;
    } else {
      assert (pad + s)[1..] == pad[1..] + s;
      LeftPadding(pad[1..], s);
    }
  }

  lemma {:induction false} RightPadding(s: string, pad: string)
    requires AllSpace(pad) && IsSolid(s)
    ensures TrimRight(s + pad) == s
  {
    hide IsSpace;
    if pad == "" {
      assert s + pad == s;
    } else {
      var n := |pad| - 1;
      assert (s + pad)[..|s + pad| - 1] == s + pad[..n];
      RightPadding(s, pad[..n]);
    }
  }

  /** White space around a text does not matter. */
  lemma PaddingIsTrimmed(before: string, s: string, after: string)
    requires AllSpace(before) && AllSpace(after) && IsSolid(s)
    ensures Trim(before + s + after) == s == Trim(s)
  {
    hide IsSpace, TrimLeft, TrimRight;
    assert before + s + after == before + (s + after);
    LeftPaddingAnd(before, s, after);
    RightPadding(s, after);
    LeftPadding("", s);
    RightPadding(s, "");
    assert "" + s == s && s + "" == s;
  }

  lemma {:induction false} LeftPaddingAnd(pad: string, s: string, after: string)
    requires AllSpace(pad) && IsSolid(s)
    ensures TrimLeft(pad + (s + after)) == s + after
  {
    hide IsSpace;
    if pad == "" {
      assert pad + (s + after) == s + after;
    } else {
      assert (pad + (s + after))[1..] == pad[1..] + (s + after);
      LeftPaddingAnd(pad[1..], s, after);
    }
  }

  lemma PaddingIsIgnored(before: string, s: string, after: string)
    requires AllSpace(before) && AllSpace(after) && IsSolid(s)
    ensures ParseBigInt(before + s + after) == ParseBigInt(s)
    ensures ParseNumber(before + s + after) == ParseNumber(s)
  {
    hide Trim, ParseDecimal;
    PaddingIsTrimmed(before, s, after);
  }

  /** An empty text is zero to both. */
  lemma EmptyTexts()
    ensures ParseBigInt("") == Some(0) && ParseNumber("") == Some(0.0)
  {
  }

  // ----- Signs -----

  lemma SolidDigits(s: string)
    requires s != "" && AllDigits(s)
    ensures IsSolid(s) && IsSolid("-" + s) && IsSolid("+" + s)
    ensures Trim(s) == s && Trim("-" + s) == "-" + s && Trim("+" + s) == "+" + s
  {
    hide Trim;
    var minus, plus := "-" + s, "+" + s;
    assert minus[|minus| - 1] == s[|s| - 1] && plus[|plus| - 1] == s[|s| - 1];
    PaddingIsTrimmed("", s, "");
    PaddingIsTrimmed("", minus, "");
    PaddingIsTrimmed("", plus, "");
  }

  /** A sign in front of digits. */
  lemma SignedIntegers(s: string)
    requires s != "" && AllDigits(s)
    ensures ParseBigInt(s) == Some(Decimal(s)) && ParseBigInt("+" + s) == Some(Decimal(s))
    ensures ParseBigInt("-" + s) == Some(-Decimal(s))
    ensures ParseNumber(s) == Some(Decimal(s) as real) && ParseNumber("+" + s) == Some(Decimal(s) as real)
    ensures ParseNumber("-" + s) == Some(-(Decimal(s) as real))
  {
    hide Trim, Decimal, ParseDecimal;
    SolidDigits(s);
    BigIntOfDigits(s);
    NumberOfDigits(s);
    DecimalOfDigits(s);
    assert ("-" + s)[1..] == s && ("+" + s)[1..] == s;
  }

  lemma DecimalOfDigits(s: string)
    requires s != "" && AllDigits(s)
    ensures ParseDecimal(s) == Some(Decimal(s) as real)
  {
    hide Decimal;
    assert s + "" == s && s[..|s|] == s;
    RunOf(s, "", IsDigit);
  }

  // ----- Radixes -----

  /** Hexadecimal digits in either case, octal and binary ones. */
  predicate IsDigitOf(c: char, radix: int) {
    match radix
    case 16 => '0' <= c <= '9' || 'a' <= c <= 'f' || 'A' <= c <= 'F'
    case 8 => '0' <= c <= '7'
    case 2 => c == '0' || c == '1'
    case _ => false
  }

  function Worth(c: char): int {
    if '0' <= c <= '9' then c as int - 48 else if 'a' <= c <= 'f' then c as int - 87 else c as int - 55
  }

  /** Reading one more digit multiplies what has been read by the radix. */
  lemma RadixDigits(s: string, c: char, radix: nat)
    requires DigitsIn(s, radix) && (radix == 16 || radix == 8 || radix == 2)
    ensures DigitsIn(s + [c], radix) <==> IsDigitOf(c, radix)
    ensures IsDigitOf(c, radix) ==> DigitsValue(s + [c], radix) == radix * DigitsValue(s, radix) + Worth(c)
    ensures DigitsValue("", radix) == 0
  {
    var t := s + [c];
    assert t[|s|] == c && t[..|s|] == s;
    assert forall i :: 0 <= i < |s| ==> t[i] == s[i];
  }

  /** A prefix says in which radix digits are read; no sign goes with it. */
  lemma RadixPrefixes(s: string)
    requires s != ""
    ensures DigitsIn(s, 16) ==>
              ParseBigInt("0x" + s) == ParseBigInt("0X" + s) == Some(DigitsValue(s, 16))
    ensures DigitsIn(s, 8) ==>
              ParseBigInt("0o" + s) == ParseBigInt("0O" + s) == Some(DigitsValue(s, 8))
    ensures DigitsIn(s, 2) ==>
              ParseBigInt("0b" + s) == ParseBigInt("0B" + s) == Some(DigitsValue(s, 2))
  {
    hide Trim, DigitsValue;
    if DigitsIn(s, 16) {
      Prefixed("0x", s, 16);
      Prefixed("0X", s, 16);
    }
    if DigitsIn(s, 8) {
      Prefixed("0o", s, 8);
      Prefixed("0O", s, 8);
    }
    if DigitsIn(s, 2) {
      Prefixed("0b", s, 2);
      Prefixed("0B", s, 2);
    }
  }

  lemma Prefixed(prefix: string, s: string, radix: nat)
    requires s != "" && DigitsIn(s, radix) && radix <= 16
    requires |prefix| == 2 && prefix[0] == '0' && Radix(prefix[1]) == Some(radix)
    ensures ParseBigInt(prefix + s) == Some(DigitsValue(s, radix))
  {
    hide Trim, DigitsValue;
    var t := prefix + s;
    assert t[0] == '0' && t[1] == prefix[1] && t[2..] == s && t[|t| - 1] == s[|s| - 1];
    NoSpaceDigit(t[|t| - 1]);
    PaddingIsTrimmed("", t, "");
    assert "" + t + "" == t;
  }

  lemma NoSpaceDigit(c: char)
    requires DigitValue(c) < 16
    ensures !IsSpace(c)
  {
  }

  // ----- Fractions and exponents -----

  /** A text that starts with a digit and is no number in another radix is read as a decimal number. */
  lemma NumberIsDecimal(t: string)
    requires IsSolid(t) && IsDigit(t[0]) && (|t| > 1 ==> Radix(t[1]).None?)
    ensures ParseNumber(t) == ParseDecimal(t)
  {
    hide Trim, ParseDecimal, IsSpace;
    PaddingIsTrimmed("", t, "");
    assert "" + t + "" == t;
  }

  lemma NoSpaceInDigits(c: char)
    requires IsDigit(c)
    ensures !IsSpace(c) && Radix(c).None?
  {
  }

  lemma DecimalOfParts(t: string, n: nat, m: nat)
    requires n == DigitRun(t) && n < |t| && t[n] == '.' && m == DigitRun(t[n + 1..]) && n + 1 + m == |t| && n > 0
    ensures ParseDecimal(t) == Some(Decimal(t[..n]) as real + Fraction(t[n + 1..][..m]))
  {
    hide Decimal, Run, Fraction;
  }

  lemma DigitsRun(w: string, rest: string)
    requires AllDigits(w) && (rest == "" || !IsDigit(rest[0]))
    ensures DigitRun(w + rest) == |w|
  {
    RunOf(w, rest, IsDigit);
  }

  lemma FractionIsRead(w: string, f: string)
    requires w != "" && AllDigits(w) && AllDigits(f)
    ensures ParseDecimal(w + "." + f) == Some(Decimal(w) as real + Decimal(f) as real / Pow10(|f|) as real)
  {
    hide Decimal, Pow10, DigitRun, Fraction, ParseDecimal;
    var t := w + "." + f;
    assert t == w + ("." + f) && t[..|w|] == w && t[|w|] == '.' && t[|w| + 1..] == f;
    DigitsRun(w, "." + f);
    assert f + "" == f && f[..|f|] == f;
    DigitsRun(f, "");
    DecimalOfParts(t, |w|, |f|);
    FractionIs(f);
  }

  lemma FractionIs(f: string)
    requires AllDigits(f)
    ensures Fraction(f) == Decimal(f) as real / Pow10(|f|) as real
  {
  }

  /** A fraction is read as its digits divided by ten as often as there are digits behind the dot. */
  lemma FractionsAre(w: string, f: string)
    requires w != "" && f != "" && AllDigits(w) && AllDigits(f)
    ensures ParseNumber(w + "." + f) == Some(Decimal(w) as real + Decimal(f) as real / Pow10(|f|) as real)
  {
    hide ParseDecimal, Decimal, Pow10, IsSpace, ParseNumber;
    var t := w + "." + f;
    assert t[0] == w[0] && t[|t| - 1] == f[|f| - 1] && t[1] == if |w| > 1 then w[1] else '.';
    NoSpaceInDigits(t[0]);
    NoSpaceInDigits(t[|t| - 1]);
    if |w| > 1 {
      NoSpaceInDigits(w[1]);
    }
    NumberIsDecimal(t);
    FractionIsRead(w, f);
  }

  lemma {:induction false} TrimKeeps(p: string, rest: string)
    requires p != "" && !IsSpace(p[|p| - 1])
    ensures |TrimRight(p + rest)| >= |p| && TrimRight(p + rest)[..|p|] == p
    decreases |rest|
  {
    hide IsSpace;
    var s := p + rest;
    if rest == "" {
      assert s == p;
    } else {
      var n := |rest| - 1;
      assert s[..|s| - 1] == p + rest[..n] && s[..|p|] == p;
      TrimKeeps(p, rest[..n]);
    }
  }

  /** Digits that run on into a word are no number of either kind. */
  lemma DigitsOfNothing(w: string, c: char, rest: string)
    requires |w| > 1 && AllDigits(w) && IsWordStart(c) && c != 'e' && c != 'E'
    ensures ParseNumber(w + [c] + rest) == None && ParseBigInt(w + [c] + rest) == None
  {
    hide IsSpace, TrimRight;
    var p := w + [c];
    var s := p + rest;
    NoSpaceInDigits(w[0]);
    NoSpaceInWord(c);
    TrimKeeps(p, rest);
    assert s[0] == w[0];
    assert TrimLeft(s) == s;
    var t := Trim(s);
    assert t[..|p|] == p;
    assert t[0] == w[0] && t[1] == w[1] && t[|w|] == c;
    assert IsDigit(w[0]) && IsDigit(w[1]);
    assert t == w + t[|w|..] && t[|w|..][0] == c;
    RunOf(w, t[|w|..], IsDigit);
    assert !AllDigits(t);
    assert ParseDecimal(t) == None;
  }

  lemma NoSpaceInWord(c: char)
    requires IsWordStart(c)
    ensures !IsSpace(c) && !IsDigit(c)
  {
  }

  /** An exponent multiplies by a power of ten, or divides by one if it is negative. */
  lemma ExponentsAre(w: string, k: string)
    requires w != "" && k != "" && AllDigits(w) && AllDigits(k)
    ensures ParseNumber(w + "e" + k) == ParseNumber(w + "E" + k) == ParseNumber(w + "e+" + k)
         == Some(Decimal(w) as real * Pow10(Decimal(k)) as real)
    ensures Decimal(k) > 0 ==>
              ParseNumber(w + "e-" + k) == Some(Decimal(w) as real / Pow10(Decimal(k)) as real)
  {
    hide Decimal, Pow10, ParseNumber;
    ExponentIs(w, "e", k);
    ExponentIs(w, "E", k);
    ExponentIs(w, "e+", k);
    ExponentIs(w, "e-", k);
  }

  lemma ExponentIs(w: string, mark: string, k: string)
    requires w != "" && k != "" && AllDigits(w) && AllDigits(k)
    requires mark == "e" || mark == "E" || mark == "e+" || mark == "e-"
    ensures ParseNumber(w + mark + k) ==
            Some(if mark == "e-" && Decimal(k) > 0 then Decimal(w) as real / Pow10(Decimal(k)) as real
                 else Decimal(w) as real * Pow10(Decimal(k)) as real)
  {
    hide ParseDecimal, Decimal, Pow10, IsSpace, ParseNumber;
    var t := w + mark + k;
    assert t[0] == w[0] && t[|t| - 1] == k[|k| - 1] && t[1] == if |w| > 1 then w[1] else mark[0];
    NoSpaceInDigits(t[0]);
    NoSpaceInDigits(t[|t| - 1]);
    if |w| > 1 {
      NoSpaceInDigits(w[1]);
    }
    NumberIsDecimal(t);
    ExponentIsRead(w, mark, k);
  }

  lemma ExponentIsRead(w: string, mark: string, k: string)
    requires w != "" && k != "" && AllDigits(w) && AllDigits(k)
    requires mark == "e" || mark == "E" || mark == "e+" || mark == "e-"
    ensures ParseDecimal(w + mark + k) ==
            Some(if mark == "e-" && Decimal(k) > 0 then Decimal(w) as real / Pow10(Decimal(k)) as real
                 else Decimal(w) as real * Pow10(Decimal(k)) as real)
  {
    hide Decimal, Pow10, ParseExponent, Run, Scale, Fraction;
    var t := w + mark + k;
    assert t == w + (mark + k) && t[..|w|] == w && t[|w|] == mark[0];
    assert t[|w| + 1..] == (mark + k)[1..];
    RunOf(w, mark + k, IsDigit);
    assert DigitRun(t) == |w|;
    ExponentReads(mark, k);
    var e := if mark == "e-" then -Decimal(k) else Decimal(k);
    assert ParseDecimal(t) == Some(Scale(Decimal(w) as real + 0.0, e));
    ScaleIs(Decimal(w) as real, Decimal(k));
    if e < 0 {
      assert e == -Decimal(k);
    } else {
      assert e == Decimal(k);
      assert ParseDecimal(t) == Some(Scale(Decimal(w) as real + 0.0, Decimal(k)));
      assert Scale(Decimal(w) as real + 0.0, Decimal(k)) == Decimal(w) as real * Pow10(Decimal(k)) as real;
    }
  }

  lemma ScaleIs(r: real, k: int)
    requires k >= 0
    ensures Scale(r + 0.0, k) == r * Pow10(k) as real
    ensures k > 0 ==> Scale(r + 0.0, -k) == r / Pow10(k) as real
  {
    hide Pow10;
  }

  lemma ExponentReads(mark: string, k: string)
    requires k != "" && AllDigits(k)
    requires mark == "e" || mark == "E" || mark == "e+" || mark == "e-"
    ensures ParseExponent((mark + k)[1..]) == Some(if mark == "e-" then -Decimal(k) else Decimal(k))
  {
    hide Decimal;
    var s := (mark + k)[1..];
    if |mark| == 1 {
      assert s == k;
    } else {
      assert s == mark[1..] + k && s[1..] == k && s[0] == mark[1];
    }
  }

  // ----- Values -----

  /** An array stands for what its only element stands for, and for zero if it has none, or an empty one. */
  lemma ArraysAre(ref: Ref, v: Value, vs: seq<Value>)
    requires |vs| > 1
    ensures BigIntOf(Arr(ref, [])) == Some(0) && NumberOf(Arr(ref, [])) == Some(0.0)
    ensures BigIntOf(Arr(ref, [v])) == if v == Null || v == Undefined then Some(0) else BigIntOf(v)
    ensures NumberOf(Arr(ref, [v])) == if v == Null || v == Undefined then Some(0.0) else NumberOf(v)
    ensures BigIntOf(Arr(ref, vs)) == None && NumberOf(Arr(ref, vs)) == None
  {
  }

  /** Booleans, objects and missing values stand for no number; numbers and BigInts for themselves. */
  lemma NumbersAre(b: bool, ref: Ref, fields: map<string, Value>, r: real, n: int, s: string)
    ensures NumberOf(Bool(b)) == NumberOf(Obj(ref, fields)) == NumberOf(Null) == NumberOf(Undefined) == None
    ensures BigIntOf(Bool(b)) == BigIntOf(Obj(ref, fields)) == BigIntOf(Null) == BigIntOf(Undefined) == None
    ensures NumberOf(Num(r)) == Some(r) && NumberOf(Big(n)) == Some(n as real) && NumberOf(Str(s)) == ParseNumber(s)
    ensures BigIntOf(Big(n)) == Some(n) && BigIntOf(Str(s)) == ParseBigInt(s)
  {
  }

  // ----- Properties -----

  /** An array has its length and, under their places, its elements; a place is written without leading zeros. */
  lemma ArrayProperties(ref: Ref, elems: seq<Value>, i: nat, name: string)
    ensures Prop(Arr(ref, elems), "length") == Num(|elems| as real)
    ensures Prop(Arr(ref, elems), NatText(i)) == if i < |elems| then elems[i] else Undefined
    ensures name != "length" && (name == "" || !AllDigits(name) || (|name| > 1 && name[0] == '0')) ==>
              Prop(Arr(ref, elems), name) == Undefined
  {
    NoLeadingZero(i);
    assert "length"[0] == 'l' && !AllDigits("length");
    assert NatText(i) != "length";
    if i == 0 {
      assert NatText(i) == "0";
    }
  }

  /** A character beyond the basic plane is a pair of surrogates. */
  lemma SurrogatePairs()
    ensures CodeUnits("\U{1F600}") == [0xD83D, 0xDE00] && CodeUnits("\U{10000}") == [0xD800, 0xDC00]
    ensures CodeUnits("\U{10FFFF}") == [0xDBFF, 0xDFFF] && CodeUnits("\U{FFFF}") == [0xFFFF]
  {
    assert "\U{1F600}"[1..] == "" && "\U{10000}"[1..] == "" && "\U{10FFFF}"[1..] == "" && "\U{FFFF}"[1..] == "";
  }
}
