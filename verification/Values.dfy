/** JavaScript values as the constraint evaluator sees them, and the host conversions it relies on:
    truthiness, strict equality, property access, `BigInt(String(v))` and `Number(String(v))`.
    Numbers are reals: rounding, NaN and the infinities are not modelled. */
module Values {
  import opened Results

  /** Identity of an array or object. Two objects of the data record are the same object when their
      identities agree; an array literal is a new object, identical to nothing else. */
  datatype Ref = Fresh | Id(id: nat)

  datatype Value =
    | Undefined
    | Null
    | Bool(b: bool)
    | Num(r: real)
    | Big(n: int)
    | Str(s: string)
    | Arr(ref: Ref, elems: seq<Value>)
    | Obj(ref: Ref, fields: map<string, Value>)
  {
    predicate IsNullish() {
      Undefined? || Null?
    }

    predicate IsObject() {
      Arr? || Obj?
    }
  }

  /** The record an expression is evaluated against. */
  type Data = map<string, Value>

  /** `!!v` */
  predicate Truthy(v: Value) {
    match v
    case Undefined => false
    case Null => false
    case Bool(b) => b
    case Num(r) => r != 0.0
    case Big(n) => n != 0
    case Str(s) => s != ""
    case Arr(_, _) => true
    case Obj(_, _) => true
  }

  /** `a === b` */
  predicate StrictEq(a: Value, b: Value) {
    match (a, b)
    case (Arr(i, _), Arr(j, _)) => i.Id? && i == j
    case (Obj(i, _), Obj(j, _)) => i.Id? && i == j
    case (Arr(_, _), _) => false
    case (Obj(_, _), _) => false
    case _ => a == b
  }

  /** `v ?? w` */
  function OrElse(v: Value, w: Value): Value {
    if v.IsNullish() then w else v
  }

  // ----- Strings -----

  predicate IsDigit(c: char) {
    '0' <= c <= '9'
  }

  predicate AllDigits(s: string) {
    forall i :: 0 <= i < |s| ==> IsDigit(s[i])
  }

  /** The characters that `\s`, and the trimming done by number parsing, treat as white space. */
  predicate IsSpace(c: char) {
    var u := c as int;
    || u == 0x20 || 0x09 <= u <= 0x0D || u == 0xA0 || u == 0x1680 || 0x2000 <= u <= 0x200A
    || u == 0x2028 || u == 0x2029 || u == 0x202F || u == 0x205F || u == 0x3000 || u == 0xFEFF
  }

  function TrimLeft(s: string): (t: string)
    ensures |t| <= |s|
  {
    if s != "" && IsSpace(s[0]) then TrimLeft(s[1..]) else s
  }

  function TrimRight(s: string): (t: string)
    ensures |t| <= |s|
  {
    if s != "" && IsSpace(s[|s| - 1]) then TrimRight(s[..|s| - 1]) else s
  }

  function Trim(s: string): string {
    TrimRight(TrimLeft(s))
  }

  /** Concatenation associates, a fact that has to be mentioned to be used. */
  lemma Assoc(a: string, b: string, c: string)
    ensures a + (b + c) == a + b + c
  {
  }

  /** The pieces of `s` between occurrences of `c`; there is always at least one. */
  function Split(s: string, c: char): (parts: seq<string>)
    ensures |parts| >= 1
    ensures forall p, i :: p in parts && 0 <= i < |p| ==> p[i] != c
  {
    if s == "" then [""]
    else
      var rest := Split(s[1..], c);
      if s[0] == c then [""] + rest else [[s[0]] + rest[0]] + rest[1..]
  }

  /** The inverse of `Split`. */
  function Join(parts: seq<string>, sep: string): string {
    if parts == [] then ""
    else if |parts| == 1 then parts[0]
    else parts[0] + sep + Join(parts[1..], sep)
  }

  lemma JoinCons(part: string, parts: seq<string>, sep: string)
    ensures Join([part], sep) == part
    ensures parts != [] ==> Join([part] + parts, sep) == part + sep + Join(parts, sep)
  {
    assert ([part] + parts)[1..] == parts;
  }

  lemma {:induction false} SplitPrefix(p: string, s: string, c: char)
    requires forall i :: 0 <= i < |p| ==> p[i] != c
    ensures Split(p + s, c) == [p + Split(s, c)[0]] + Split(s, c)[1..]
  {
    if p == "" {
      assert p + s == s && p + Split(s, c)[0] == Split(s, c)[0];
    } else {
      SplitPrefix(p[1..], s, c);
      assert (p + s)[1..] == p[1..] + s;
      assert [p[0]] + (p[1..] + Split(s, c)[0]) == p + Split(s, c)[0];
    }
  }

  /** Splitting joined pieces gives the pieces back. */
  lemma {:induction false} SplitJoin(parts: seq<string>, c: char)
    requires parts != []
    requires forall p, i :: p in parts && 0 <= i < |p| ==> p[i] != c
    ensures Split(Join(parts, [c]), c) == parts
  {
    var p := parts[0];
    assert p in parts;
    if |parts| == 1 {
      SplitPrefix(p, "", c);
      assert p + "" == p;
    } else {
      var tail := [c] + Join(parts[1..], [c]);
      SplitJoin(parts[1..], c);
      SplitPrefix(p, tail, c);
      assert tail[1..] == Join(parts[1..], [c]);
      assert Join(parts, [c]) == p + tail;
      assert p + "" == p;
    }
  }

  lemma SplitStep(s: string, c: char)
    requires s != ""
    ensures var rest := Split(s[1..], c);
            Split(s, c) == if s[0] == c then [""] + rest else [[s[0]] + rest[0]] + rest[1..]
  {
  }

  lemma SplitAtFront(q: string, c: char)
    ensures Split([c] + q, c) == [""] + Split(q, c) && Split("", c) == [""]
  {
    assert ([c] + q)[1..] == q;
  }

  lemma SplitNext(p: string, q: string, c: char)
    requires p != "" && Split(p[1..] + [c] + q, c) == Split(p[1..], c) + Split(q, c)
    ensures Split(p + [c] + q, c) == Split(p, c) + Split(q, c)
  {
    hide Split;
    var s := p + [c] + q;
    assert s[1..] == p[1..] + [c] + q && s[0] == p[0];
    SplitStep(s, c);
    SplitStep(p, c);
    Regrouped(p[0], c, Split(p[1..], c), Split(q, c));
  }

  lemma Regrouped(x: char, c: char, a: seq<string>, b: seq<string>)
    requires a != []
    ensures (if x == c then [""] + (a + b) else [[x] + (a + b)[0]] + (a + b)[1..])
         == (if x == c then [""] + a else [[x] + a[0]] + a[1..]) + b
  {
    assert (a + b)[1..] == a[1..] + b;
  }

  /** Splitting what two texts joined by the separator make splits each of them. */
  lemma {:induction false} SplitAppend(p: string, q: string, c: char)
    ensures Split(p + [c] + q, c) == Split(p, c) + Split(q, c)
  {
    hide Split;
    if p == "" {
      assert p + [c] + q == [c] + q;
      SplitAtFront(q, c);
    } else {
      SplitAppend(p[1..], q, c);
      SplitNext(p, q, c);
    }
  }

  lemma {:induction false} SplitWhole(p: string, c: char)
    requires c !in p
    ensures Split(p, c) == [p]
  {
    if p != "" {
      SplitWhole(p[1..], c);
      assert [p[0]] + p[1..] == p;
    }
  }

  // ----- Strings as code units -----

  /** The UTF-16 code units of a character: one, or a pair of surrogates. */
  function UnitsOf(c: char): seq<nat> {
    var n := c as int;
    if n < 0x1_0000 then [n] else [0xD800 + (n - 0x1_0000) / 0x400, 0xDC00 + (n - 0x1_0000) % 0x400]
  }

  function CodeUnits(s: string): seq<nat> {
    if s == "" then [] else UnitsOf(s[0]) + CodeUnits(s[1..])
  }

  /** `a < b` on strings, as the language defines it: lexicographic by code unit. */
  predicate UnitsLess(a: seq<nat>, b: seq<nat>) {
    if b == [] then false
    else if a == [] then true
    else if a[0] != b[0] then a[0] < b[0]
    else UnitsLess(a[1..], b[1..])
  }

  /** Where a character stands in the order of code units: those after the surrogates come last. */
  function Place(c: char): int {
    if 0xE000 <= c as int < 0x1_0000 then c as int + 0x11_0000 else c as int
  }

  /** `a < b` on strings: lexicographic by the places of their characters. */
  predicate StringLess(a: string, b: string) {
    if b == "" then false
    else if a == "" then true
    else if a[0] != b[0] then Place(a[0]) < Place(b[0])
    else StringLess(a[1..], b[1..])
  }

  lemma UnitsLessBehind(p: seq<nat>, a: seq<nat>, b: seq<nat>)
    requires 1 <= |p| <= 2
    ensures UnitsLess(p + a, p + b) <==> UnitsLess(a, b)
  {
    assert (p + a)[1..] == p[1..] + a && (p + b)[1..] == p[1..] + b;
    if |p| == 2 {
      assert (p[1..] + a)[1..] == a && (p[1..] + b)[1..] == b;
    } else {
      assert p[1..] + a == a && p[1..] + b == b;
    }
  }

  lemma UnitsLessAtOnce(c: char, d: char, a: seq<nat>, b: seq<nat>)
    requires c != d
    ensures UnitsLess(UnitsOf(c) + a, UnitsOf(d) + b) <==> Place(c) < Place(d)
  {
    var p, q := UnitsOf(c), UnitsOf(d);
    assert p[0] == (p + a)[0] && q[0] == (q + b)[0];
    if p[0] == q[0] {
      assert (p + a)[1..][0] == p[1] && (q + b)[1..][0] == q[1];
    }
  }

  /** Ordering strings by the places of their characters is ordering them by code units. */
  lemma {:induction false} StringLessIsUnitsLess(a: string, b: string)
    ensures StringLess(a, b) <==> UnitsLess(CodeUnits(a), CodeUnits(b))
  {
    if a != "" && b != "" {
      if a[0] == b[0] {
        UnitsLessBehind(UnitsOf(a[0]), CodeUnits(a[1..]), CodeUnits(b[1..]));
        StringLessIsUnitsLess(a[1..], b[1..]);
      } else {
        UnitsLessAtOnce(a[0], b[0], CodeUnits(a[1..]), CodeUnits(b[1..]));
      }
    }
  }

  lemma {:induction false} LessIrreflexive(a: string)
    ensures !StringLess(a, a)
  {
    if a != "" {
      LessIrreflexive(a[1..]);
    }
  }

  lemma {:induction false} LessTransitive(a: string, b: string, c: string)
    requires StringLess(a, b) && StringLess(b, c)
    ensures StringLess(a, c)
  {
    if a != "" && b != "" && c != "" && a[0] == b[0] == c[0] {
      LessTransitive(a[1..], b[1..], c[1..]);
    }
  }

  lemma {:induction false} LessTotal(a: string, b: string)
    requires a != b
    ensures StringLess(a, b) || StringLess(b, a)
  {
    if a != "" && b != "" && a[0] == b[0] {
      assert a == [a[0]] + a[1..] && b == [b[0]] + b[1..];
      LessTotal(a[1..], b[1..]);
    }
  }

  // ----- Numbers in strings -----

  function DigitValue(c: char): int {
    if '0' <= c <= '9' then c as int - '0' as int
    else if 'a' <= c <= 'f' then c as int - 'a' as int + 10
    else if 'A' <= c <= 'F' then c as int - 'A' as int + 10
    else 99
  }

  predicate DigitsIn(s: string, radix: int) {
    forall i :: 0 <= i < |s| ==> DigitValue(s[i]) < radix
  }

  function DigitsValue(s: string, radix: nat): (n: nat)
    requires DigitsIn(s, radix)
  {
    if s == "" then 0
    else
      assert 0 <= DigitValue(s[|s| - 1]);
      DigitsValue(s[..|s| - 1], radix) * radix + DigitValue(s[|s| - 1])
  }

  /** The number a string of decimal digits denotes. */
  function Decimal(s: string): (n: int)
    requires AllDigits(s)
    ensures n >= 0
  {
    DigitsValue(s, 10)
  }

  function Pow10(n: nat): (p: int)
    ensures p > 0
  {
    if n == 0 then 1 else 10 * Pow10(n - 1)
  }

  lemma DecimalIs(s: string, c: char)
    requires AllDigits(s) && IsDigit(c)
    ensures Decimal("") == 0 && AllDigits(s + [c]) && Decimal(s + [c]) == 10 * Decimal(s) + (c as int - '0' as int)
  {
    assert (s + [c])[..|s|] == s;
  }

  /** The digits of one number behind those of another. */
  lemma {:induction false} DecimalAppend(s: string, t: string)
    requires AllDigits(s) && AllDigits(t)
    ensures AllDigits(s + t) && Decimal(s + t) == Decimal(s) * Pow10(|t|) + Decimal(t)
  {
    if t == "" {
      assert s + t == s;
    } else {
      var n := |t| - 1;
      DecimalAppend(s, t[..n]);
      DecimalIs(s + t[..n], t[n]);
      DecimalIs(t[..n], t[n]);
      assert s + t[..n] + [t[n]] == s + t && t[..n] + [t[n]] == t;
      var power := Pow10(n);
      assert Decimal(s + t) == 10 * (Decimal(s) * power + Decimal(t[..n])) + (t[n] as int - '0' as int);
      assert 10 * (Decimal(s) * power) == Decimal(s) * (10 * power);
    }
  }

  function Radix(c: char): Option<nat> {
    if c == 'x' || c == 'X' then Some(16)
    else if c == 'o' || c == 'O' then Some(8)
    else if c == 'b' || c == 'B' then Some(2)
    else None
  }

  /** `0x1F`, `0o17`, `0b11` */
  function ParseRadix(s: string): Option<int> {
    if |s| > 2 && s[0] == '0' && Radix(s[1]).Some? && DigitsIn(s[2..], Radix(s[1]).value)
    then Some(DigitsValue(s[2..], Radix(s[1]).value))
    else None
  }

  predicate HasSign(s: string) {
    s != "" && (s[0] == '+' || s[0] == '-')
  }

  /** `BigInt(s)` for a string; None where it throws a SyntaxError. */
  function ParseBigInt(s: string): Option<int> {
    var t := Trim(s);
    if t == "" then Some(0)
    else if ParseRadix(t).Some? then ParseRadix(t)
    else
      var body := if HasSign(t) then t[1..] else t;
      if body != "" && AllDigits(body)
      then Some(if t[0] == '-' then -Decimal(body) else Decimal(body))
      else None
  }

  /** The length of the longest prefix of `s` whose characters are all in a class. */
  function Run(s: string, inClass: char -> bool): (n: nat)
    ensures n <= |s|
    ensures forall i :: 0 <= i < n ==> inClass(s[i])
    ensures n < |s| ==> !inClass(s[n])
  {
    if s != "" && inClass(s[0]) then 1 + Run(s[1..], inClass) else 0
  }

  lemma {:induction false} RunOf(v: string, s: string, inClass: char -> bool)
    requires forall i :: 0 <= i < |v| ==> inClass(v[i])
    requires s == "" || !inClass(s[0])
    ensures Run(v + s, inClass) == |v|
  {
    var n := Run(v + s, inClass);
    assert forall i :: 0 <= i < |v| ==> (v + s)[i] == v[i];
    assert s != "" ==> (v + s)[|v|] == s[0];
  }

  function DigitRun(s: string): (n: nat)
    ensures n <= |s|
    ensures AllDigits(s[..n])
  {
    Run(s, IsDigit)
  }

  /** The number a digit string denotes when read after the decimal point. */
  function Fraction(s: string): real
    requires AllDigits(s)
  {
    (Decimal(s) as real) / (Pow10(|s|) as real)
  }

  /** `parseFloat` on a text of digits and dots that starts with a digit: what follows a second dot is ignored. */
  function ParseFloat(s: string): real {
    var n := DigitRun(s);
    var whole := Decimal(s[..n]) as real;
    if n < |s| && s[n] == '.' then
      var m := DigitRun(s[n + 1..]);
      whole + Fraction(s[n + 1..][..m])
    else whole
  }

  /** A power of ten written after `e`: `[+-]?[0-9]+`. */
  function ParseExponent(s: string): Option<int> {
    var body := if HasSign(s) then s[1..] else s;
    if body != "" && AllDigits(body)
    then Some(if s[0] == '-' then -Decimal(body) else Decimal(body))
    else None
  }

  function Scale(r: real, e: int): real {
    if e >= 0 then r * (Pow10(e) as real) else r / (Pow10(-e) as real)
  }

  /** An unsigned decimal number: digits, an optional fraction, an optional exponent. */
  function ParseDecimal(s: string): Option<real> {
    var n := DigitRun(s);
    var dot := n < |s| && s[n] == '.';
    var m := if dot then DigitRun(s[n + 1..]) else 0;
    var after := if dot then n + 1 + m else n;
    var mantissa := (Decimal(s[..n]) as real) + (if dot then Fraction(s[n + 1..][..m]) else 0.0);
    if n + m == 0 then None
    else if after == |s| then Some(mantissa)
    else if s[after] == 'e' || s[after] == 'E' then
      match ParseExponent(s[after + 1..])
      case Some(e) => Some(Scale(mantissa, e))
      case None => None
    else None
  }

  /** `Number(s)` for a string; None for NaN. */
  function ParseNumber(s: string): Option<real> {
    var t := Trim(s);
    if t == "" then Some(0.0)
    else if ParseRadix(t).Some? then Some(ParseRadix(t).value as real)
    else
      match ParseDecimal(if HasSign(t) then t[1..] else t)
      case Some(r) => Some(if t[0] == '-' then -r else r)
      case None => None
  }

  predicate IsIntegral(r: real) {
    r == r.Floor as real
  }

  /** `BigInt(String(v))`; None where it throws. A number from 1e21 on prints with an exponent, an array
      prints as its elements joined by commas, an object as text that is no number. */
  function BigIntOf(v: Value): Option<int> {
    match v
    case Undefined => None
    case Null => None
    case Bool(_) => None
    case Num(r) =>
      if IsIntegral(r) && -1000000000000000000000.0 < r < 1000000000000000000000.0 then Some(r.Floor) else None
    case Big(n) => Some(n)
    case Str(s) => ParseBigInt(s)
    case Arr(_, elems) =>
      if elems == [] then Some(0)
      else if |elems| == 1 then (if elems[0].IsNullish() then Some(0) else BigIntOf(elems[0]))
      else None
    case Obj(_, _) => None
  }

  /** `Number(String(v))`; None for NaN. */
  function NumberOf(v: Value): Option<real> {
    match v
    case Undefined => None
    case Null => None
    case Bool(_) => None
    case Num(r) => Some(r)
    case Big(n) => Some(n as real)
    case Str(s) => ParseNumber(s)
    case Arr(_, elems) =>
      if elems == [] then Some(0.0)
      else if |elems| == 1 then (if elems[0].IsNullish() then Some(0.0) else NumberOf(elems[0]))
      else None
    case Obj(_, _) => None
  }

  function DigitChar(d: int): (c: char)
    requires 0 <= d < 10
    ensures IsDigit(c) && DigitValue(c) == d
  {
    (d + '0' as int) as char
  }

  function NatText(n: nat): (s: string)
    ensures s != "" && AllDigits(s)
    ensures Decimal(s) == n
  {
    if n < 10 then
      var s := [DigitChar(n)];
      assert s[..|s| - 1] == "" && DigitsValue("", 10) == 0;
      assert DigitsValue(s, 10) == n;
      s
    else
      var front := NatText(n / 10);
      var s := front + [DigitChar(n % 10)];
      assert s[..|s| - 1] == front && s[|s| - 1] == DigitChar(n % 10);
      assert DigitsValue(s, 10) == DigitsValue(front, 10) * 10 + n % 10;
      assert DigitsValue(front, 10) == Decimal(front);
      s
  }

  /** `String(n)` for a BigInt. */
  function IntText(n: int): string {
    if n < 0 then "-" + NatText(-n) else NatText(n)
  }

  lemma {:induction false} TrimDigits(s: string)
    requires s != "" && !IsSpace(s[0]) && !IsSpace(s[|s| - 1])
    ensures Trim(s) == s
  {
  }

  /** A string of digits is read as the decimal number it spells, whatever its leading zeros. */
  lemma BigIntOfDigits(s: string)
    requires s != "" && AllDigits(s)
    ensures BigIntOf(Str(s)) == Some(Decimal(s))
  {
    TrimDigits(s);
    assert |s| > 2 ==> IsDigit(s[1]);
  }

  /** Reading back the text of a BigInt gives the BigInt. */
  lemma BigIntOfText(n: int)
    ensures BigIntOf(Str(IntText(n))) == Some(n)
  {
    if n < 0 {
      var t := IntText(n);
      var body := NatText(-n);
      assert t[1..] == body && t[|t| - 1] == body[|body| - 1];
      TrimDigits(t);
    } else {
      BigIntOfDigits(NatText(n));
    }
  }

  // ----- Which integer a value stands for -----

  /** A text of digits, with a minus sign in front or not, and the integer it spells. */
  predicate Spells(s: string, n: int) {
    || (s != "" && AllDigits(s) && n == Decimal(s))
    || (|s| > 1 && s[0] == '-' && AllDigits(s[1..]) && n == -Decimal(s[1..]))
  }

  lemma SpelledIsRead(s: string, n: int)
    requires Spells(s, n)
    ensures ParseBigInt(s) == Some(n)
  {
    if s[0] == '-' {
      assert s[|s| - 1] == s[1..][|s| - 2];
      TrimDigits(s);
    } else {
      BigIntOfDigits(s);
    }
  }

  /** The integer a value stands for in the BigInt functions: none at all stands for zero, and so does an empty
      text. */
  predicate Denotes(v: Value, n: int) {
    match v
    case Undefined => n == 0
    case Null => n == 0
    case Big(m) => m == n
    case Num(r) => r == n as real && -1000000000000000000000.0 < r < 1000000000000000000000.0
    case Str(s) => (s == "" && n == 0) || Spells(s, n)
    case _ => false
  }

  predicate IsWordStart(c: char) {
    'a' <= c <= 'z' || 'A' <= c <= 'Z' || c == '_'
  }

  /** Values that stand for no integer, among them every text that starts like a word. */
  predicate DenotesNone(v: Value) {
    match v
    case Bool(_) => true
    case Obj(_, _) => true
    case Num(r) => r != r.Floor as real || r >= 1000000000000000000000.0 || r <= -1000000000000000000000.0
    case Str(s) => s != "" && IsWordStart(s[0])
    case Arr(_, elems) => |elems| > 1
    case _ => false
  }

  lemma {:induction false} TrimKeepsFirst(s: string)
    requires s != "" && !IsSpace(s[0])
    ensures TrimRight(s) != "" && TrimRight(s)[0] == s[0]
  {
    if IsSpace(s[|s| - 1]) {
      TrimKeepsFirst(s[..|s| - 1]);
    }
  }

  lemma WordIsNone(s: string)
    requires s != "" && IsWordStart(s[0])
    ensures ParseBigInt(s) == None
  {
    hide TrimRight;
    assert TrimLeft(s) == s;
    TrimKeepsFirst(s);
    var t := Trim(s);
    assert t[0] == s[0] && !IsDigit(t[0]);
  }

  lemma EmptyIsZero()
    ensures ParseBigInt("") == Some(0)
  {
  }

  lemma NoneIsRead(v: Value)
    requires DenotesNone(v)
    ensures !v.IsNullish() && BigIntOf(v) == None
  {
    hide ParseBigInt;
    if v.Str? {
      WordIsNone(v.s);
    }
  }

  lemma DenotedIsRead(v: Value, n: int)
    requires Denotes(v, n)
    ensures BigIntOf(OrElse(v, Num(0.0))) == Some(n)
    ensures v.IsNullish() || BigIntOf(v) == Some(n)
  {
    hide ParseBigInt;
    match v
    case Str(s) =>
      if s == "" {
        EmptyIsZero();
      } else {
        SpelledIsRead(s, n);
      }
    case _ =>
  }

  /** The text of an integer: its digits, without a leading zero, behind a minus sign if it is negative. */
  lemma IntTextIs(n: int)
    ensures Spells(IntText(n), n)
    ensures n >= 0 ==> IntText(n)[0] == '0' ==> IntText(n) == "0"
    ensures n < 0 ==> IntText(n)[0] == '-' && IntText(n)[1] != '0'
    ensures n == 0 ==> IntText(n) == "0"
  {
    hide Decimal;
    NoLeadingZero(if n < 0 then -n else n);
  }

  lemma {:induction false} NoLeadingZero(n: nat)
    ensures NatText(n)[0] == '0' <==> n == 0
    ensures n == 0 ==> NatText(n) == "0"
  {
    if n >= 10 {
      NoLeadingZero(n / 10);
      assert NatText(n)[0] == NatText(n / 10)[0];
    }
  }

  function Sum(ns: seq<int>): int {
    if ns == [] then 0 else ns[0] + Sum(ns[1..])
  }

  lemma {:induction false} SumSnoc(ns: seq<int>, n: int)
    ensures Sum(ns + [n]) == Sum(ns) + n
  {
    if ns == [] {
      assert ns + [n] == [n] && [n][1..] == [];
    } else {
      assert (ns + [n])[1..] == ns[1..] + [n];
      SumSnoc(ns[1..], n);
    }
  }

  /** Digits are read as the number they spell, too, and what starts like a word as none. */
  lemma NumberOfDigits(s: string)
    requires s != "" && AllDigits(s)
    ensures ParseNumber(s) == Some(Decimal(s) as real)
  {
    hide Decimal;
    TrimDigits(s);
    assert |s| > 2 ==> IsDigit(s[1]);
    assert s + "" == s && s[..|s|] == s;
    RunOf(s, "", IsDigit);
  }

  lemma NumberOfWord(s: string)
    requires s != "" && IsWordStart(s[0])
    ensures ParseNumber(s) == None
  {
    hide TrimRight;
    assert TrimLeft(s) == s;
    TrimKeepsFirst(s);
    var t := Trim(s);
    assert t[0] == s[0] && !IsDigit(t[0]);
  }

  // ----- Property access -----

  /** A property name that is an array index: digits without a leading zero. */
  predicate IsIndex(name: string) {
    name != "" && AllDigits(name) && (name[0] != '0' || name == "0")
  }

  /** `v[name]` on an object or array; other inherited properties are not modelled. */
  function Prop(v: Value, name: string): Value {
    match v
    case Obj(_, fields) => if name in fields then fields[name] else Undefined
    case Arr(_, elems) =>
      if name == "length" then Num(|elems| as real)
      else if IsIndex(name) && Decimal(name) < |elems| then elems[Decimal(name)]
      else Undefined
    case _ => Undefined
  }

  /** What a record holds under a name. */
  function Held(fields: map<string, Value>, name: string): Value {
    if name in fields then fields[name] else Undefined
  }

  /** `resolve`: follow property names, giving undefined as soon as a step is taken from a non-object. */
  function Resolve(v: Value, names: seq<string>): Value
    decreases |names|
  {
    if names == [] then v
    else if !v.IsObject() then Undefined
    else Resolve(Prop(v, names[0]), names[1..])
  }

  function ResolvePath(v: Value, path: string): Value {
    Resolve(v, Split(path, '.'))
  }

  function ResolveIn(data: Data, path: string): Value {
    ResolvePath(Obj(Fresh, data), path)
  }

  lemma {:induction false} ResolveAppend(v: Value, names: seq<string>, more: seq<string>)
    requires more != []
    ensures Resolve(v, names + more) == Resolve(Resolve(v, names), more)
    decreases |names|
  {
    if names == [] {
      assert names + more == more;
    } else {
      assert (names + more)[1..] == names[1..] + more;
      ResolveAppend(Prop(v, names[0]), names[1..], more);
    }
  }

  /** The loop of `resolve`. */
  method ResolveLoop(start: Value, path: string) returns (current: Value)
    ensures current == ResolvePath(start, path)
  {
    var parts := Split(path, '.');
    current := start;
    var i := 0;
    while i < |parts|
      invariant 0 <= i <= |parts|
      invariant Resolve(current, parts[i..]) == ResolvePath(start, path)
    {
      if !current.IsObject() {
        return Undefined;
      }
      assert parts[i..][1..] == parts[i + 1..];
      current := Prop(current, parts[i]);
      i := i + 1;
    }
  }
}
