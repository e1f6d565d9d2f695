/** Canonical JSON (section 3.2.3 of RFC 8785): object keys sorted by code units, no white space. Two values print
    the same exactly when they are equal up to the order of object keys. */
module CanonicalJson {
  import opened Values

  /** A number is represented by the text it prints as. The fields of an object are in insertion order. */
  datatype Json =
    | JNull
    | JBool(b: bool)
    | JNumber(text: string)
    | JString(s: string)
    | JArray(elems: seq<Json>)
    | JObject(fields: seq<(string, Json)>)

  function Keys(fields: seq<(string, Json)>): (ks: seq<string>)
    ensures |ks| == |fields|
    ensures forall i :: 0 <= i < |ks| ==> ks[i] == fields[i].0
  {
    seq(|fields|, i requires 0 <= i < |fields| => fields[i].0)
  }

  predicate Distinct(ks: seq<string>) {
    forall i, j :: 0 <= i < j < |ks| ==> ks[i] != ks[j]
  }

  function Lookup(fields: seq<(string, Json)>, k: string): (v: Json)
    requires k in Keys(fields)
    ensures (k, v) in fields
  {
    if fields[0].0 == k then
      assert fields[0] == (k, fields[0].1);
      fields[0].1
    else
      var i :| 0 <= i < |fields| && Keys(fields)[i] == k;
      assert Keys(fields[1..])[i - 1] == k;
      Lookup(fields[1..], k)
  }

  predicate IsNumberChar(c: char) {
    IsDigit(c) || c == '-' || c == '+' || c == '.' || c == 'e' || c == 'E'
  }

  predicate IsNumberText(s: string) {
    && s != "" && (IsDigit(s[0]) || s[0] == '-')
    && forall i :: 0 <= i < |s| ==> IsNumberChar(s[i])
  }

  /** Number texts are numbers, and no object has a key twice. */
  predicate WellFormed(v: Json) {
    match v
    case JNumber(text) => IsNumberText(text)
    case JArray(es) => forall i :: 0 <= i < |es| ==> WellFormed(es[i])
    case JObject(fs) => Distinct(Keys(fs)) && forall i :: 0 <= i < |fs| ==> WellFormed(fs[i].1)
    case _ => true
  }

  // ----- Sorting keys -----

  function Insert(k: string, ks: seq<string>): seq<string> {
    if ks == [] || StringLess(k, ks[0]) then [k] + ks else [ks[0]] + Insert(k, ks[1..])
  }

  function Sort(ks: seq<string>): (r: seq<string>)
  {
    if ks == [] then [] else Insert(ks[0], Sort(ks[1..]))
  }

  predicate Increasing(ks: seq<string>) {
    forall i, j :: 0 <= i < j < |ks| ==> StringLess(ks[i], ks[j])
  }

  lemma {:induction false} InsertKeeps(k: string, ks: seq<string>)
    requires Increasing(ks) && k !in ks
    ensures Increasing(Insert(k, ks))
    ensures forall x :: x in Insert(k, ks) <==> x == k || x in ks
  {
    hide StringLess;
    if ks == [] || StringLess(k, ks[0]) {
      forall i | 0 <= i < |ks| ensures StringLess(k, ks[i]) {
        if i > 0 {
          LessTransitive(k, ks[0], ks[i]);
        }
      }
    } else {
      LessTotal(k, ks[0]);
      InsertKeeps(k, ks[1..]);
      var r := Insert(k, ks[1..]);
      forall j | 0 <= j < |r| ensures StringLess(ks[0], r[j]) {
        assert r[j] in r;
      }
      assert ks == [ks[0]] + ks[1..];
    }
  }

  /** Sorting gives the same keys in increasing order. */
  lemma {:induction false} SortSorts(ks: seq<string>)
    requires Distinct(ks)
    ensures Increasing(Sort(ks))
    ensures forall i, j :: 0 <= i < j < |Sort(ks)| ==> UnitsLess(CodeUnits(Sort(ks)[i]), CodeUnits(Sort(ks)[j]))
    ensures forall x :: x in Sort(ks) <==> x in ks
  {
    hide StringLess, UnitsLess, CodeUnits;
    if ks != [] {
      SortSorts(ks[1..]);
      assert ks == [ks[0]] + ks[1..];
      InsertKeeps(ks[0], Sort(ks[1..]));
    }
    var r := Sort(ks);
    forall i, j | 0 <= i < j < |r| ensures UnitsLess(CodeUnits(r[i]), CodeUnits(r[j])) {
      StringLessIsUnitsLess(r[i], r[j]);
    }
  }

  /** There is one way only to put a set of keys in increasing order. */
  lemma {:induction false} IncreasingIsUnique(ks: seq<string>, ls: seq<string>)
    requires Increasing(ks) && Increasing(ls)
    requires forall x :: x in ks <==> x in ls
    ensures ks == ls
  {
    hide StringLess;
    assert ls != [] ==> ls[0] in ks;
    if ks != [] {
      assert ks[0] in ls;
      var i :| 0 <= i < |ls| && ls[i] == ks[0];
      var j :| 0 <= j < |ks| && ks[j] == ls[0];
      if i > 0 && j > 0 {
        LessTransitive(ls[0], ls[i], ks[j]);
        LessIrreflexive(ls[0]);
      }
      assert ks[0] == ls[0];
      forall x ensures x in ks[1..] <==> x in ls[1..] {
        RestKeys(ks, x);
        RestKeys(ls, x);
      }
      IncreasingIsUnique(ks[1..], ls[1..]);
      assert ks == [ks[0]] + ks[1..] && ls == [ls[0]] + ls[1..];
    }
  }

  lemma RestKeys(ks: seq<string>, x: string)
    requires ks != [] && Increasing(ks)
    ensures x in ks[1..] <==> x in ks && x != ks[0]
  {
    LessIrreflexive(x);
  }

  // ----- Printing -----

  function HexDigit(d: int): char
    requires 0 <= d < 16
  {
    if d < 10 then (d + '0' as int) as char else (d - 10 + 'a' as int) as char
  }

  /** A character of a string as `JSON.stringify` writes it. */
  function QuoteChar(c: char): string {
    var u := c as int;
    if c == '"' then ['\\', '"']
    else if c == '\\' then ['\\', '\\']
    else if u == 8 then ['\\', 'b']
    else if u == 9 then ['\\', 't']
    else if u == 10 then ['\\', 'n']
    else if u == 12 then ['\\', 'f']
    else if u == 13 then ['\\', 'r']
    else if u < 32 then ['\\', 'u', '0', '0', HexDigit(u / 16), HexDigit(u % 16)]
    else [c]
  }

  function QuoteChars(s: string): string {
    if s == "" then "" else QuoteChar(s[0]) + QuoteChars(s[1..])
  }

  function Quote(s: string): string {
    ['"'] + QuoteChars(s) + ['"']
  }

  /** Characters that are quoted as they are. */
  predicate IsPlain(s: string) {
    forall i :: 0 <= i < |s| ==> s[i] as int >= 32 && s[i] != '"' && s[i] != '\\'
  }

  lemma {:induction false} PlainIsQuoted(s: string)
    requires IsPlain(s)
    ensures Quote(s) == "\"" + s + "\""
  {
    PlainStays(s);
    assert ['"'] == "\"";
  }

  lemma {:induction false} PlainStays(s: string)
    requires IsPlain(s)
    ensures QuoteChars(s) == s
  {
    if s != "" {
      PlainStays(s[1..]);
      assert [s[0]] + s[1..] == s;
    }
  }

  /** What is not quoted as it is: a backslash and a letter for six characters, and four hexadecimal digits for the
      other control characters. */
  lemma EscapesAre(c: char)
    ensures QuoteChar('"') == "\\\"" && QuoteChar('\\') == "\\\\"
    ensures QuoteChar('\n') == "\\n" && QuoteChar('\r') == "\\r" && QuoteChar('\t') == "\\t"
    ensures QuoteChar('\U{8}') == "\\b" && QuoteChar('\U{C}') == "\\f"
    ensures c as int < 32 && c !in "\n\r\t\U{8}\U{C}" ==>
              QuoteChar(c) == "\\u00" + ["01"[c as int / 16], "0123456789abcdef"[c as int % 16]]
    ensures c as int >= 32 && c != '"' && c != '\\' ==> QuoteChar(c) == [c]
  {
  }

  function Canonical(v: Json): string
    decreases v, 0
  {
    match v
    case JNull => "null"
    case JBool(b) => if b then "true" else "false"
    case JNumber(text) => text
    case JString(s) => Quote(s)
    case JArray(es) => "[" + Join(Elements(v, es), ",") + "]"
    case JObject(fs) =>
      SortedAreKeys(Keys(fs));
      "{" + Join(Members(v, fs, Sort(Keys(fs))), ",") + "}"
  }

  function Elements(v: Json, es: seq<Json>): (r: seq<string>)
    requires v.JArray? && forall e :: e in es ==> e in v.elems
    ensures |r| == |es|
    decreases v, 0, |es|
  {
    if es == [] then [] else assert es[0] in v.elems; [Canonical(es[0])] + Elements(v, es[1..])
  }

  function Members(v: Json, fs: seq<(string, Json)>, ks: seq<string>): (r: seq<string>)
    requires v == JObject(fs) && forall k :: k in ks ==> k in Keys(fs)
    ensures |r| == |ks|
    decreases v, 0, |ks|
  {
    if ks == [] then []
    else
      var value := Lookup(fs, ks[0]);
      assert (ks[0], value) in fs;
      [Quote(ks[0]) + ":" + Canonical(value)] + Members(v, fs, ks[1..])
  }

  lemma ScalarTexts(text: string, s: string)
    ensures Canonical(JNull) == "null" && Canonical(JBool(true)) == "true" && Canonical(JBool(false)) == "false"
    ensures Canonical(JNumber(text)) == text && Canonical(JString(s)) == Quote(s)
  {
  }

  lemma {:induction false} ElementsAre(v: Json, es: seq<Json>, texts: seq<string>)
    requires v.JArray? && (forall e :: e in es ==> e in v.elems) && |texts| == |es|
    requires forall i :: 0 <= i < |es| ==> texts[i] == Canonical(es[i])
    ensures Elements(v, es) == texts
    decreases |es|
  {
    hide Canonical;
    if es != [] {
      ElementsAre(v, es[1..], texts[1..]);
    }
  }

  /** The text of an array: its elements' texts in order, with commas and no spaces between them. */
  lemma ArrayText(es: seq<Json>, texts: seq<string>)
    requires |texts| == |es| && forall i :: 0 <= i < |es| ==> texts[i] == Canonical(es[i])
    ensures Canonical(JArray(es)) == "[" + Join(texts, ",") + "]"
  {
    hide Join, Elements;
    ElementsAre(JArray(es), es, texts);
  }

  /** The members of an object are the texts of its keys and values, in the order of the keys given. */
  lemma {:induction false} MembersAre(v: Json, fs: seq<(string, Json)>, ks: seq<string>, texts: seq<string>)
    requires v == JObject(fs) && (forall k :: k in ks ==> k in Keys(fs)) && |texts| == |ks|
    requires forall i :: 0 <= i < |ks| ==> texts[i] == Quote(ks[i]) + ":" + Canonical(Lookup(fs, ks[i]))
    ensures Members(v, fs, ks) == texts
    decreases |ks|
  {
    hide Canonical, Quote, Lookup;
    if ks != [] {
      MembersAre(v, fs, ks[1..], texts[1..]);
    }
  }

  /** The text of an object whose keys, in increasing order, are `ks`. */
  lemma ObjectText(fs: seq<(string, Json)>, ks: seq<string>, texts: seq<string>)
    requires Distinct(Keys(fs)) && Increasing(ks) && (forall k :: k in ks <==> k in Keys(fs)) && |texts| == |ks|
    requires forall i :: 0 <= i < |ks| ==> texts[i] == Quote(ks[i]) + ":" + Canonical(Lookup(fs, ks[i]))
    ensures Canonical(JObject(fs)) == "{" + Join(texts, ",") + "}"
  {
    hide Quote, Lookup, Sort, Join, Increasing, Members;
    SortSorts(Keys(fs));
    IncreasingIsUnique(Sort(Keys(fs)), ks);
    MembersAre(JObject(fs), fs, ks, texts);
  }

  lemma {:induction false} SortedAreKeys(ks: seq<string>)
    ensures forall k :: k in Sort(ks) <==> k in ks
  {
    if ks != [] {
      SortedAreKeys(ks[1..]);
      InsertAdds(ks[0], Sort(ks[1..]));
      assert ks == [ks[0]] + ks[1..];
    }
  }

  lemma {:induction false} InsertAdds(k: string, ks: seq<string>)
    ensures forall x :: x in Insert(k, ks) <==> x == k || x in ks
  {
    if ks != [] && !StringLess(k, ks[0]) {
      InsertAdds(k, ks[1..]);
      assert ks == [ks[0]] + ks[1..];
    }
  }

  /** Equality up to the order of object keys. */
  predicate Equivalent(v: Json, w: Json)
    decreases v
  {
    match (v, w)
    case (JArray(es), JArray(fs)) =>
      |es| == |fs| && forall i :: 0 <= i < |es| ==> Equivalent(es[i], fs[i])
    case (JObject(fs), JObject(gs)) =>
      && (forall k :: k in Keys(fs) ==> k in Keys(gs))
      && (forall k :: k in Keys(gs) ==> k in Keys(fs))
      && forall k :: k in Keys(fs) ==> SameAt(v, fs, gs, k)
    case _ => v == w
  }

  predicate SameAt(v: Json, fs: seq<(string, Json)>, gs: seq<(string, Json)>, k: string)
    requires v == JObject(fs) && k in Keys(fs) && k in Keys(gs)
    decreases v, 0
  {
    assert (k, Lookup(fs, k)) in fs;
    Equivalent(Lookup(fs, k), Lookup(gs, k))
  }

  // ----- Reading back -----

  /** What may follow a value: nothing, or a character that ends a number. */
  predicate Ends(x: string) {
    x == "" || x[0] == ',' || x[0] == ']' || x[0] == '}'
  }

  lemma Cancel(a: string, x: string, y: string)
    requires a + x == a + y
    ensures x == y
  {
    assert x == (a + x)[|a|..] && y == (a + y)[|a|..];
  }

  /** The code of one character is not a prefix of the code of another. */
  lemma QuoteCharDecodes(c: char, d: char, x: string, y: string)
    requires QuoteChar(c) + x == QuoteChar(d) + y
    ensures c == d && x == y
  {
    var a, b := QuoteChar(c) + x, QuoteChar(d) + y;
    assert a[0] == QuoteChar(c)[0] && b[0] == QuoteChar(d)[0];
    if |QuoteChar(c)| > 1 && |QuoteChar(d)| > 1 {
      assert a[1] == QuoteChar(c)[1] && b[1] == QuoteChar(d)[1];
      if |QuoteChar(c)| == 6 {
        assert a[4] == QuoteChar(c)[4] && b[4] == QuoteChar(d)[4];
        assert a[5] == QuoteChar(c)[5] && b[5] == QuoteChar(d)[5];
        HexDigits(c as int, d as int);
      }
    }
    Cancel(QuoteChar(c), x, y);
  }

  lemma HexDigits(u: int, w: int)
    requires 0 <= u < 32 && 0 <= w < 32
    ensures HexDigit(u / 16) == HexDigit(w / 16) && HexDigit(u % 16) == HexDigit(w % 16) ==> u == w
  {
  }

  lemma QuoteCharStarts(c: char)
    ensures QuoteChar(c) != "" && QuoteChar(c)[0] != '"'
  {
  }

  lemma {:induction false} QuoteCharsDecode(s: string, t: string, x: string, y: string)
    requires QuoteChars(s) + (['"'] + x) == QuoteChars(t) + (['"'] + y)
    ensures s == t && x == y
  {
    hide QuoteChar;
    var a, b := QuoteChars(s) + (['"'] + x), QuoteChars(t) + (['"'] + y);
    if s != "" {
      QuoteCharStarts(s[0]);
      Assoc(QuoteChar(s[0]), QuoteChars(s[1..]), ['"'] + x);
      assert a[0] == QuoteChar(s[0])[0];
    } else {
      assert a == ['"'] + x;
    }
    if t != "" {
      QuoteCharStarts(t[0]);
      Assoc(QuoteChar(t[0]), QuoteChars(t[1..]), ['"'] + y);
      assert b[0] == QuoteChar(t[0])[0];
    } else {
      assert b == ['"'] + y;
    }
    if s == "" && t == "" {
      Cancel(['"'], x, y);
    } else {
      assert s != "" && t != "";
      QuoteCharDecodes(s[0], t[0], QuoteChars(s[1..]) + (['"'] + x), QuoteChars(t[1..]) + (['"'] + y));
      QuoteCharsDecode(s[1..], t[1..], x, y);
      assert s == [s[0]] + s[1..] && t == [t[0]] + t[1..];
    }
  }

  /** A quoted string ends where it seems to end. */
  lemma QuoteDecodes(s: string, t: string, x: string, y: string)
    requires Quote(s) + x == Quote(t) + y
    ensures s == t && x == y
  {
    hide QuoteChars;
    Assoc(['"'] + QuoteChars(s), ['"'], x);
    Assoc(['"'] + QuoteChars(t), ['"'], y);
    Assoc(['"'], QuoteChars(s), ['"'] + x);
    Assoc(['"'], QuoteChars(t), ['"'] + y);
    Cancel(['"'], QuoteChars(s) + (['"'] + x), QuoteChars(t) + (['"'] + y));
    QuoteCharsDecode(s, t, x, y);
  }

  lemma NumberDecodes(s: string, t: string, x: string, y: string)
    requires IsNumberText(s) && IsNumberText(t) && Ends(x) && Ends(y) && s + x == t + y
    ensures s == t && x == y
  {
    RunOf(s, x, IsNumberChar);
    RunOf(t, y, IsNumberChar);
    assert s == (s + x)[..|s|] && t == (t + y)[..|t|];
    Cancel(s, x, y);
  }

  datatype Shape = NullShape | TrueShape | FalseShape | NumberShape | StringShape | ArrayShape | ObjectShape

  function ShapeOf(v: Json): Shape {
    match v
    case JNull => NullShape
    case JBool(b) => if b then TrueShape else FalseShape
    case JNumber(_) => NumberShape
    case JString(_) => StringShape
    case JArray(_) => ArrayShape
    case JObject(_) => ObjectShape
  }

  predicate Starts(shape: Shape, c: char) {
    match shape
    case NullShape => c == 'n'
    case TrueShape => c == 't'
    case FalseShape => c == 'f'
    case NumberShape => IsDigit(c) || c == '-'
    case StringShape => c == '"'
    case ArrayShape => c == '['
    case ObjectShape => c == '{'
  }

  /** The first character of a text tells the kind of the value. */
  lemma StartsAs(v: Json, x: string)
    requires WellFormed(v)
    ensures Canonical(v) != "" && Starts(ShapeOf(v), (Canonical(v) + x)[0])
  {
    match v
    case JArray(es) => assert Canonical(v)[0] == '[';
    case JObject(fs) => assert Canonical(v)[0] == '{';
    case _ =>
  }

  function After(parts: seq<string>, z: string): string {
    if parts == [] then z else [','] + (Join(parts, ",") + z)
  }

  lemma JoinHead(parts: seq<string>, z: string)
    requires parts != []
    ensures Join(parts, ",") + z == parts[0] + After(parts[1..], z)
  {
    if |parts| > 1 {
      assert "," == [','];
      Assoc(parts[0] + ",", Join(parts[1..], ","), z);
      Assoc(parts[0], [','], Join(parts[1..], ",") + z);
    }
  }

  /** If what follows two lists' first parts is the same, so are the lists' rests, as texts. */
  lemma AfterDecodes(ps: seq<string>, qs: seq<string>, c: char, x: string, y: string)
    requires c != ',' && After(ps, [c] + x) == After(qs, [c] + y)
    ensures ps == [] <==> qs == []
    ensures Join(ps, ",") + ([c] + x) == Join(qs, ",") + ([c] + y)
  {
    var a, b := After(ps, [c] + x), After(qs, [c] + y);
    assert a[0] == (if ps == [] then c else ',') && b[0] == (if qs == [] then c else ',');
    if ps != [] {
      Cancel([','], Join(ps, ",") + ([c] + x), Join(qs, ",") + ([c] + y));
    }
  }

  lemma Bracketed(c: char, list: string, d: char, x: string)
    ensures [c] + list + [d] + x == [c] + (list + ([d] + x))
  {
  }

  /** Reading is unique: equal texts, each followed by something that ends a value, come from equivalent values
      and equal continuations. */
  lemma {:induction false} CanonicalDecodes(v: Json, w: Json, x: string, y: string)
    requires WellFormed(v) && WellFormed(w) && Ends(x) && Ends(y)
    requires Canonical(v) + x == Canonical(w) + y
    ensures Equivalent(v, w) && x == y
    decreases v, 1
  {
    hide Elements, Members, Quote, Join, IsNumberText, Sort;
    StartsAs(v, x);
    StartsAs(w, y);
    match v
    case JNull => Cancel("null", x, y);
    case JBool(b) => Cancel(Canonical(v), x, y);
    case JNumber(text) => NumberDecodes(text, w.text, x, y);
    case JString(s) => QuoteDecodes(s, w.s, x, y);
    case JArray(es) =>
      var list, other := Join(Elements(v, es), ","), Join(Elements(w, w.elems), ",");
      assert "[" == ['['] && "]" == [']'];
      Bracketed('[', list, ']', x);
      Bracketed('[', other, ']', y);
      Cancel(['['], list + ([']'] + x), other + ([']'] + y));
      ElementsDecode(v, es, w, w.elems, x, y);
    case JObject(fs) =>
      var gs := w.fields;
      SortedAreKeys(Keys(fs));
      SortedAreKeys(Keys(gs));
      var list, other := Join(Members(v, fs, Sort(Keys(fs))), ","), Join(Members(w, gs, Sort(Keys(gs))), ",");
      assert "{" == ['{'] && "}" == ['}'];
      Bracketed('{', list, '}', x);
      Bracketed('{', other, '}', y);
      Cancel(['{'], list + (['}'] + x), other + (['}'] + y));
      MembersDecode(v, fs, Sort(Keys(fs)), w, gs, Sort(Keys(gs)), x, y);
  }

  lemma {:induction false} ElementsDecode(v: Json, es: seq<Json>, w: Json, fs: seq<Json>, x: string, y: string)
    requires v.JArray? && (forall e :: e in es ==> e in v.elems) && w.JArray? && (forall f :: f in fs ==> f in w.elems)
    requires WellFormed(v) && WellFormed(w)
    requires Join(Elements(v, es), ",") + ([']'] + x) == Join(Elements(w, fs), ",") + ([']'] + y)
    ensures |es| == |fs| && (forall i :: 0 <= i < |es| ==> Equivalent(es[i], fs[i])) && x == y
    decreases v, 0, |es|
  {
    hide Canonical, Equivalent, Join;
    var ps, qs := Elements(v, es), Elements(w, fs);
    var a, b := Join(ps, ",") + ([']'] + x), Join(qs, ",") + ([']'] + y);
    JoinNone(ps, [']'] + x);
    JoinNone(qs, [']'] + y);
    if es != [] {
      assert es[0] in v.elems;
      JoinHead(ps, [']'] + x);
      StartsAs(es[0], After(ps[1..], [']'] + x));
    }
    if fs != [] {
      assert fs[0] in w.elems;
      JoinHead(qs, [']'] + y);
      StartsAs(fs[0], After(qs[1..], [']'] + y));
    }
    if es == [] && fs == [] {
      Cancel([']'], x, y);
    } else {
      assert es != [] && fs != [];
      assert ps[1..] == Elements(v, es[1..]) && qs[1..] == Elements(w, fs[1..]);
      CanonicalDecodes(es[0], fs[0], After(ps[1..], [']'] + x), After(qs[1..], [']'] + y));
      AfterDecodes(ps[1..], qs[1..], ']', x, y);
      ElementsDecode(v, es[1..], w, fs[1..], x, y);
    }
  }

  lemma JoinNone(ps: seq<string>, z: string)
    ensures ps == [] ==> Join(ps, ",") + z == z
  {
  }

  lemma {:induction false} MembersDecode(v: Json, fs: seq<(string, Json)>, ks: seq<string>,
                                         w: Json, gs: seq<(string, Json)>, ls: seq<string>, x: string, y: string)
    requires v == JObject(fs) && (forall k :: k in ks ==> k in Keys(fs))
    requires w == JObject(gs) && (forall l :: l in ls ==> l in Keys(gs))
    requires WellFormed(v) && WellFormed(w)
    requires Join(Members(v, fs, ks), ",") + (['}'] + x) == Join(Members(w, gs, ls), ",") + (['}'] + y)
    ensures ks == ls && (forall k :: k in ks ==> SameAt(v, fs, gs, k)) && x == y
    decreases v, 0, |ks|
  {
    hide Canonical, Equivalent, Join, Quote, Keys;
    var ps, qs := Members(v, fs, ks), Members(w, gs, ls);
    JoinNone(ps, ['}'] + x);
    JoinNone(qs, ['}'] + y);
    if ks != [] {
      JoinHead(ps, ['}'] + x);
      MemberText(v, fs, ks[0], After(ps[1..], ['}'] + x));
    }
    if ls != [] {
      JoinHead(qs, ['}'] + y);
      MemberText(w, gs, ls[0], After(qs[1..], ['}'] + y));
    }
    if ks == [] && ls == [] {
      Cancel(['}'], x, y);
    } else {
      assert ks != [] && ls != [];
      var k := ks[0];
      var value, other := Lookup(fs, k), Lookup(gs, ls[0]);
      var x1, y1 := After(ps[1..], ['}'] + x), After(qs[1..], ['}'] + y);
      QuoteDecodes(k, ls[0], [':'] + (Canonical(value) + x1), [':'] + (Canonical(other) + y1));
      Cancel([':'], Canonical(value) + x1, Canonical(other) + y1);
      WellFormedAt(fs, k);
      WellFormedAt(gs, k);
      assert (k, value) in fs;
      CanonicalDecodes(value, other, x1, y1);
      assert ps[1..] == Members(v, fs, ks[1..]) && qs[1..] == Members(w, gs, ls[1..]);
      AfterDecodes(ps[1..], qs[1..], '}', x, y);
      MembersDecode(v, fs, ks[1..], w, gs, ls[1..], x, y);
      assert ks == [k] + ks[1..] && ls == [k] + ls[1..];
    }
  }

  lemma WellFormedAt(fs: seq<(string, Json)>, k: string)
    requires WellFormed(JObject(fs)) && k in Keys(fs)
    ensures WellFormed(Lookup(fs, k))
  {
    var i :| 0 <= i < |fs| && fs[i] == (k, Lookup(fs, k));
  }

  lemma MemberText(v: Json, fs: seq<(string, Json)>, k: string, z: string)
    requires v == JObject(fs) && k in Keys(fs)
    ensures Quote(k) + ":" + Canonical(Lookup(fs, k)) + z == Quote(k) + ([':'] + (Canonical(Lookup(fs, k)) + z))
    ensures Quote(k)[0] == '"' && (Quote(k) + ([':'] + (Canonical(Lookup(fs, k)) + z)))[0] == '"'
  {
    hide Canonical, Keys;
    assert ":" == [':'];
    Assoc(Quote(k) + [':'], Canonical(Lookup(fs, k)), z);
    Assoc(Quote(k), [':'], Canonical(Lookup(fs, k)) + z);
  }

  // ----- Equivalent values print the same -----

  lemma {:induction false} EquivalentPrintsSame(v: Json, w: Json)
    requires WellFormed(v) && WellFormed(w) && Equivalent(v, w)
    ensures Canonical(v) == Canonical(w)
    decreases v, 1
  {
    match v
    case JArray(es) => ElementsPrintSame(v, es, w, w.elems);
    case JObject(fs) =>
      var gs := w.fields;
      SortSorts(Keys(fs));
      SortSorts(Keys(gs));
      IncreasingIsUnique(Sort(Keys(fs)), Sort(Keys(gs)));
      MembersPrintSame(v, fs, w, gs, Sort(Keys(fs)));
    case _ =>
  }

  lemma {:induction false} ElementsPrintSame(v: Json, es: seq<Json>, w: Json, fs: seq<Json>)
    requires v.JArray? && (forall e :: e in es ==> e in v.elems) && w.JArray? && (forall f :: f in fs ==> f in w.elems)
    requires WellFormed(v) && WellFormed(w)
    requires |es| == |fs| && forall i :: 0 <= i < |es| ==> Equivalent(es[i], fs[i])
    ensures Elements(v, es) == Elements(w, fs)
    decreases v, 0, |es|
  {
    hide Canonical;
    if es != [] {
      assert es[0] in v.elems && fs[0] in w.elems;
      EquivalentPrintsSame(es[0], fs[0]);
      ElementsPrintSame(v, es[1..], w, fs[1..]);
    }
  }

  lemma {:induction false} MembersPrintSame(v: Json, fs: seq<(string, Json)>, w: Json, gs: seq<(string, Json)>,
                                            ks: seq<string>)
    requires v == JObject(fs) && w == JObject(gs) && WellFormed(v) && WellFormed(w)
    requires forall k :: k in ks ==> k in Keys(fs) && k in Keys(gs) && SameAt(v, fs, gs, k)
    ensures Members(v, fs, ks) == Members(w, gs, ks)
    decreases v, 0, |ks|
  {
    hide Canonical, Keys;
    if ks != [] {
      var k := ks[0];
      assert (k, Lookup(fs, k)) in fs;
      WellFormedAt(fs, k);
      WellFormedAt(gs, k);
      assert SameAt(v, fs, gs, k);
      EquivalentPrintsSame(Lookup(fs, k), Lookup(gs, k));
      MembersPrintSame(v, fs, w, gs, ks[1..]);
    }
  }

  /** Canonical JSON decides equality up to key order. */
  lemma CanonicalIsCanonical(v: Json, w: Json)
    requires WellFormed(v) && WellFormed(w)
    ensures Canonical(v) == Canonical(w) <==> Equivalent(v, w)
  {
    if Canonical(v) == Canonical(w) {
      CanonicalDecodes(v, w, "", "");
    }
    if Equivalent(v, w) {
      EquivalentPrintsSame(v, w);
    }
  }
}
