/** The tokens of a text: white space between symbols means nothing, and what is no symbol is reported where it stands.
    So the space that printing leaves is one way of laying a tree out among many. */
module Spacing {
  import opened Results
  import opened Values
  import opened Tokenizer
  import opened Syntax
  import opened Evaluator
  import opened Grammar
  import opened Printing
  import opened RoundTrip
  import opened Acceptance

  // ----- Symbols laid out with any white space -----

  predicate IsBlank(s: string) {
    forall i :: 0 <= i < |s| ==> IsSpace(s[i])
  }

  /** The symbols, with these gaps in front of each of them and behind the last. */
  function Laid(ts: seq<Symbol>, gaps: seq<string>): string
    requires |gaps| == |ts| + 1
  {
    if ts == [] then gaps[0] else gaps[0] + (Spell(ts[0]) + Laid(ts[1..], gaps[1..]))
  }

  /** The gaps are white space, and not missing where two symbols would run into each other. A dot never follows a
      number: with a digit behind it, it would become part of the number even across white space. */
  predicate Parted(ts: seq<Symbol>, gaps: seq<string>) {
    && |gaps| == |ts| + 1
    && (forall i :: 0 <= i < |gaps| ==> IsBlank(gaps[i]))
    && (forall i :: 0 <= i < |ts| ==> Spellable(ts[i]))
    && forall i :: 0 <= i < |ts| - 1 ==>
         && (gaps[i + 1] != "" || Ends(ts[i], Spell(ts[i + 1])))
         && (ts[i].Number? ==> !ts[i + 1].Dot?)
  }

  /** The tokens of the layout: each at the offset at which its symbol stands. */
  function TokensLaid(ts: seq<Symbol>, gaps: seq<string>, off: nat): seq<Token>
    requires |gaps| == |ts| + 1
  {
    if ts == [] then []
    else
      var at := off + |gaps[0]|;
      [Token(ts[0], at)] + TokensLaid(ts[1..], gaps[1..], at + |Spell(ts[0])|)
  }

  lemma PartedSize(ts: seq<Symbol>, gaps: seq<string>)
    requires Parted(ts, gaps)
    ensures |gaps| == |ts| + 1
  {
  }

  lemma LexOneSpace(c: char, s: string, off: nat, tokens: seq<Token>)
    requires IsSpace(c)
    ensures Lex([c] + s, off, tokens) == Lex(s, off + 1, tokens)
  {
    assert ([c] + s)[1..] == s;
  }

  lemma {:induction false} LexBlank(gap: string, s: string, off: nat, tokens: seq<Token>)
    requires IsBlank(gap)
    ensures Lex(gap + s, off, tokens) == Lex(s, off + |gap|, tokens)
  {
    hide Lex, IsSpace;
    if gap == "" {
      assert gap + s == s;
    } else {
      assert gap + s == [gap[0]] + (gap[1..] + s);
      LexOneSpace(gap[0], gap[1..] + s, off, tokens);
      LexBlank(gap[1..], s, off + 1, tokens);
    }
  }

  /** Nothing runs into white space. */
  lemma SpaceEnds(t: Symbol, s: string)
    requires s != "" && IsSpace(s[0])
    ensures Ends(t, s)
  {
  }

  lemma EndsFirst(t: Symbol, u: string, s: string)
    requires Ends(t, u) && u != ""
    ensures Ends(t, u + s)
  {
    assert (u + s)[0] == u[0];
  }

  lemma SpellIsSome(t: Symbol)
    requires Spellable(t)
    ensures Spell(t) != ""
  {
  }

  /** What follows the first symbol does not run into it. */
  lemma FirstEnds(ts: seq<Symbol>, gaps: seq<string>, s: string)
    requires ts != [] && Parted(ts, gaps) && Ends(ts[|ts| - 1], gaps[|ts|] + s)
    ensures Ends(ts[0], Laid(ts[1..], gaps[1..]) + s)
  {
    hide Spell, Spellable, Ends, IsSpace;
    var gap, rest := gaps[1], ts[1..];
    assert gaps[1..][0] == gap;
    if rest == [] {
      assert Laid(rest, gaps[1..]) == gap;
    } else {
      assert rest[0] == ts[1];
      SpellIsSome(ts[1]);
      var tail := Laid(rest[1..], gaps[1..][1..]);
      assert Laid(rest, gaps[1..]) == gap + (Spell(ts[1]) + tail);
      if gap == "" {
        assert Laid(rest, gaps[1..]) + s == Spell(ts[1]) + (tail + s);
        EndsFirst(ts[0], Spell(ts[1]), tail + s);
      } else {
        SpaceEnds(ts[0], Laid(rest, gaps[1..]) + s);
      }
    }
  }

  lemma PartedTail(ts: seq<Symbol>, gaps: seq<string>)
    requires ts != [] && Parted(ts, gaps)
    ensures Parted(ts[1..], gaps[1..])
  {
    hide IsBlank, Spellable, Ends;
    var us, hs := ts[1..], gaps[1..];
    forall i | 0 <= i < |us| - 1
      ensures (hs[i + 1] != "" || Ends(us[i], Spell(us[i + 1]))) && (us[i].Number? ==> !us[i + 1].Dot?)
    {
      assert us[i] == ts[i + 1] && us[i + 1] == ts[i + 2] && hs[i + 1] == gaps[i + 2];
    }
  }

  /** Symbols laid out in any way are read back as themselves, each at its offset, in front of any text that does not
      run into the last of them. */
  lemma {:induction false} LexLaid(ts: seq<Symbol>, gaps: seq<string>, s: string, off: nat, tokens: seq<Token>)
    requires Parted(ts, gaps) && (ts != [] ==> Ends(ts[|ts| - 1], gaps[|ts|] + s))
    requires ts != [] && ts[0].Dot? ==> !EndsInNumber(tokens)
    ensures Lex(Laid(ts, gaps) + s, off, tokens)
         == Lex(s, off + |Laid(ts, gaps)|, tokens + TokensLaid(ts, gaps, off))
    decreases |ts|
  {
    hide Lex, Spell, Ends, Spellable, IsBlank, Laid, TokensLaid;
    LaidStep(ts, gaps, off);
    var gap := gaps[0];
    if ts == [] {
      LexBlank(gap, s, off, tokens);
      assert tokens + [] == tokens;
    } else {
      var t, at, rest := ts[0], off + |gap|, Laid(ts[1..], gaps[1..]);
      var tail := rest + s;
      Assoc(gap, Spell(t) + rest, s);
      Assoc(Spell(t), rest, s);
      LexBlank(gap, Spell(t) + tail, off, tokens);
      FirstEnds(ts, gaps, s);
      LexSpelled(t, tail, at, tokens);
      PartedTail(ts, gaps);
      var next := tokens + [Token(t, at)];
      assert |ts| > 1 ==> ts[1..][|ts| - 2] == ts[|ts| - 1] && gaps[1..][|ts| - 1] == gaps[|ts|];
      var others := TokensLaid(ts[1..], gaps[1..], at + |Spell(t)|);
      LexLaid(ts[1..], gaps[1..], s, at + |Spell(t)|, next);
      assert next + others == tokens + ([Token(t, at)] + others);
    }
  }

  lemma LaidStep(ts: seq<Symbol>, gaps: seq<string>, off: nat)
    requires |gaps| == |ts| + 1
    ensures ts == [] ==> Laid(ts, gaps) == gaps[0] && TokensLaid(ts, gaps, off) == []
    ensures ts != [] ==>
              var v, at := Spell(ts[0]), off + |gaps[0]|;
              && Laid(ts, gaps) == gaps[0] + (v + Laid(ts[1..], gaps[1..]))
              && TokensLaid(ts, gaps, off) == [Token(ts[0], at)] + TokensLaid(ts[1..], gaps[1..], at + |v|)
  {
    hide Spell;
  }

  lemma {:induction false} SymbolsLaid(ts: seq<Symbol>, gaps: seq<string>, off: nat)
    requires |gaps| == |ts| + 1
    ensures Symbols(TokensLaid(ts, gaps, off)) == ts
  {
    hide TokensLaid, Spell, Symbols;
    LaidStep(ts, gaps, off);
    SymbolsCons(Token(Dot, 0), []);
    if ts != [] {
      var at := off + |gaps[0]|;
      var rest := TokensLaid(ts[1..], gaps[1..], at + |Spell(ts[0])|);
      SymbolsLaid(ts[1..], gaps[1..], at + |Spell(ts[0])|);
      SymbolsCons(Token(ts[0], at), rest);
    }
  }

  lemma SymbolsCons(token: Token, rest: seq<Token>)
    ensures Symbols([token] + rest) == [token.sym] + Symbols(rest)
    ensures Symbols([]) == []
  {
  }

  lemma LaidTokens(ts: seq<Symbol>, gaps: seq<string>)
    requires Parted(ts, gaps)
    ensures Lex(Laid(ts, gaps), 0, []) == Success(TokensLaid(ts, gaps, 0))
    ensures Symbols(TokensLaid(ts, gaps, 0)) == ts
  {
    hide Lex, Ends, Laid, TokensLaid;
    assert ts != [] ==> Ends(ts[|ts| - 1], gaps[|ts|] + "") by {
      if ts != [] && gaps[|ts|] != "" {
        SpaceEnds(ts[|ts| - 1], gaps[|ts|] + "");
      } else if ts != [] {
        NothingEnds(ts[|ts| - 1]);
      }
    }
    LexLaid(ts, gaps, "", 0, []);
    assert Laid(ts, gaps) + "" == Laid(ts, gaps);
    assert [] + TokensLaid(ts, gaps, 0) == TokensLaid(ts, gaps, 0);
    LexEmpty(|Laid(ts, gaps)|, TokensLaid(ts, gaps, 0));
    SymbolsLaid(ts, gaps, 0);
  }

  lemma NothingEnds(t: Symbol)
    ensures Ends(t, "") && Ends(t, "" + "")
  {
  }

  /** However a tree's symbols are laid out, the text evaluates as the text of the tree does, and the validator accepts
      both or neither. */
  lemma SpaceMeansNothing(e: Expr, gaps: seq<string>, data: Data)
    requires HasText(e) && Parted(ShowAt(e, 0, []), gaps)
    ensures var text := Laid(ShowAt(e, 0, []), gaps);
            && Evaluate(text, data) == Evaluate(TextOf(e), data)
            && (Validate(text).Valid? <==> Validate(TextOf(e)).Valid?)
  {
    hide HasText, Parted, Laid, Lex, ShowAt, TextOf, ReadExpr, CheckExpr;
    TextTokens(e);
    LaidTokens(ShowAt(e, 0, []), gaps);
  }

  // ----- What is no symbol -----

  /** The characters that can start a symbol or stand between symbols; `=`, `&` and `|` only in pairs. */
  predicate IsKnown(c: char) {
    'a' <= c <= 'z' || 'A' <= c <= 'Z' || '0' <= c <= '9' || c in "_.'<>!()[],=&|" || IsSpace(c)
  }

  lemma LexUnknown(c: char, s: string, off: nat, tokens: seq<Token>)
    requires !IsKnown(c) || (c in "=&|" && (s == "" || s[0] !in "=&|>")) || (c == '=' && s != "" && s[0] in "&|")
    ensures Lex([c] + s, off, tokens) == Failure(UnexpectedCharacter(c, off))
  {
    hide ScanText, Run;
    assert c in "=&|" ==> !IsSpace(c);
    hide IsSpace;
    var text := [c] + s;
    assert text[0] == c && (s != "" ==> text[1] == s[0]);
    assert LexStep(text, off, tokens) == Stop(UnexpectedCharacter(c, off));
  }

  /** Behind any expression, a character that belongs to no symbol is an error at its offset, for both parsers, and
      whatever follows it. */
  lemma StrayCharacter(e: Expr, gaps: seq<string>, c: char, s: string, data: Data)
    requires HasText(e) && Parted(ShowAt(e, 0, []), gaps) && !IsKnown(c)
    ensures var before := Laid(ShowAt(e, 0, []), gaps);
            var error := Lexical(UnexpectedCharacter(c, |before|));
            && Evaluate(before + ([c] + s), data) == Failure(error)
            && Validate(before + ([c] + s)) == Invalid(error, |before|)
  {
    hide HasText, Parted, Laid, Lex, ShowAt;
    var ts := ShowAt(e, 0, []);
    PartedSize(ts, gaps);
    UnknownEnds(ts, gaps, c, s);
    LaidBefore(e, gaps, [c] + s);
    LexUnknown(c, s, |Laid(ts, gaps)|, TokensLaid(ts, gaps, 0));
  }

  lemma UnknownEnds(ts: seq<Symbol>, gaps: seq<string>, c: char, s: string)
    requires Parted(ts, gaps) && (!IsKnown(c) || c == '\'')
    ensures ts != [] ==> Ends(ts[|ts| - 1], gaps[|ts|] + ([c] + s))
  {
    if ts != [] {
      var gap := gaps[|ts|];
      if gap == "" {
        assert gap + ([c] + s) == [c] + s;
      } else {
        SpaceEnds(ts[|ts| - 1], gap + ([c] + s));
      }
    }
  }

  lemma LaidBefore(e: Expr, gaps: seq<string>, s: string)
    requires HasText(e) && Parted(ShowAt(e, 0, []), gaps)
    requires var ts := ShowAt(e, 0, []); ts != [] ==> Ends(ts[|ts| - 1], gaps[|ts|] + s)
    ensures var ts := ShowAt(e, 0, []);
            Lex(Laid(ts, gaps) + s, 0, []) == Lex(s, |Laid(ts, gaps)|, TokensLaid(ts, gaps, 0))
  {
    hide HasText, Parted, Laid, Lex, ShowAt, TokensLaid;
    var ts := ShowAt(e, 0, []);
    PartedSize(ts, gaps);
    LexLaid(ts, gaps, s, 0, []);
    assert [] + TokensLaid(ts, gaps, 0) == TokensLaid(ts, gaps, 0);
  }

  // ----- Quoted text and numbers as they are written -----

  /** There is no quote in `v`, and no backslash in front of one or of another backslash, or at the end. */
  predicate IsPlainText(v: string) {
    v != "" ==> v[0] != '\'' && (v[0] == '\\' ==> |v| > 1 && v[1] != '\\') && IsPlainText(v[1..])
  }

  lemma {:induction false} ScanPlain(v: string, s: string, acc: string)
    requires IsPlainText(v)
    ensures ScanText(v + ("'" + s), acc) == Some((acc + v, s))
    decreases |v|
  {
    var text := v + ("'" + s);
    if v == "" {
      assert text == "'" + s && text[1..] == s && acc + v == acc;
    } else {
      assert text[0] == v[0] && text[1..] == v[1..] + ("'" + s);
      assert |v| > 1 ==> text[1] == v[1];
      assert |v| > 1 ==> v[1..][0] == v[1];
      ScanPlain(v[1..], s, acc + [v[0]]);
      assert acc + [v[0]] + v[1..] == acc + v;
    }
  }

  lemma {:induction false} ScanToEnd(v: string, acc: string)
    requires forall i :: 0 <= i < |v| ==> v[i] != '\''
    ensures ScanText(v, acc).None?
    decreases |v|
  {
    if v != "" {
      ScanToEnd(v[1..], acc + [v[0]]);
      if IsEscape(v) {
        ScanToEnd(v[2..], acc + [v[1]]);
      }
    }
  }

  /** A backslash in front of any other character than a quote or a backslash stands for itself. */
  lemma QuotedTextIsRead(v: string, data: Data)
    requires IsPlainText(v)
    ensures Evaluate("'" + v + "'", data) == Success(Str(v))
    ensures Validate("'" + v + "'").Valid?
  {
    hide IsPlainText, Lex, ReadExpr, CheckExpr, FitsExpr, CheckableExpr;
    QuotedTokens(v);
    QuotedFits(v);
    assert Symbols([Token(Text(v), 0)]) == ShowAt(TextLit(v), 0, []);
    TextTokens(TextLit(v));
    TextMeansTree(TextLit(v), data);
    CheckableTreesAreValid(TextLit(v));
  }

  lemma QuotedFits(v: string)
    ensures FitsExpr(TextLit(v), 0) && CheckableExpr(TextLit(v), 0, false)
  {
    assert Fits(TextLit(v), 1) && Checkable(TextLit(v), 1, false);
  }

  lemma QuotedTokens(v: string)
    requires IsPlainText(v)
    ensures Lex("'" + v + "'", 0, []) == Success([Token(Text(v), 0)])
  {
    hide IsPlainText, ScanText;
    var text := "'" + v + "'";
    ScanPlain(v, "", "");
    assert text[0] == '\'' && text[1..] == v + ("'" + "");
    assert "" + v == v;
    Quoted(text[1]);
    var token := Token(Text(v), 0);
    assert [] + [token] == [token];
    assert LexStep(text, 0, []) == Next("", [token]);
    LexEmpty(|text|, [token]);
  }

  /** Behind any expression, a quote that is never closed is an error at its offset. */
  lemma OpenQuote(e: Expr, gaps: seq<string>, v: string, data: Data)
    requires HasText(e) && Parted(ShowAt(e, 0, []), gaps) && forall i :: 0 <= i < |v| ==> v[i] != '\''
    ensures var before := Laid(ShowAt(e, 0, []), gaps);
            var error := Lexical(UnterminatedString(|before|));
            && Evaluate(before + ("'" + v), data) == Failure(error)
            && Validate(before + ("'" + v)) == Invalid(error, |before|)
  {
    hide HasText, Parted, Laid, Lex, ShowAt, TokensLaid;
    var ts := ShowAt(e, 0, []);
    PartedSize(ts, gaps);
    UnknownEnds(ts, gaps, '\'', v);
    LaidBefore(e, gaps, "'" + v);
    LexOpenQuote(v, |Laid(ts, gaps)|, TokensLaid(ts, gaps, 0));
  }

  lemma LexOpenQuote(v: string, off: nat, tokens: seq<Token>)
    requires forall i :: 0 <= i < |v| ==> v[i] != '\''
    ensures Lex("'" + v, off, tokens) == Failure(UnterminatedString(off))
  {
    hide ScanText;
    var text := "'" + v;
    assert text[0] == '\'' && text[1..] == v;
    ScanToEnd(v, "");
    if v != "" {
      Quoted(text[1]);
    }
  }

  /** A dot and digits belong to the number in front of them, whatever white space lies between. */
  lemma FractionIsMerged(whole: string, gap: string, digits: string)
    requires IsNumeral(whole) && IsBlank(gap) && digits != "" && AllDigits(digits)
    ensures Lex(whole + (gap + ("." + digits)), 0, []) == Success([Token(Number(whole + "." + digits), 0)])
  {
    hide Lex, IsNumeral;
    var dot := "." + digits;
    if gap == "" {
      assert gap + dot == dot;
      assert whole + dot == (whole + dot) + "";
      NumeralGoesOn(whole, digits);
      LexSpelled(Number(whole + dot), "", 0, []);
      assert whole + dot == whole + "." + digits;
      LexEmpty(|whole + dot|, [Token(Number(whole + dot), 0)]);
      assert [] + [Token(Number(whole + dot), 0)] == [Token(Number(whole + dot), 0)];
    } else {
      var first := Token(Number(whole), 0);
      SpaceEnds(Number(whole), gap + dot);
      LexSpelled(Number(whole), gap + dot, 0, []);
      assert [] + [first] == [first];
      LexBlank(gap, dot, |whole|, [first]);
      LexFraction(first, digits, |whole| + |gap|);
    }
  }

  lemma NumeralGoesOn(whole: string, digits: string)
    requires IsNumeral(whole) && AllDigits(digits)
    ensures IsNumeral(whole + ("." + digits))
  {
  }

  lemma LexFraction(first: Token, digits: string, off: nat)
    requires first.sym.Number? && digits != "" && AllDigits(digits)
    ensures Lex("." + digits, off, [first])
         == Success([Token(Number(first.sym.text + "." + digits), first.pos)])
  {
    var text := "." + digits;
    assert text[0] == '.' && text[1..] == digits && IsDigit(text[1]);
    assert digits + "" == digits;
    RunOf(digits, "", IsDigit);
    assert digits[..|digits|] == digits && digits[|digits|..] == "";
    var merged := Token(Number(first.sym.text + "." + digits), first.pos);
    assert [first][..0] + [merged] == [merged];
    assert LexStep(text, off, [first]) == Next("", [merged]);
    LexEmpty(off + |text|, [merged]);
  }

  /** Numbers and names, character by character. */
  lemma SpellingsAre(s: string)
    ensures IsNumeral(s) <==>
              s != "" && '0' <= s[0] <= '9' && forall i :: 0 <= i < |s| ==> '0' <= s[i] <= '9' || s[i] == '.'
    ensures IsIdentifier(s) <==>
              && s != "" && !('0' <= s[0] <= '9')
              && forall i :: 0 <= i < |s| ==>
                   'a' <= s[i] <= 'z' || 'A' <= s[i] <= 'Z' || '0' <= s[i] <= '9' || s[i] == '_'
  {
  }
}
