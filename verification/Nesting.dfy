/** Stretches of symbols in which parentheses balance. */
module Nesting {
  import opened Tokenizer
  import opened Syntax

  /** `rest` is what is left of `ts` behind a stretch with balanced parentheses: the search for the parenthesis
      that closes the enclosing ones passes over the stretch. */
  ghost predicate Skips(ts: seq<Symbol>, rest: seq<Symbol>) {
    && |rest| <= |ts|
    && ts[|ts| - |rest|..] == rest
    && forall open: nat :: open >= 1 ==> Enclosed(ts, open) == |ts| - |rest| + Enclosed(rest, open)
  }

  lemma SkipsSuffix(ts: seq<Symbol>, rest: seq<Symbol>)
    requires Skips(ts, rest)
    ensures |rest| <= |ts| && ts[|ts| - |rest|..] == rest
  {
  }

  lemma SkipsNothing(ts: seq<Symbol>)
    ensures Skips(ts, ts)
  {
  }

  lemma SkipsOn(ts: seq<Symbol>, mid: seq<Symbol>, rest: seq<Symbol>)
    requires Skips(ts, mid) && Skips(mid, rest)
    ensures Skips(ts, rest)
  {
    assert ts[|ts| - |rest|..] == ts[|ts| - |mid|..][|mid| - |rest|..];
  }

  lemma SkipsOne(ts: seq<Symbol>)
    requires ts != [] && ts[0] != Open && ts[0] != Close
    ensures Skips(ts, ts[1..])
  {
  }

  /** A parenthesised stretch. */
  lemma SkipsGroup(ts: seq<Symbol>, rest: seq<Symbol>)
    requires ts != [] && ts[0] == Open
    requires Skips(ts[1..], rest) && At(rest, Close)
    ensures Skips(ts, rest[1..])
  {
    var mid := ts[1..];
    assert ts[|ts| - |rest| + 1..] == mid[|mid| - |rest|..][1..];
    forall open: nat | open >= 1
      ensures Enclosed(ts, open) == |ts| - (|rest| - 1) + Enclosed(rest[1..], open)
    {
      EnclosedParens(ts, rest, open);
    }
  }

  lemma EnclosedParens(ts: seq<Symbol>, rest: seq<Symbol>, open: nat)
    requires ts != [] && ts[0] == Open && At(rest, Close) && open >= 1
    ensures Enclosed(ts, open) == 1 + Enclosed(ts[1..], open + 1)
    ensures Enclosed(rest, open + 1) == 1 + Enclosed(rest[1..], open)
  {
  }

  /** The closing parenthesis of a stretch is the one the search finds. */
  lemma EnclosedIs(ts: seq<Symbol>, rest: seq<Symbol>)
    requires Skips(ts, rest) && At(rest, Close)
    ensures Enclosed(ts, 1) == |ts| - |rest|
  {
    assert Enclosed(rest, 1) == 0;
  }
}
