/** The counter that numbers the invariants the factories make. */
module FactoryCounters {
  import opened Values
  import opened Evaluator
  import opened Factories

  datatype Severity = Error | Warning | Info

  datatype Invariant = Invariant(id: string, name: string, expression: string, severity: Severity)

  datatype Enforcement = Strict | Advisory

  datatype Scope = PerEntry | Aggregate

  datatype ConservationLaw = ConservationLaw(invariants: seq<Invariant>, enforcement: Enforcement, scope: Scope)

  function PadStart(s: string): string
    requires s != ""
  {
    if |s| < 2 then "0" + s else s
  }

  function FactoryId(n: nat): string {
    PadStart(NatText(n))
  }

  /** Different counter values give different ids. */
  lemma FactoryIdsDiffer(m: nat, n: nat)
    requires FactoryId(m) == FactoryId(n)
    ensures m == n
  {
    PaddingKeepsValue(NatText(m));
    PaddingKeepsValue(NatText(n));
  }

  lemma PaddingKeepsValue(s: string)
    requires s != "" && AllDigits(s)
    ensures AllDigits(PadStart(s)) && Decimal(PadStart(s)) == Decimal(s)
  {
    if |s| < 2 {
      var t := "0" + s;
      assert t[..|t| - 1] == "0" && "0"[..0] == "" && s[..|s| - 1] == "";
      assert DigitsValue("0", 10) == 0 && DigitsValue("", 10) == 0;
      assert DigitsValue(t, 10) == DigitsValue("0", 10) * 10 + DigitValue(s[0]);
      assert DigitsValue(s, 10) == DigitsValue("", 10) * 10 + DigitValue(s[0]);
    }
  }

  class LawFactory {
    var counter: nat

    constructor ()
      ensures counter == 0
    {
      counter := 0;
    }

    method NextFactoryId() returns (id: string)
      modifies this
      ensures counter == old(counter) + 1 && id == FactoryId(counter)
    {
      counter := counter + 1;
      id := PadStart(NatText(counter));
    }

    method Reset()
      modifies this
      ensures counter == 0
    {
      counter := 0;
    }

    method CreateBalanceConservation(sumFields: seq<string>, total: string, enforcement: Enforcement)
      returns (law: ConservationLaw)
      requires |sumFields| >= 2
      modifies this
      ensures counter == old(counter) + 2
      ensures law.enforcement == enforcement && law.scope == PerEntry && |law.invariants| == 2
      ensures forall i :: i in law.invariants ==> i.severity == Error
      ensures law.invariants[0].name == "Sum conservation" && law.invariants[1].name == "Non-negative fields"
      ensures law.invariants[0].id == "CL-" + FactoryId(old(counter) + 1)
      ensures law.invariants[1].id == "CL-" + FactoryId(old(counter) + 2)
      ensures law.invariants[0].id != law.invariants[1].id
      ensures law.invariants[0].expression == SumText(sumFields, total)
      ensures law.invariants[1].expression == NonNegativeText(sumFields + [total])
    {
      var first := NextFactoryId();
      var second := NextFactoryId();
      assert ("CL-" + first)[3..] == first && ("CL-" + second)[3..] == second;
      if first == second {
        FactoryIdsDiffer(old(counter) + 1, old(counter) + 2);
      }
      law := ConservationLaw(
        [Invariant("CL-" + first, "Sum conservation", SumText(sumFields, total), Error),
         Invariant("CL-" + second, "Non-negative fields", NonNegativeText(sumFields + [total]), Error)],
        enforcement, PerEntry);
    }
  }

  /** Whether an invariant's expression evaluates to true. */
  predicate Passes(expression: string, data: Data) {
    match Evaluate(expression, data)
    case Success(v) => Truthy(v)
    case Failure(_) => false
  }

  /** On digit strings, a balance law over at most fourteen fields passes exactly when the fields add up. */
  lemma BalanceLawOnDigits(sumFields: seq<string>, total: string, data: Data)
    requires 2 <= |sumFields| <= 14 && AreFields(sumFields + [total])
    requires HoldDigits(sumFields + [total], data)
    ensures HoldDigits(sumFields, data) && HoldDigits([total], data)
    ensures Passes(SumText(sumFields, total), data) && Passes(NonNegativeText(sumFields + [total]), data)
       <==> SumOfAmounts(sumFields, data) == Amount(total, data)
  {
    hide Evaluate, ResolveIn, BigIntOf;
    var all := sumFields + [total];
    assert forall f :: f in sumFields ==> f in all;
    assert total == all[|sumFields|] && total in all;
    SumInvariantOnDigits(sumFields, total, data);
    NonNegativeInvariantMeans(all, data);
    forall f | f in all ensures AtLeastZero(f, data) {
      BigIntOfDigits(ResolveIn(data, f).s);
    }
    assert AllAtLeastZero(all, data);
  }

  /** Over fifteen fields or more, it never passes, on any data. */
  lemma BalanceLawNeverPasses(sumFields: seq<string>, total: string, data: Data)
    requires |sumFields| >= 15 && AreFields(sumFields + [total])
    ensures !Passes(NonNegativeText(sumFields + [total]), data)
  {
    NonNegativeInvariantFails(sumFields + [total], data);
  }
}
