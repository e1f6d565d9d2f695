/** The transition engine of a governed resource: apply an event, verify every invariant on the candidate state, then
    commit it or roll it back. */
module GovernedResources {
  import opened Results

  /** What an exception thrown by `applyEvent` or by an invariant check carries. */
  type Thrown = string

  datatype InvariantResult = InvariantResult(invariantId: string, holds: bool, detail: Option<string>)

  type Check<!State> = State -> Result<InvariantResult, Thrown>

  /** An entry of the invariant map, in insertion order. */
  datatype Invariant<!State> = Invariant(key: string, check: Check<State>)

  /** An entry of `verifyAll`: the check's own result under the key of the invariant map. */
  datatype Verified = Verified(result: InvariantResult, invariantId: string)

  /** What a subclass supplies. An event stands for an event with its mutation context; `define(n)` is what the
      n-th call of `defineInvariants` returns. */
  datatype Rules<!State, !Event> = Rules(
    apply: (State, Event) -> Result<State, Thrown>,
    define: nat -> seq<Invariant<State>>)

  /** A JavaScript map holds each key once. */
  predicate UniqueKeys<State>(invariants: seq<Invariant<State>>) {
    forall i, j :: 0 <= i < j < |invariants| ==> invariants[i].key != invariants[j].key
  }

  // ----- Verification -----

  function VerifyOne<State>(invariants: seq<Invariant<State>>, id: string, state: State)
    : Result<InvariantResult, Thrown>
  {
    if invariants == [] then Success(InvariantResult(id, false, Some("Unknown invariant: " + id)))
    else if invariants[0].key == id then invariants[0].check(state)
    else VerifyOne(invariants[1..], id, state)
  }

  /** Every check in turn; the first that throws ends it. */
  function VerifyEach<State>(invariants: seq<Invariant<State>>, state: State): Result<seq<Verified>, Thrown> {
    if invariants == [] then Success([])
    else
      var n := |invariants| - 1;
      var before :- VerifyEach(invariants[..n], state);
      var result :- invariants[n].check(state);
      Success(before + [Verified(result, invariants[n].key)])
  }

  function Text(r: InvariantResult): string {
    r.invariantId + ": " + if r.detail.Some? then r.detail.value else "violated"
  }

  /** The texts of the results that do not hold. */
  function Violations(results: seq<Verified>): seq<string> {
    if results == [] then []
    else
      var n := |results| - 1;
      Violations(results[..n]) + if results[n].result.holds then [] else [Text(results[n].result)]
  }

  /** Every check returns, and returns that its invariant holds. */
  predicate AllHold<State>(invariants: seq<Invariant<State>>, state: State) {
    forall i :: 0 <= i < |invariants| ==>
      invariants[i].check(state).Success? && invariants[i].check(state).value.holds
  }

  predicate SomeCheckThrows<State>(invariants: seq<Invariant<State>>, state: State) {
    exists i :: 0 <= i < |invariants| && invariants[i].check(state).Failure?
  }

  // ----- One transition -----

  datatype Snapshot<State> = Snapshot(state: State, version: nat)

  datatype Outcome<State> =
    | Committed(newState: State, version: nat)
    | RolledBack(newState: State, version: nat, violations: seq<string>)
    | ApplyThrew(error: Thrown)
    | CheckThrew(error: Thrown)

  /** One transition on values. A check that throws leaves the candidate state in place, unverified and without a new
      version: nothing restores the state on that path. */
  function Step<State, Event>(rules: Rules<State, Event>, s: Snapshot<State>, event: Event)
    : (Snapshot<State>, Outcome<State>)
  {
    match rules.apply(s.state, event)
    case Failure(e) => (s, ApplyThrew(e))
    case Success(candidate) =>
      match VerifyEach(rules.define(0), candidate)
      case Failure(e) => (Snapshot(candidate, s.version), CheckThrew(e))
      case Success(results) =>
        if Violations(results) == [] then
          (Snapshot(candidate, s.version + 1), Committed(candidate, s.version + 1))
        else (s, RolledBack(s.state, s.version, Violations(results)))
  }

  class GovernedResource<State, Event> {
    const rules: Rules<State, Event>
    var state: State
    var version: nat
    var cachedInvariants: Option<seq<Invariant<State>>>
    var definitions: nat // how often `defineInvariants` has been called

    /** Invariants are defined at most once, and what is cached is that definition. */
    ghost predicate Valid()
      reads this
    {
      && definitions == (if cachedInvariants.Some? then 1 else 0)
      && (cachedInvariants.Some? ==> cachedInvariants.value == rules.define(0))
    }

    ghost function Now(): Snapshot<State>
      reads this
    {
      Snapshot(state, version)
    }

    /** The initial state is taken as it is. */
    constructor (rules: Rules<State, Event>, initialState: State)
      ensures Valid() && this.rules == rules && Now() == Snapshot(initialState, 0)
    {
      this.rules := rules;
      this.state := initialState;
      this.version := 0;
      this.cachedInvariants := None;
      this.definitions := 0;
    }

    method GetInvariants() returns (invariants: seq<Invariant<State>>)
      requires Valid()
      modifies this`cachedInvariants, this`definitions
      ensures Valid() && definitions == 1 && invariants == rules.define(0)
    {
      if cachedInvariants.None? {
        cachedInvariants := Some(rules.define(definitions));
        definitions := definitions + 1;
      }
      return cachedInvariants.value;
    }

    method Verify(invariantId: string) returns (r: Result<InvariantResult, Thrown>)
      requires Valid()
      modifies this`cachedInvariants, this`definitions
      ensures Valid() && r == VerifyOne(rules.define(0), invariantId, state)
    {
      var invariants := GetInvariants();
      for i := 0 to |invariants|
        invariant VerifyOne(invariants[i..], invariantId, state) == VerifyOne(rules.define(0), invariantId, state)
      {
        if invariants[i].key == invariantId {
          return invariants[i].check(state);
        }
        assert invariants[i..][1..] == invariants[i + 1..];
      }
      return Success(InvariantResult(invariantId, false, Some("Unknown invariant: " + invariantId)));
    }

    method VerifyAll() returns (r: Result<seq<Verified>, Thrown>)
      requires Valid()
      modifies this`cachedInvariants, this`definitions
      ensures Valid() && r == VerifyEach(rules.define(0), state)
    {
      var invariants := GetInvariants();
      var results := [];
      for i := 0 to |invariants|
        invariant VerifyEach(invariants[..i], state) == Success(results)
      {
        assert invariants[..i + 1][..i] == invariants[..i];
        match invariants[i].check(state) {
          case Failure(e) =>
            FailureStays(invariants, i + 1, state);
            return Failure(e);
          case Success(result) =>
            results := results + [Verified(result, invariants[i].key)];
        }
      }
      assert invariants[..|invariants|] == invariants;
      return Success(results);
    }

    method Transition(event: Event) returns (outcome: Outcome<State>)
      requires Valid()
      modifies this
      ensures Valid() && (Now(), outcome) == Step(rules, old(Now()), event)
    {
      var applied := rules.apply(state, event);
      if applied.Failure? {
        return ApplyThrew(applied.error);
      }
      var previousState := state;
      state := applied.value;
      var results := VerifyAll();
      if results.Failure? {
        return CheckThrew(results.error);
      }
      var violations := [];
      for i := 0 to |results.value|
        invariant violations == Violations(results.value[..i])
      {
        assert results.value[..i + 1][..i] == results.value[..i];
        if !results.value[i].result.holds {
          violations := violations + [Text(results.value[i].result)];
        }
      }
      assert results.value[..|results.value|] == results.value;
      if violations != [] {
        state := previousState;
        return RolledBack(state, version, violations);
      }
      version := version + 1;
      return Committed(state, version);
    }
  }

  /** Once a check has thrown, the checks after it do not matter. */
  lemma {:induction false} FailureStays<State>(invariants: seq<Invariant<State>>, i: nat, state: State)
    requires i <= |invariants|
    requires VerifyEach(invariants[..i], state).Failure?
    ensures VerifyEach(invariants, state) == VerifyEach(invariants[..i], state)
    decreases |invariants|
  {
    if i == |invariants| {
      assert invariants[..i] == invariants;
    } else {
      var n := |invariants| - 1;
      assert invariants[..n][..i] == invariants[..i];
      FailureStays(invariants[..n], i, state);
    }
  }

  /** What `verifyAll` reports under a key is what `verify` reports for it. */
  lemma {:induction false} VerifyEachAgrees<State>(invariants: seq<Invariant<State>>, state: State, i: nat)
    requires UniqueKeys(invariants) && i < |invariants|
    requires VerifyEach(invariants, state).Success?
    ensures |VerifyEach(invariants, state).value| == |invariants|
    ensures VerifyEach(invariants, state).value[i].invariantId == invariants[i].key
    ensures VerifyOne(invariants, invariants[i].key, state) == Success(VerifyEach(invariants, state).value[i].result)
  {
    EachIsCheck(invariants, state, i);
    FindsKey(invariants, state, i);
  }

  lemma {:induction false} EachIsCheck<State>(invariants: seq<Invariant<State>>, state: State, i: nat)
    requires i < |invariants| && VerifyEach(invariants, state).Success?
    ensures |VerifyEach(invariants, state).value| == |invariants|
    ensures invariants[i].check(state).Success?
    ensures VerifyEach(invariants, state).value[i] == Verified(invariants[i].check(state).value, invariants[i].key)
  {
    var n := |invariants| - 1;
    if i < n {
      EachIsCheck(invariants[..n], state, i);
    } else if n > 0 {
      EachIsCheck(invariants[..n], state, n - 1);
    }
  }

  lemma {:induction false} FindsKey<State>(invariants: seq<Invariant<State>>, state: State, i: nat)
    requires UniqueKeys(invariants) && i < |invariants|
    ensures VerifyOne(invariants, invariants[i].key, state) == invariants[i].check(state)
  {
    if i > 0 {
      FindsKey(invariants[1..], state, i - 1);
    }
  }

  /** Under a key that is not in the map, `verify` reports an unknown invariant that does not hold. */
  lemma {:induction false} UnknownIsReported<State>(invariants: seq<Invariant<State>>, id: string, state: State)
    requires forall i :: 0 <= i < |invariants| ==> invariants[i].key != id
    ensures VerifyOne(invariants, id, state)
         == Success(InvariantResult(id, false, Some("Unknown invariant: " + id)))
  {
    if invariants != [] {
      UnknownIsReported(invariants[1..], id, state);
    }
  }

  /** Verification throws exactly when some check does. */
  lemma {:induction false} ThrowsWithCheck<State>(invariants: seq<Invariant<State>>, state: State)
    ensures VerifyEach(invariants, state).Failure? <==> SomeCheckThrows(invariants, state)
  {
    if invariants != [] {
      var n := |invariants| - 1;
      var front := invariants[..n];
      ThrowsWithCheck(front, state);
      assert forall i :: 0 <= i < n ==> front[i] == invariants[i];
    }
  }

  lemma {:induction false} NoneViolated(results: seq<Verified>)
    ensures Violations(results) == [] <==> forall i :: 0 <= i < |results| ==> results[i].result.holds
  {
    hide Text;
    if results != [] {
      var n := |results| - 1;
      NoneViolated(results[..n]);
      assert Violations(results) == [] <==> Violations(results[..n]) == [] && results[n].result.holds;
    }
  }

  /** Nothing is violated exactly when every invariant holds. */
  lemma NoViolations<State>(invariants: seq<Invariant<State>>, state: State)
    ensures AllHold(invariants, state) <==>
              VerifyEach(invariants, state).Success? && Violations(VerifyEach(invariants, state).value) == []
  {
    hide VerifyEach, Violations;
    ThrowsWithCheck(invariants, state);
    if VerifyEach(invariants, state).Success? {
      var all := VerifyEach(invariants, state).value;
      NoneViolated(all);
      if invariants == [] {
        NothingVerified(invariants, state);
      } else {
        EachIsCheck(invariants, state, 0);
        forall i | 0 <= i < |invariants| ensures invariants[i].check(state) == Success(all[i].result) {
          EachIsCheck(invariants, state, i);
        }
      }
    } else {
      ThrowingDoesNotHold(invariants, state);
    }
  }

  lemma NothingVerified<State>(invariants: seq<Invariant<State>>, state: State)
    requires invariants == []
    ensures VerifyEach(invariants, state) == Success([])
  {
  }

  /** A transition commits exactly when the event applies and every invariant holds of the outcome, and a transition
      that is rolled back or whose event does not apply changes nothing. What it returns is the state and the version
      it leaves, or what the event threw. */
  lemma StepCommitsOrKeeps<State, Event>(rules: Rules<State, Event>, s: Snapshot<State>, event: Event)
    ensures var (after, outcome) := Step(rules, s, event);
            var applied := rules.apply(s.state, event);
            && (outcome.Committed? <==> applied.Success? && AllHold(rules.define(0), applied.value))
            && (outcome.Committed? ==> after == Snapshot(applied.value, s.version + 1))
            && (outcome.CheckThrew? <==> applied.Success? && SomeCheckThrows(rules.define(0), applied.value))
            && (outcome.CheckThrew? ==> after == Snapshot(applied.value, s.version))
            && (outcome.RolledBack? || outcome.ApplyThrew? ==> after == s)
            && (outcome.Committed? ==> outcome.newState == applied.value && outcome.version == s.version + 1)
            && (outcome.RolledBack? ==> outcome.newState == s.state && outcome.version == s.version)
            && (outcome.ApplyThrew? <==> applied.Failure?)
            && (outcome.ApplyThrew? ==> outcome.error == applied.error)
  {
    hide VerifyEach, Violations, AllHold, SomeCheckThrows;
    if rules.apply(s.state, event).Success? {
      ThrowsWithCheck(rules.define(0), rules.apply(s.state, event).value);
      NoViolations(rules.define(0), rules.apply(s.state, event).value);
    }
  }

  /** Of an invariant that does not hold: the id its check gives, and its detail or `violated`. */
  function Complaint(r: InvariantResult): string {
    match r.detail
    case Some(detail) => r.invariantId + ": " + detail
    case None => r.invariantId + ": violated"
  }

  predicate Fails<State>(invariants: seq<Invariant<State>>, state: State, i: nat) {
    i < |invariants| && invariants[i].check(state).Success? && !invariants[i].check(state).value.holds
  }

  /** The violations are, in the order of the invariant map, one text for each invariant that does not hold; `failed`
      are the places of those. */
  ghost predicate Reports<State(!new)>(invariants: seq<Invariant<State>>, state: State, failed: seq<nat>,
                                       violations: seq<string>)
  {
    && |violations| == |failed|
    && (forall j, k :: 0 <= j < k < |failed| ==> failed[j] < failed[k])
    && (forall i: nat :: i in failed <==> Fails(invariants, state, i))
    && forall j :: 0 <= j < |failed| ==>
         Fails(invariants, state, failed[j])
         && violations[j] == Complaint(invariants[failed[j]].check(state).value)
  }

  lemma ReportsOneMore<State(!new)>(invariants: seq<Invariant<State>>, state: State, failed: seq<nat>,
                                    violations: seq<string>)
    requires invariants != [] && invariants[|invariants| - 1].check(state).Success?
    requires Reports(invariants[..|invariants| - 1], state, failed, violations)
    ensures var n := |invariants| - 1;
            var result := invariants[n].check(state).value;
            if result.holds then Reports(invariants, state, failed, violations)
            else Reports(invariants, state, failed + [n], violations + [Complaint(result)])
  {
    hide Complaint;
    var n := |invariants| - 1;
    var front := invariants[..n];
    forall i: nat | i != n ensures Fails(front, state, i) <==> Fails(invariants, state, i) {
    }
    assert !Fails(front, state, n);
    var longer := failed + [n];
    if !invariants[n].check(state).value.holds {
      forall i: nat ensures i in longer <==> Fails(invariants, state, i) {
        assert i in longer <==> i in failed || i == n;
      }
      forall j, k | 0 <= j < k < |longer| ensures longer[j] < longer[k] {
        assert longer[j] in failed;
        assert Fails(front, state, longer[j]);
      }
    }
  }

  lemma {:induction false} ViolationsAre<State(!new)>(invariants: seq<Invariant<State>>, state: State)
    returns (failed: seq<nat>)
    requires VerifyEach(invariants, state).Success?
    ensures Reports(invariants, state, failed, Violations(VerifyEach(invariants, state).value))
  {
    hide Text, Complaint, Reports;
    if invariants == [] {
      failed := [];
      NothingReported(invariants, state);
    } else {
      var n := |invariants| - 1;
      failed := ViolationsAre(invariants[..n], state);
      var result := invariants[n].check(state).value;
      var results := VerifyEach(invariants, state).value;
      EachCounts(invariants[..n], state);
      assert results[..n] == VerifyEach(invariants[..n], state).value && results[n].result == result;
      TextIsComplaint(result);
      ReportsOneMore(invariants, state, failed, Violations(results[..n]));
      failed := if result.holds then failed else failed + [n];
      assert Violations(results[..n]) + [] == Violations(results[..n]);
    }
  }

  lemma NothingReported<State(!new)>(invariants: seq<Invariant<State>>, state: State)
    requires invariants == []
    ensures Reports(invariants, state, [], [])
  {
  }

  lemma {:induction false} EachCounts<State>(invariants: seq<Invariant<State>>, state: State)
    requires VerifyEach(invariants, state).Success?
    ensures |VerifyEach(invariants, state).value| == |invariants|
  {
    if invariants != [] {
      EachCounts(invariants[..|invariants| - 1], state);
    }
  }

  lemma TextIsComplaint(r: InvariantResult)
    ensures Text(r) == Complaint(r)
  {
    assert r.detail.None? ==> r.invariantId + ": " + "violated" == r.invariantId + ": violated";
  }

  /** A verification that throws carries what the first check to throw has thrown. */
  lemma {:induction false} FirstThrows<State>(invariants: seq<Invariant<State>>, state: State) returns (i: nat)
    requires VerifyEach(invariants, state).Failure?
    ensures i < |invariants| && invariants[i].check(state) == Failure(VerifyEach(invariants, state).error)
    ensures forall j :: 0 <= j < i ==> invariants[j].check(state).Success?
  {
    var n := |invariants| - 1;
    if VerifyEach(invariants[..n], state).Failure? {
      i := FirstThrows(invariants[..n], state);
    } else {
      i := n;
      forall j | 0 <= j < n ensures invariants[j].check(state).Success? {
        EachIsCheck(invariants[..n], state, j);
      }
    }
  }

  /** What a transition that is rolled back reports, and what one that a check ends throws. */
  lemma StepReports<State(!new), Event>(rules: Rules<State, Event>, s: Snapshot<State>, event: Event)
    returns (failed: seq<nat>, thrower: nat)
    requires var outcome := Step(rules, s, event).1; outcome.RolledBack? || outcome.CheckThrew?
    ensures rules.apply(s.state, event).Success?
    ensures var (outcome, candidate) := (Step(rules, s, event).1, rules.apply(s.state, event).value);
            var invariants := rules.define(0);
            && (outcome.RolledBack? ==> Reports(invariants, candidate, failed, outcome.violations))
            && (outcome.CheckThrew? ==>
                  && thrower < |invariants| && invariants[thrower].check(candidate) == Failure(outcome.error)
                  && forall j :: 0 <= j < thrower ==> invariants[j].check(candidate).Success?)
  {
    hide VerifyEach, Violations, Reports;
    failed, thrower := [], 0;
    var candidate := rules.apply(s.state, event).value;
    if Step(rules, s, event).1.RolledBack? {
      failed := ViolationsAre(rules.define(0), candidate);
    } else {
      thrower := FirstThrows(rules.define(0), candidate);
    }
  }

  // ----- Runs -----

  function Run<State, Event>(rules: Rules<State, Event>, s: Snapshot<State>, events: seq<Event>): Snapshot<State> {
    if events == [] then s
    else Step(rules, Run(rules, s, events[..|events| - 1]), events[|events| - 1]).0
  }

  /** The outcome of the last event of a run. */
  function LastOutcome<State, Event>(rules: Rules<State, Event>, s: Snapshot<State>, events: seq<Event>)
    : Outcome<State>
    requires events != []
  {
    Step(rules, Run(rules, s, events[..|events| - 1]), events[|events| - 1]).1
  }

  /** The events of a run that took effect, with whether a check threw on the way. */
  function Effects<State, Event>(rules: Rules<State, Event>, s: Snapshot<State>, events: seq<Event>)
    : seq<(Event, bool)>
  {
    if events == [] then []
    else
      var outcome, event := LastOutcome(rules, s, events), events[|events| - 1];
      Effects(rules, s, events[..|events| - 1])
      + if outcome.Committed? then [(event, false)] else if outcome.CheckThrew? then [(event, true)] else []
  }

  /** Applying events one after another, each to the state the last one left; None where one throws. */
  function Replay<State, Event>(rules: Rules<State, Event>, state: State, effects: seq<(Event, bool)>): Option<State> {
    if effects == [] then Some(state)
    else
      var n := |effects| - 1;
      match Replay(rules, state, effects[..n])
      case None => None
      case Some(before) =>
        var applied := rules.apply(before, effects[n].0);
        if applied.Success? then Some(applied.value) else None
  }

  function Commits<Event>(effects: seq<(Event, bool)>): nat {
    if effects == [] then 0
    else Commits(effects[..|effects| - 1]) + if effects[|effects| - 1].1 then 0 else 1
  }

  /** The version counts the committed events, and the state is what the events that took effect make of the initial
      one: nothing else leaves a trace. */
  lemma {:induction false} RunReplaysEffects<State, Event>(rules: Rules<State, Event>, s: Snapshot<State>,
                                                           events: seq<Event>)
    ensures var effects := Effects(rules, s, events);
            && Run(rules, s, events).version == s.version + Commits(effects)
            && Replay(rules, s.state, effects) == Some(Run(rules, s, events).state)
  {
    hide Step, AllHold, SomeCheckThrows;
    if events != [] {
      var n := |events| - 1;
      RunReplaysEffects(rules, s, events[..n]);
      StepCommitsOrKeeps(rules, Run(rules, s, events[..n]), events[n]);
      var before := Effects(rules, s, events[..n]);
      ReplayOneMore(rules, s.state, before, events[n], false);
      ReplayOneMore(rules, s.state, before, events[n], true);
      assert before + [] == before;
    }
  }

  lemma ReplayOneMore<State, Event>(rules: Rules<State, Event>, state: State, effects: seq<(Event, bool)>,
                                    event: Event, threw: bool)
    requires Replay(rules, state, effects).Some?
    ensures Replay(rules, state, effects + [(event, threw)]) ==
            var applied := rules.apply(Replay(rules, state, effects).value, event);
            if applied.Success? then Some(applied.value) else None
    ensures Commits(effects + [(event, threw)]) == Commits(effects) + if threw then 0 else 1
  {
    assert (effects + [(event, threw)])[..|effects|] == effects;
  }

  /** After any run the invariants hold of the current state exactly when the last event to take effect was committed,
      or, where none took effect, when they held to begin with. */
  lemma {:induction false} RunKeepsInvariants<State, Event>(rules: Rules<State, Event>, s: Snapshot<State>,
                                                            events: seq<Event>)
    ensures var effects := Effects(rules, s, events);
            AllHold(rules.define(0), Run(rules, s, events).state) <==>
              if effects == [] then AllHold(rules.define(0), s.state) else !effects[|effects| - 1].1
  {
    hide Step, AllHold, SomeCheckThrows;
    if events != [] {
      var n := |events| - 1;
      RunKeepsInvariants(rules, s, events[..n]);
      var before := Run(rules, s, events[..n]);
      StepCommitsOrKeeps(rules, before, events[n]);
      var applied := rules.apply(before.state, events[n]);
      if applied.Success? && SomeCheckThrows(rules.define(0), applied.value) {
        ThrowingDoesNotHold(rules.define(0), applied.value);
      }
      assert Effects(rules, s, events[..n]) + [] == Effects(rules, s, events[..n]);
    }
  }

  lemma ThrowingDoesNotHold<State>(invariants: seq<Invariant<State>>, state: State)
    requires SomeCheckThrows(invariants, state)
    ensures !AllHold(invariants, state)
  {
  }

  lemma {:induction false} CommitsAreEffects<Event>(effects: seq<(Event, bool)>)
    ensures Commits(effects) > 0 ==> effects != []
  {
  }

  /** As long as no check throws, a state reached by committing something, or started from a good state, is good. */
  lemma CommittedStatesAreGood<State, Event>(rules: Rules<State, Event>, initial: State, events: seq<Event>)
    requires forall e :: e in Effects(rules, Snapshot(initial, 0), events) ==> !e.1
    requires Run(rules, Snapshot(initial, 0), events).version > 0 || AllHold(rules.define(0), initial)
    ensures AllHold(rules.define(0), Run(rules, Snapshot(initial, 0), events).state)
  {
    hide Step, AllHold, Run, Effects;
    RunReplaysEffects(rules, Snapshot(initial, 0), events);
    RunKeepsInvariants(rules, Snapshot(initial, 0), events);
    CommitsAreEffects(Effects(rules, Snapshot(initial, 0), events));
  }

  /** A counter that events add to, which should be positive. */
  function Counter(): Rules<int, int> {
    var check := (s: int) => Success(InvariantResult("positive", s > 0, None));
    Rules((s: int, e: int) => Success(s + e), (n: nat) => [Invariant("positive", check)])
  }

  /** A resource may start, and stay, in a state that violates its invariants: the constructor verifies nothing, and
      a transition that does not mend the state is rolled back to it. */
  lemma BadStartStays(initial: int, event: int)
    requires initial <= 0 && initial + event <= 0
    ensures Run(Counter(), Snapshot(initial, 0), [event]) == Snapshot(initial, 0)
    ensures !AllHold(Counter().define(0), initial)
  {
    var rules := Counter();
    var s := Snapshot(initial, 0);
    assert [event][..0] == [] && Run(rules, s, []) == s;
    assert !rules.define(0)[0].check(initial).value.holds;
    assert !rules.define(0)[0].check(initial + event).value.holds;
    assert rules.define(0)[0].check(initial + event).Success?;
    StepCommitsOrKeeps(rules, s, event);
  }

  /** A counter whose check throws on some values: it should be positive, and zero is more than the check can take. */
  function Delicate(): Rules<int, int> {
    var check := (s: int) =>
      if s == 0 then Failure("zero") else Success(InvariantResult("positive", s > 0, None));
    Rules((s: int, e: int) => Success(s + e), (n: nat) => [Invariant("positive", check)])
  }

  lemma DelicateFacts(s: int, e: int)
    ensures Delicate().apply(s, e) == Success(s + e)
    ensures AllHold(Delicate().define(0), s) <==> s > 0
    ensures SomeCheckThrows(Delicate().define(0), s) <==> s == 0
  {
    assert Delicate().define(0)[0].check(s) ==
           if s == 0 then Failure("zero") else Success(InvariantResult("positive", s > 0, None));
  }

  lemma RunOfTwo<State, Event>(rules: Rules<State, Event>, s: Snapshot<State>, a: Event, b: Event)
    ensures Run(rules, s, [a, b]) == Step(rules, Step(rules, s, a).0, b).0
  {
    hide Step;
    assert [a, b][..1] == [a] && [a][..0] == [];
    assert Run(rules, s, []) == s;
  }

  /** A check that throws leaves a state that does not hold in place, behind a version that says something has been
      committed: from any good start, commit an event, then take everything away. */
  lemma ThrowingCheckLeavesBadState(initial: int, event: int)
    requires initial > 0 && event > 0
    ensures var after := Run(Delicate(), Snapshot(initial, 0), [event, -(initial + event)]);
            after == Snapshot(0, 1) && !AllHold(Delicate().define(0), after.state)
  {
    hide Delicate, Step, AllHold, SomeCheckThrows;
    var total := initial + event;
    RunOfTwo(Delicate(), Snapshot(initial, 0), event, -total);
    DelicateFacts(initial, event);
    DelicateFacts(total, -total);
    DelicateFacts(0, 0);
    StepCommitsOrKeeps(Delicate(), Snapshot(initial, 0), event);
    StepCommitsOrKeeps(Delicate(), Snapshot(total, 1), -total);
  }
}
