/** The CR-1 rule of canonical runs: the phases' `ordered_index` values form a sequence from 0 without gaps or
    duplicates, in any order. */
module CanonicalRuns {
  import opened Results
  import opened Values

  datatype Cr1Error =
    | NotARecord(kind: string)
    | PhasesNotAnArray
    | NullPhase(at: nat)
    | NotAnObject(at: nat, kind: string)
    | IndexNotANumber(at: nat, kind: string)
    | IndexNotAnInteger(at: nat, value: real)
    | Duplicate(at: nat, index: int)
    | Gap(expected: nat, count: nat)

  /** `typeof v` */
  function TypeOf(v: Value): string {
    match v
    case Undefined => "undefined"
    case Bool(_) => "boolean"
    case Num(_) => "number"
    case Big(_) => "bigint"
    case Str(_) => "string"
    case _ => "object"
  }

  /** What a report calls a value that is no record. */
  function KindOf(v: Value): string {
    if v.Null? then "null" else if v.Arr? then "array" else TypeOf(v)
  }

  // ----- What is reported -----

  /** What is wrong with the shape of the phase at position `at`. An array counts as an object. */
  function ShapeError(phase: Value, at: nat): Option<Cr1Error> {
    var idx := Prop(phase, "ordered_index");
    if phase.Null? then Some(NullPhase(at))
    else if TypeOf(phase) != "object" then Some(NotAnObject(at, TypeOf(phase)))
    else if !idx.Num? then Some(IndexNotANumber(at, TypeOf(idx)))
    else if !IsIntegral(idx.r) then Some(IndexNotAnInteger(at, idx.r))
    else None
  }

  /** An object whose `ordered_index` is an integer. */
  predicate WellShaped(phase: Value) {
    phase.IsObject() && Prop(phase, "ordered_index").Num? && IsIntegral(Prop(phase, "ordered_index").r)
  }

  function Index(phase: Value): int
    requires WellShaped(phase)
  {
    Prop(phase, "ordered_index").r.Floor
  }

  /** The indices of the well-shaped phases, in order. */
  function Indices(phases: seq<Value>): seq<int> {
    if phases == [] then []
    else
      var n := |phases| - 1;
      Indices(phases[..n]) + if WellShaped(phases[n]) then [Index(phases[n])] else []
  }

  /** One error for each malformed phase and each repeated index. */
  function ElementErrors(phases: seq<Value>): seq<Cr1Error> {
    if phases == [] then []
    else
      var n := |phases| - 1;
      ElementErrors(phases[..n]) +
      if !WellShaped(phases[n]) then (if ShapeError(phases[n], n).Some? then [ShapeError(phases[n], n).value] else [])
      else if Index(phases[n]) in Indices(phases[..n]) then [Duplicate(n, Index(phases[n]))]
      else []
  }

  predicate Distinct<T(==)>(s: seq<T>) {
    forall i, j :: 0 <= i < j < |s| ==> s[i] != s[j]
  }

  predicate FirstGap(s: seq<int>, k: nat) {
    k < |s| && k !in s && forall j :: 0 <= j < k ==> j in s
  }

  /** What is reported: every element error and, where the indices of the well-shaped phases are distinct, the first
      gap among them. */
  predicate Reported(phases: seq<Value>, errors: seq<Cr1Error>) {
    var indices := Indices(phases);
    || (errors == ElementErrors(phases) && (!Distinct(indices) || forall k :: 0 <= k < |indices| ==> k in indices))
    || (errors != [] && errors[|errors| - 1].Gap? && errors[..|errors| - 1] == ElementErrors(phases)
        && Distinct(indices) && FirstGap(indices, errors[|errors| - 1].expected)
        && errors[|errors| - 1].count == |indices|)
  }

  function Range(n: nat): (s: seq<int>)
    ensures |s| == n && forall i :: 0 <= i < n ==> s[i] == i
  {
    seq(n, i => i)
  }

  /** The rule: every phase is well shaped, and the indices are a permutation of 0, ..., n - 1. */
  predicate MeetsCr1(phases: seq<Value>) {
    (forall p :: p in phases ==> WellShaped(p)) && multiset(Indices(phases)) == multiset(Range(|phases|))
  }

  // ----- Sequences and their sets -----

  function SetOf(s: seq<int>): set<int> {
    set x | x in s
  }

  lemma {:induction false} DistinctCounts(s: seq<int>)
    ensures |SetOf(s)| <= |s|
    ensures Distinct(s) <==> |SetOf(s)| == |s|
  {
    if s != [] {
      var n := |s| - 1;
      var front := s[..n];
      DistinctCounts(front);
      assert s == front + [s[n]];
      if s[n] in front {
        assert SetOf(s) == SetOf(front);
        var i :| 0 <= i < n && front[i] == s[n];
        assert s[i] == s[n];
      } else {
        assert SetOf(s) == SetOf(front) + {s[n]};
        assert Distinct(front) ==> Distinct(s);
      }
    }
  }

  lemma {:induction false} DistinctOnce(s: seq<int>, x: int)
    requires Distinct(s)
    ensures multiset(s)[x] == if x in s then 1 else 0
  {
    if s != [] {
      var n := |s| - 1;
      assert s == s[..n] + [s[n]];
      DistinctOnce(s[..n], x);
    }
  }

  lemma OnceDistinct(s: seq<int>)
    requires forall x :: x in s ==> multiset(s)[x] == 1
    ensures Distinct(s)
  {
    forall i, j | 0 <= i < j < |s| ensures s[i] != s[j] {
      assert s == s[..j] + s[j..];
      assert s[..j][i] == s[i] && s[j..][0] == s[j];
      assert multiset(s) == multiset(s[..j]) + multiset(s[j..]);
      assert s[..j][i] in multiset(s[..j]) && s[j..][0] in multiset(s[j..]);
      assert s[i] in s && multiset(s)[s[i]] == 1;
    }
  }

  lemma {:induction false} RangeSet(n: nat)
    ensures |SetOf(Range(n))| == n
  {
    DistinctCounts(Range(n));
  }

  /** The pigeonhole step: distinct integers that include each of 0, ..., n - 1, as many as those, are a permutation
      of them; there is no room for a negative or a larger one. */
  lemma PermutationOfRange(s: seq<int>)
    ensures multiset(s) == multiset(Range(|s|)) <==> Distinct(s) && forall k :: 0 <= k < |s| ==> k in s
  {
    var range := Range(|s|);
    if Distinct(s) && forall k :: 0 <= k < |s| ==> k in s {
      DistinctCounts(s);
      RangeSet(|s|);
      SubsetOfSameSize(SetOf(range), SetOf(s));
      forall x: int ensures multiset(s)[x] == multiset(range)[x] {
        DistinctOnce(s, x);
        DistinctOnce(range, x);
        assert x in s <==> x in SetOf(s);
        assert x in range <==> x in SetOf(range);
      }
    }
    if multiset(s) == multiset(range) {
      forall x | x in s ensures multiset(s)[x] == 1 {
        assert x in multiset(range);
        DistinctOnce(range, x);
      }
      OnceDistinct(s);
      forall k | 0 <= k < |s| ensures k in s {
        assert range[k] == k;
        assert k in multiset(range);
      }
    }
  }

  lemma SubsetOfSameSize(a: set<int>, b: set<int>)
    requires a <= b && |a| == |b|
    ensures a == b
  {
    assert b == a + (b - a);
    assert |b - a| == 0;
  }

  // ----- The validator -----

  method ValidateCanonicalRunCR1(data: Value) returns (valid: bool, errors: seq<Cr1Error>)
    ensures valid <==> errors == []
    ensures !data.Obj? ==> errors == [NotARecord(KindOf(data))]
    ensures data.Obj? && !Prop(data, "required_phases").Arr? ==> errors == [PhasesNotAnArray]
    ensures data.Obj? && Prop(data, "required_phases").Arr? ==>
              Reported(Prop(data, "required_phases").elems, errors)
  {
    if data.Null? || TypeOf(data) != "object" || data.Arr? {
      return false, [NotARecord(KindOf(data))];
    }
    var required := Prop(data, "required_phases");
    if !required.Arr? {
      return false, [PhasesNotAnArray];
    }
    var phases := required.elems;
    var seenIndices, wellShapedCount;
    errors, seenIndices, wellShapedCount := CheckElements(phases);
    DistinctCounts(Indices(phases));
    if |seenIndices| == wellShapedCount && wellShapedCount > 0 {
      for i := 0 to wellShapedCount
        invariant errors == ElementErrors(phases)
        invariant forall j :: 0 <= j < i ==> j in Indices(phases)
      {
        if i !in seenIndices {
          errors := errors + [Gap(i, wellShapedCount)];
          assert errors[..|errors| - 1] == ElementErrors(phases);
          break;
        }
      }
    }
    valid := errors == [];
  }

  /** The loop over the phases. */
  method CheckElements(phases: seq<Value>) returns (errors: seq<Cr1Error>, seenIndices: set<int>, wellShapedCount: nat)
    ensures errors == ElementErrors(phases)
    ensures seenIndices == SetOf(Indices(phases)) && wellShapedCount == |Indices(phases)|
  {
    hide Prop;
    errors, seenIndices, wellShapedCount := [], {}, 0;
    for i := 0 to |phases|
      invariant errors == ElementErrors(phases[..i])
      invariant seenIndices == SetOf(Indices(phases[..i])) && wellShapedCount == |Indices(phases[..i])|
    {
      var phase := phases[i];
      assert phases[..i + 1][..i] == phases[..i];
      if phase.Null? {
        errors := errors + [NullPhase(i)];
        continue;
      }
      if TypeOf(phase) != "object" {
        errors := errors + [NotAnObject(i, TypeOf(phase))];
        continue;
      }
      var idx := Prop(phase, "ordered_index");
      if !idx.Num? {
        errors := errors + [IndexNotANumber(i, TypeOf(idx))];
        continue;
      }
      if !IsIntegral(idx.r) {
        errors := errors + [IndexNotAnInteger(i, idx.r)];
        continue;
      }
      wellShapedCount := wellShapedCount + 1;
      if idx.r.Floor in seenIndices {
        errors := errors + [Duplicate(i, idx.r.Floor)];
      }
      seenIndices := seenIndices + {idx.r.Floor};
    }
    assert phases[..|phases|] == phases;
  }

  // ----- What a report means -----

  /** No element error exactly when every phase is well shaped and no index is repeated. */
  lemma {:induction false} NoElementErrors(phases: seq<Value>)
    ensures ElementErrors(phases) == [] <==>
              (forall p :: p in phases ==> WellShaped(p)) && Distinct(Indices(phases))
    ensures (forall p :: p in phases ==> WellShaped(p)) <==> |Indices(phases)| == |phases|
    ensures |Indices(phases)| <= |phases|
  {
    hide ShapeError, WellShaped, Distinct, Index;
    EmptyIsDistinct(Indices([]));
    if phases != [] {
      var n := |phases| - 1;
      NoElementErrors(phases[..n]);
      assert phases == phases[..n] + [phases[n]];
      var front := Indices(phases[..n]);
      if WellShaped(phases[n]) {
        OneMore(front, Index(phases[n]));
      } else {
        assert phases[n] in phases;
        MalformedHasError(phases[n], n);
      }
    }
  }

  lemma EmptyIsDistinct(s: seq<int>)
    requires s == []
    ensures Distinct(s)
  {
  }

  lemma MalformedHasError(phase: Value, at: nat)
    ensures ShapeError(phase, at).Some? <==> !WellShaped(phase)
  {
  }

  lemma OneMore(s: seq<int>, x: int)
    ensures Distinct(s + [x]) <==> Distinct(s) && x !in s
  {
    var t := s + [x];
    assert forall i :: 0 <= i < |s| ==> t[i] == s[i];
    assert t[|s|] == x;
  }

  /** A record is reported valid exactly when it meets the rule. */
  lemma ValidMeansCr1(phases: seq<Value>, errors: seq<Cr1Error>)
    requires Reported(phases, errors)
    ensures errors == [] <==> MeetsCr1(phases)
  {
    NoElementErrors(phases);
    PermutationOfRange(Indices(phases));
    if MeetsCr1(phases) {
      assert errors == ElementErrors(phases);
    }
  }

  /** Whatever follows, malformed or not, the errors found in a first part of the phases stay reported. */
  lemma {:induction false} ErrorsAreKept(phases: seq<Value>, k: nat, errors: seq<Cr1Error>)
    requires k <= |phases| && Reported(phases, errors)
    ensures ElementErrors(phases[..k]) <= errors
  {
    ElementErrorsGrow(phases, k);
  }

  lemma {:induction false} ElementErrorsGrow(phases: seq<Value>, k: nat)
    requires k <= |phases|
    ensures ElementErrors(phases[..k]) <= ElementErrors(phases)
  {
    if k == |phases| {
      assert phases[..k] == phases;
    } else {
      var n := |phases| - 1;
      assert phases[..n][..k] == phases[..k];
      ElementErrorsGrow(phases[..n], k);
    }
  }

  /** Every malformed phase is reported at its position. */
  lemma MalformedIsReported(phases: seq<Value>, k: nat, errors: seq<Cr1Error>)
    requires k < |phases| && Reported(phases, errors) && !WellShaped(phases[k])
    ensures ShapeError(phases[k], k).Some? && ShapeError(phases[k], k).value in errors
  {
    ErrorsAreKept(phases, k + 1, errors);
    assert phases[..k + 1][..k] == phases[..k];
    var upTo := ElementErrors(phases[..k + 1]);
    assert upTo[|upTo| - 1] == ShapeError(phases[k], k).value;
  }

  /** A phase that repeats an index is reported at its position, with that index. */
  lemma RepeatIsReported(phases: seq<Value>, j: nat, k: nat, errors: seq<Cr1Error>)
    requires j < k < |phases| && Reported(phases, errors)
    requires WellShaped(phases[j]) && WellShaped(phases[k]) && Index(phases[j]) == Index(phases[k])
    ensures Duplicate(k, Index(phases[k])) in errors
  {
    hide WellShaped, Index, Reported;
    ErrorsAreKept(phases, k + 1, errors);
    assert phases[..k + 1][..k] == phases[..k];
    IndexIsAmong(phases[..k], j);
    var upTo := ElementErrors(phases[..k + 1]);
    assert upTo[|upTo| - 1] == Duplicate(k, Index(phases[k]));
  }

  lemma {:induction false} IndexIsAmong(phases: seq<Value>, j: nat)
    requires j < |phases| && WellShaped(phases[j])
    ensures Index(phases[j]) in Indices(phases)
  {
    hide WellShaped, Index;
    var n := |phases| - 1;
    if j < n {
      IndexIsAmong(phases[..n], j);
    }
  }

  lemma OneFirstGap(s: seq<int>, j: nat, k: nat)
    requires FirstGap(s, j) && FirstGap(s, k)
    ensures j == k
  {
  }

  /** Where some index is missing and none is repeated, the first missing one is reported, malformed phases or not. */
  lemma GapIsReported(phases: seq<Value>, k: nat, errors: seq<Cr1Error>)
    requires Reported(phases, errors) && Distinct(Indices(phases)) && FirstGap(Indices(phases), k)
    ensures Gap(k, |Indices(phases)|) in errors
  {
    var indices, last := Indices(phases), errors[|errors| - 1];
    assert k < |indices| && k !in indices;
    assert last.Gap? && FirstGap(indices, last.expected);
    OneFirstGap(indices, k, last.expected);
  }

  // ----- Phases as records -----

  /** A phase with this index and whatever else. */
  predicate HasIndex(phase: Value, k: int) {
    phase.Obj? && Held(phase.fields, "ordered_index") == Num(k as real)
  }

  lemma IndexIs(phase: Value, k: int)
    requires HasIndex(phase, k)
    ensures WellShaped(phase) && Index(phase) == k
  {
    assert (k as real).Floor == k;
  }

  lemma {:induction false} IndicesAre(phases: seq<Value>, ks: seq<int>)
    requires |phases| == |ks| && forall i :: 0 <= i < |ks| ==> HasIndex(phases[i], ks[i])
    ensures Indices(phases) == ks && forall p :: p in phases ==> WellShaped(p)
  {
    hide HasIndex, WellShaped, Index;
    if ks != [] {
      var n := |ks| - 1;
      IndicesAre(phases[..n], ks[..n]);
      IndexIs(phases[n], ks[n]);
      assert ks[..n] + [ks[n]] == ks && phases == phases[..n] + [phases[n]];
    }
  }

  /** Phases that carry whole numbers under `ordered_index` are reported valid exactly if these are 0, ..., n - 1 in
      some order. */
  lemma RecordsMeetCr1(phases: seq<Value>, ks: seq<int>, errors: seq<Cr1Error>)
    requires |phases| == |ks| && forall i :: 0 <= i < |ks| ==> HasIndex(phases[i], ks[i])
    requires Reported(phases, errors)
    ensures errors == [] <==> multiset(ks) == multiset(seq(|ks|, i => i))
  {
    hide HasIndex, Reported;
    IndicesAre(phases, ks);
    ValidMeansCr1(phases, errors);
    assert Range(|ks|) == seq(|ks|, i => i);
  }

  /** What is wrong with a phase, kind by kind. */
  lemma ShapeErrorsAre(at: nat, fields: map<string, Value>, elems: seq<Value>, s: string, r: real, n: int, ref: Ref)
    ensures ShapeError(Null, at) == Some(NullPhase(at))
    ensures ShapeError(Undefined, at) == Some(NotAnObject(at, "undefined"))
    ensures ShapeError(Bool(true), at) == ShapeError(Bool(false), at) == Some(NotAnObject(at, "boolean"))
    ensures ShapeError(Num(r), at) == Some(NotAnObject(at, "number"))
    ensures ShapeError(Big(n), at) == Some(NotAnObject(at, "bigint"))
    ensures ShapeError(Str(s), at) == Some(NotAnObject(at, "string"))
    ensures ShapeError(Arr(ref, elems), at) == Some(IndexNotANumber(at, "undefined"))
    ensures ShapeError(Obj(ref, fields), at) ==
            match Held(fields, "ordered_index")
            case Num(x) => if x == x.Floor as real then None else Some(IndexNotAnInteger(at, x))
            case Undefined => Some(IndexNotANumber(at, "undefined"))
            case Bool(_) => Some(IndexNotANumber(at, "boolean"))
            case Big(_) => Some(IndexNotANumber(at, "bigint"))
            case Str(_) => Some(IndexNotANumber(at, "string"))
            case _ => Some(IndexNotANumber(at, "object"))
  {
    assert "ordered_index"[0] == 'o' && "length"[0] == 'l';
  }

  /** What a value that is no record is called. */
  lemma KindsAre(b: bool, r: real, n: int, s: string, ref: Ref, elems: seq<Value>)
    ensures KindOf(Null) == "null" && KindOf(Undefined) == "undefined" && KindOf(Arr(ref, elems)) == "array"
    ensures KindOf(Bool(b)) == "boolean" && KindOf(Num(r)) == "number" && KindOf(Big(n)) == "bigint"
    ensures KindOf(Str(s)) == "string"
  {
  }
}
