/** What the two tree checks ask of the records they are given, said of the records' own fields. */
module TreeLaws {
  import opened Results
  import opened Values
  import opened Trees

  /** The values an array field lists; none if the field holds no array. */
  function Listed(v: Value, name: string): seq<Value> {
    if v.Obj? && Held(v.fields, name).Arr? then Held(v.fields, name).elems else []
  }

  // ----- Authority -----

  /** Two scopes are the same authority if they read the same in lower case. */
  predicate SameAuthority(host: Host, s: Value, t: Value) {
    host.lower(host.text(s)) == host.lower(host.text(t))
  }

  /** Every scope that `child` lists is listed by `parent`. */
  predicate Narrower(host: Host, child: Value, parent: Value) {
    forall s :: s in Listed(child, "authority_scope") ==>
      exists t :: t in Listed(parent, "authority_scope") && SameAuthority(host, s, t)
  }

  lemma ScopeIs(host: Host, v: Value)
    ensures Scope(host, v) == set s | s in Listed(v, "authority_scope") :: host.lower(host.text(s))
  {
    if v.Arr? {
      assert Prop(v, "authority_scope") == Undefined by {
        assert "authority_scope"[0] == 'a' && "length"[0] == 'l';
      }
    }
  }

  lemma InScope(host: Host, v: Value, x: string) returns (s: Value)
    requires x in Scope(host, v)
    ensures s in Listed(v, "authority_scope") && x == host.lower(host.text(s))
  {
    hide Scope, Listed;
    ScopeIs(host, v);
    s :| s in Listed(v, "authority_scope") && x == host.lower(host.text(s));
  }

  lemma ListedInScope(host: Host, v: Value, s: Value)
    requires s in Listed(v, "authority_scope")
    ensures host.lower(host.text(s)) in Scope(host, v)
  {
    hide Scope, Listed;
    ScopeIs(host, v);
  }

  lemma NarrowerScope(host: Host, child: Value, parent: Value)
    requires Narrower(host, child, parent)
    ensures Scope(host, child) <= Scope(host, parent)
  {
    hide Scope, Listed;
    forall x | x in Scope(host, child) ensures x in Scope(host, parent) {
      var s := InScope(host, child, x);
      var t :| t in Listed(parent, "authority_scope") && SameAuthority(host, s, t);
      ListedInScope(host, parent, t);
    }
  }

  lemma NarrowerIs(host: Host, child: Value, parent: Value)
    ensures Narrower(host, child, parent) <==> Scope(host, child) <= Scope(host, parent)
  {
    hide Scope, Listed;
    if Scope(host, child) <= Scope(host, parent) {
      forall s | s in Listed(child, "authority_scope")
        ensures exists t :: t in Listed(parent, "authority_scope") && SameAuthority(host, s, t)
      {
        ListedInScope(host, child, s);
        var t := InScope(host, parent, host.lower(host.text(s)));
        assert SameAuthority(host, s, t);
      }
    }
    if Narrower(host, child, parent) {
      NarrowerScope(host, child, parent);
    }
  }

  lemma KidsAre(v: Value)
    ensures Kids(v) == Listed(v, "children")
  {
  }

  /** The rule of the authority check at one node: each child listed under `children` is narrower. */
  lemma ScopesMean(host: Host, v: Value)
    ensures Fits(Scopes, host, v)
         == Success(forall k :: k in Listed(v, "children") ==> Narrower(host, k, v))
  {
    hide Scope, Narrower;
    KidsAre(v);
    forall k | k in Listed(v, "children") { NarrowerIs(host, k, v); }
  }

  /** In a tree that passed, whatever a node lists, every node above it lists too, up to upper and lower case. */
  lemma AncestorsListIt(host: Host, value: Value, p: seq<nat>, q: seq<nat>)
    requires Distinct(host, [AsRecord(value)], {}, 0)
    requires Check(Scopes, host, value) == Success(true)
    requires IsPath(AsRecord(value), p + q)
    ensures IsPath(AsRecord(value), p)
    ensures Narrower(host, At(AsRecord(value), p + q), At(AsRecord(value), p))
  {
    hide Check, Distinct, Scope, Narrower;
    PassedScopesNarrow(host, value, p, q);
    NarrowerIs(host, At(AsRecord(value), p + q), At(AsRecord(value), p));
  }

  // ----- Budgets -----

  /** What a node has been allocated; nothing if it is no object. */
  function Allocated(v: Value): Value {
    if v.Obj? then Held(v.fields, "budget_allocated_micro") else Undefined
  }

  lemma BudgetIs(v: Value, n: int)
    requires Denotes(Allocated(v), n)
    ensures Budget(v) == Some(n)
  {
    hide Denotes, BigIntOf;
    DenotedIsRead(Allocated(v), n);
    assert "budget_allocated_micro"[0] == 'b' && "length"[0] == 'l';
    assert Prop(v, "budget_allocated_micro") == Allocated(v);
    if Allocated(v).IsNullish() {
      NothingDenotesZero(Allocated(v), n);
      ZeroIsRead();
    }
  }

  lemma NothingDenotesZero(v: Value, n: int)
    requires v.IsNullish() && Denotes(v, n)
    ensures n == 0
  {
  }

  lemma ZeroIsRead()
    ensures BigIntOf(Str("0")) == Some(0)
  {
    BigIntOfText(0);
    IntTextIs(0);
  }

  lemma {:induction false} BudgetsAddUp(vs: seq<Value>, ns: seq<int>)
    requires |vs| == |ns| && forall i :: 0 <= i < |vs| ==> Denotes(Allocated(vs[i]), ns[i])
    ensures SumBudgets(vs) == Some(Sum(ns))
  {
    hide Denotes, Budget;
    if vs != [] {
      BudgetIs(vs[0], ns[0]);
      BudgetsAddUp(vs[1..], ns[1..]);
    }
  }

  /** The rule of the budget check at one node: what the children have been allocated adds up to no more than what the
      node has. A missing budget counts as zero. */
  lemma BudgetsMean(host: Host, v: Value, own: int, ns: seq<int>)
    requires Denotes(Allocated(v), own) && |ns| == |Listed(v, "children")|
    requires forall i :: 0 <= i < |ns| ==> Denotes(Allocated(Listed(v, "children")[i]), ns[i])
    ensures Fits(Budgets, host, v) == Success(ns == [] || Sum(ns) <= own)
  {
    hide Denotes, Budget;
    KidsAre(v);
    BudgetIs(v, own);
    BudgetsAddUp(Kids(v), ns);
  }

  lemma {:induction false} NoBudgetSum(vs: seq<Value>, i: nat)
    requires i < |vs| && DenotesNone(Allocated(vs[i]))
    ensures SumBudgets(vs) == None
  {
    if i == 0 {
      hide DenotesNone, BigIntOf;
      NoneIsRead(Allocated(vs[0]));
      assert "budget_allocated_micro"[0] == 'b' && "length"[0] == 'l';
      assert Prop(vs[0], "budget_allocated_micro") == Allocated(vs[0]);
    } else {
      NoBudgetSum(vs[1..], i - 1);
    }
  }

  /** A budget that is no integer makes the check of its parent throw. */
  lemma BadBudgetThrows(host: Host, v: Value, i: nat)
    requires i < |Listed(v, "children")| && DenotesNone(Allocated(Listed(v, "children")[i]))
    ensures Fits(Budgets, host, v) == Failure(NotAnInteger)
  {
    hide DenotesNone, Budget;
    KidsAre(v);
    NoBudgetSum(Kids(v), i);
  }

  /** What is no object passes, and so does an object without properties. */
  lemma NoRecordPasses(rule: Rule, host: Host, v: Value, ref: Ref)
    ensures !v.Obj? ==> Check(rule, host, v) == Success(true)
    ensures Check(rule, host, Obj(ref, map[])) == Success(true)
  {
  }

  // ----- Two nodes -----

  /** A node with an id, a budget, the scopes it lists and its children. */
  function Node(id: string, budget: Value, scopes: seq<Value>, children: seq<Value>): Value {
    Obj(Fresh, map["node_id" := Str(id), "budget_allocated_micro" := budget,
                   "authority_scope" := Arr(Fresh, scopes), "children" := Arr(Fresh, children)])
  }

  lemma NodeHolds(id: string, budget: Value, scopes: seq<Value>, children: seq<Value>)
    ensures var v := Node(id, budget, scopes, children);
            && Prop(v, "node_id") == Str(id) && Allocated(v) == budget
            && Listed(v, "authority_scope") == scopes && Listed(v, "children") == children && Kids(v) == children
  {
  }

  lemma ChildlessIsGood(rule: Rule, host: Host, v: Value)
    requires v.Obj? && Kids(v) == []
    ensures Everywhere(rule, host, v) && Within(v, 1)
  {
  }

  lemma SurveyOfRoot(host: Host, v: Value)
    requires v.Obj?
    ensures Survey(host, []) == Census(0, 0, multiset{})
    ensures Survey(host, [v])
         == if Kids(v) == [] then CensusOf(host, v) else CensusOf(host, v).Plus(Survey(host, Kids(v)))
  {
    hide CensusOf, Kids;
    assert [v][..0] == [];
    assert Survey(host, []) == Census(0, 0, multiset{});
  }

  lemma SurveyOfTwo(host: Host, root: Value, child: Value)
    requires root.Obj? && child.Obj? && Kids(root) == [child] && Kids(child) == []
    ensures Survey(host, [root]) == CensusOf(host, root).Plus(CensusOf(host, child))
  {
    hide CensusOf, Survey, Kids;
    SurveyOfRoot(host, root);
    SurveyOfRoot(host, child);
  }

  /** A parent and one child, told apart by their ids: a check passes exactly if the rule holds at the parent. */
  lemma TwoNodes(rule: Rule, host: Host, id: string, budget: Value, scopes: seq<Value>,
                 id': string, budget': Value, scopes': seq<Value>)
    requires host.text(Str(id)) != host.text(Str(id'))
    ensures var root := Node(id, budget, scopes, [Node(id', budget', scopes', [])]);
            Check(rule, host, root) == Success(true) <==> Fits(rule, host, root) == Success(true)
  {
    hide Fits, Check;
    var child := Node(id', budget', scopes', []);
    var root := Node(id, budget, scopes, [child]);
    NodeHolds(id', budget', scopes', []);
    NodeHolds(id, budget, scopes, [child]);
    SurveyOfTwo(host, root, child);
    ChildlessIsGood(rule, host, child);
    assert Survey(host, [root]).ids == multiset{host.text(Str(id)), host.text(Str(id'))};
    assert Distinct(host, [root], {}, 0);
    CheckDecidesRule(rule, host, root);
    assert child in Kids(root);
    assert Within(root, 0);
  }

  /** One scope above and one below: the check passes exactly if they are equal in lower case. */
  lemma OneScopeEach(host: Host, id: string, id': string, x: string, y: string)
    requires host.text(Str(id)) != host.text(Str(id')) && host.text(Str(x)) == x && host.text(Str(y)) == y
    ensures Check(Scopes, host, Node(id, Null, [Str(x)], [Node(id', Null, [Str(y)], [])])) == Success(true)
       <==> host.lower(x) == host.lower(y)
  {
    hide Check, Fits;
    var child := Node(id', Null, [Str(y)], []);
    var root := Node(id, Null, [Str(x)], [child]);
    NodeHolds(id', Null, [Str(y)], []);
    NodeHolds(id, Null, [Str(x)], [child]);
    TwoNodes(Scopes, host, id, Null, [Str(x)], id', Null, [Str(y)]);
    ScopesMean(host, root);
    assert child in Listed(root, "children");
    assert Str(y) in Listed(child, "authority_scope") && Str(x) in Listed(root, "authority_scope");
    assert Narrower(host, child, root) <==> SameAuthority(host, Str(y), Str(x));
  }

  /** One child: the check passes exactly if the child's budget is no larger. */
  lemma OneBudgetEach(host: Host, id: string, id': string, budget: Value, m: int, budget': Value, n: int)
    requires host.text(Str(id)) != host.text(Str(id')) && Denotes(budget, m) && Denotes(budget', n)
    ensures Check(Budgets, host, Node(id, budget, [], [Node(id', budget', [], [])])) == Success(true) <==> n <= m
  {
    hide Check, Fits, Denotes;
    var child := Node(id', budget', [], []);
    var root := Node(id, budget, [], [child]);
    NodeHolds(id', budget', [], []);
    NodeHolds(id, budget, [], [child]);
    TwoNodes(Budgets, host, id, budget, [], id', budget', []);
    assert [n][1..] == [] && Sum([n]) == n;
    BudgetsMean(host, root, m, [n]);
  }

  // ----- The limits -----

  /** A node without an id, with these children and nothing else. */
  function Plain(children: seq<Value>): Value {
    Obj(Fresh, map["children" := Arr(Fresh, children)])
  }

  lemma PlainHolds(children: seq<Value>)
    ensures var v := Plain(children);
            && v.Obj? && Kids(v) == Listed(v, "children") == children && Listed(v, "authority_scope") == []
            && Allocated(v) == Undefined && Prop(v, "node_id") == Undefined
  {
    assert "children"[0] == 'c' && "authority_scope"[0] == 'a' && "budget_allocated_micro"[0] == 'b';
    assert "node_id"[0] == 'n';
  }

  lemma {:induction false} ZerosAddUp(n: nat)
    ensures Sum(seq(n, i => 0)) == 0
  {
    if n > 0 {
      assert seq(n, i => 0)[1..] == seq(n - 1, i => 0);
      ZerosAddUp(n - 1);
    }
  }

  /** Nodes that have nothing and list nothing obey both rules. */
  lemma PlainFits(rule: Rule, host: Host, children: seq<Value>)
    requires forall k :: k in children ==> Allocated(k) == Undefined && Listed(k, "authority_scope") == []
    ensures Fits(rule, host, Plain(children)) == Success(true)
  {
    hide Fits;
    PlainHolds(children);
    match rule
    case Scopes => ScopesMean(host, Plain(children));
    case Budgets =>
      ZerosAddUp(|children|);
      BudgetsMean(host, Plain(children), 0, seq(|children|, i => 0));
  }

  /** `n` nodes below each other, the last without a child. */
  function Line(n: nat): Value {
    if n == 0 then Plain([]) else Plain([Line(n - 1)])
  }

  lemma LineHolds(n: nat)
    ensures Line(n).Obj? && Allocated(Line(n)) == Undefined && Listed(Line(n), "authority_scope") == []
    ensures Kids(Line(n)) == if n == 0 then [] else [Line(n - 1)]
    ensures Prop(Line(n), "node_id") == Undefined
  {
    hide Line;
    LineIs(n);
    PlainHolds(if n == 0 then [] else [Line(n - 1)]);
  }

  lemma LineIs(n: nat)
    ensures Line(n) == Plain(if n == 0 then [] else [Line(n - 1)])
  {
    hide Plain;
  }

  lemma {:induction false} LineObeys(rule: Rule, host: Host, n: nat)
    ensures Everywhere(rule, host, Line(n))
  {
    hide Fits, Line, Plain, Kids, Allocated, Listed;
    LineHolds(n);
    LineIs(n);
    if n > 0 {
      LineHolds(n - 1);
      LineObeys(rule, host, n - 1);
    }
    PlainFits(rule, host, if n == 0 then [] else [Line(n - 1)]);
  }

  lemma {:induction false} LineWithin(n: nat, depth: nat)
    ensures Within(Line(n), depth) <==> depth + n <= 10
  {
    hide Line, Kids;
    LineHolds(n);
    if n > 0 {
      LineWithin(n - 1, depth + 1);
      assert Line(n - 1) in Kids(Line(n));
    }
  }

  lemma {:induction false} LineCounts(host: Host, n: nat)
    ensures Survey(host, [Line(n)]) == Census(n + 1, n + 1, multiset{})
  {
    hide Line, Kids, Survey;
    LineHolds(n);
    SurveyOfRoot(host, Line(n));
    if n > 0 {
      LineCounts(host, n - 1);
    }
  }

  lemma AnonymousIsDistinct(host: Host, v: Value)
    requires CountsDiffer(host) && Survey(host, [v]).ids == multiset{}
    ensures Distinct(host, [v], {}, 0)
  {
  }

  /** Nodes below each other pass as long as the last is at most ten levels below the first. */
  lemma DepthLimit(rule: Rule, host: Host, n: nat)
    requires CountsDiffer(host)
    ensures Check(rule, host, Line(n)) == Success(true) <==> n <= 10
  {
    hide Check, Fits, Distinct, Everywhere, Within, Line, Kids, Survey;
    LineHolds(n);
    LineObeys(rule, host, n);
    LineWithin(n, 0);
    LineCounts(host, n);
    AnonymousIsDistinct(host, Line(n));
    CheckDecidesRule(rule, host, Line(n));
  }

  /** `n` nodes side by side. */
  function Row(n: nat): (vs: seq<Value>)
    ensures |vs| == n && forall v :: v in vs ==> v == Plain([])
  {
    seq(n, i => Plain([]))
  }

  lemma {:induction false} RowIs(host: Host, n: nat)
    ensures Survey(host, Row(n)) == Census(n, n, multiset{})
  {
    if n > 0 {
      assert Row(n)[..n - 1] == Row(n - 1);
      RowIs(host, n - 1);
      PlainHolds([]);
    }
  }

  lemma RowCounts(host: Host, n: nat)
    ensures Survey(host, [Plain(Row(n))]) == Census(n + 1, n + 1, multiset{})
  {
    hide Row, Plain, Kids, Survey;
    PlainHolds(Row(n));
    RowIs(host, n);
    SurveyOfRoot(host, Plain(Row(n)));
  }

  lemma RowObeys(rule: Rule, host: Host, n: nat)
    ensures Everywhere(rule, host, Plain(Row(n))) && Within(Plain(Row(n)), 0)
  {
    hide Fits, Row, Plain, Kids, Allocated, Listed;
    PlainHolds(Row(n));
    PlainHolds([]);
    PlainFits(rule, host, Row(n));
    PlainFits(rule, host, []);
    assert Everywhere(rule, host, Plain([])) && Within(Plain([]), 1);
  }

  /** A node and its children pass as long as they are at most a hundred together. */
  lemma NodeLimit(rule: Rule, host: Host, n: nat)
    requires CountsDiffer(host)
    ensures Check(rule, host, Plain(Row(n))) == Success(true) <==> n + 1 <= 100
  {
    hide Check, Fits, Distinct, Everywhere, Within, Survey, Kids, Row;
    var root := Plain(Row(n));
    RowObeys(rule, host, n);
    RowCounts(host, n);
    AnonymousIsDistinct(host, root);
    CheckDecidesRule(rule, host, root);
  }
}
