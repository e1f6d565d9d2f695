/** The delegation-tree checks: budgets that children may not overspend and authority they may not widen. Both walk
    the tree with an explicit stack, a set of visited ids, a depth limit and a node limit. */
module Trees {
  import opened Results
  import opened Values

  const MAX_DEPTH := 10
  const MAX_NODES := 100

  /** `BigInt` threw. */
  datatype TreeError = NotAnInteger

  /** Host conversions: `String(v)` and `s.toLowerCase()`. */
  datatype Host = Host(text: Value -> string, lower: string -> string)

  /** Which of the two checks. */
  datatype Rule = Budgets | Scopes

  // ----- Nodes -----

  function AsRecord(v: Value): Value {
    if v.Obj? then v else Obj(Fresh, map[])
  }

  /** The children of a node; a node that is not an object has none. */
  function Kids(v: Value): (kids: seq<Value>)
    ensures forall k :: k in kids ==> k < v
  {
    if v.Obj? && Prop(v, "children").Arr? then Prop(v, "children").elems else []
  }

  function Budget(v: Value): Option<int> {
    BigIntOf(OrElse(Prop(v, "budget_allocated_micro"), Str("0")))
  }

  /** The sum of the budgets; None if one of them is not an integer. */
  function SumBudgets(vs: seq<Value>): Option<int> {
    if vs == [] then Some(0)
    else
      match (Budget(vs[0]), SumBudgets(vs[1..]))
      case (Some(b), Some(n)) => Some(b + n)
      case _ => None
  }

  function Scope(host: Host, v: Value): set<string> {
    var scope := Prop(v, "authority_scope");
    if scope.Arr? then set s | s in scope.elems :: host.lower(host.text(s)) else {}
  }

  // ----- What the checks are for -----

  /** The rule at one node: its children's budgets add up to no more than its own, or each child's scope is within
      its own. */
  function Fits(rule: Rule, host: Host, v: Value): Result<bool, TreeError> {
    match rule
    case Scopes => Success(forall k :: k in Kids(v) ==> Scope(host, k) <= Scope(host, v))
    case Budgets =>
      if Kids(v) == [] then Success(true)
      else
        match (Budget(v), SumBudgets(Kids(v)))
        case (Some(own), Some(sum)) => Success(sum <= own)
        case _ => Failure(NotAnInteger)
  }

  /** The rule holds at every node of the tree. */
  predicate Everywhere(rule: Rule, host: Host, v: Value) {
    v.IsObject() ==> Fits(rule, host, v) == Success(true) && forall k :: k in Kids(v) ==> Everywhere(rule, host, k)
  }

  /** No node lies deeper than the limit, counting `depth` for this one. */
  predicate Within(v: Value, depth: nat) {
    v.IsObject() ==> depth <= MAX_DEPTH && forall k :: k in Kids(v) ==> Within(k, depth + 1)
  }

  /** The rule can be decided at every node: every budget that matters is an integer. */
  predicate Decidable(rule: Rule, host: Host, v: Value) {
    v.IsObject() ==> Fits(rule, host, v).Success? && forall k :: k in Kids(v) ==> Decidable(rule, host, k)
  }

  /** How many nodes, how many of them without an id, and the ids of the others. */
  datatype Census = Census(nodes: nat, anonymous: nat, ids: multiset<string>) {
    function Plus(other: Census): Census {
      Census(nodes + other.nodes, anonymous + other.anonymous, ids + other.ids)
    }
  }

  function CensusOf(host: Host, v: Value): Census {
    var id := Prop(v, "node_id");
    if id.IsNullish() then Census(1, 1, multiset{}) else Census(1, 0, multiset{host.text(id)})
  }

  /** The census of all the nodes of some trees. */
  function Survey(host: Host, vs: seq<Value>): Census
    decreases vs
  {
    if vs == [] then Census(0, 0, multiset{})
    else
      var v, rest := vs[|vs| - 1], Survey(host, vs[..|vs| - 1]);
      if !v.IsObject() then rest
      else if Kids(v) == [] then rest.Plus(CensusOf(host, v))
      else rest.Plus(CensusOf(host, v)).Plus(Survey(host, Kids(v)))
  }

  /** The id a node without one is visited under: how many nodes have been taken from the stack. */
  function CountId(host: Host, count: nat): string {
    host.text(Num(count as real))
  }

  ghost predicate CountsDiffer(host: Host) {
    forall i: nat, j: nat :: CountId(host, i) == CountId(host, j) ==> i == j
  }

  /** The ids tell the nodes of the trees apart from each other and from those visited: no id occurs twice, and where
      some node has none, no id reads like a count still to come. */
  ghost predicate Distinct(host: Host, vs: seq<Value>, visited: set<string>, count: nat) {
    var survey := Survey(host, vs);
    && (forall id :: id in survey.ids ==> survey.ids[id] == 1 && id !in visited)
    && (survey.anonymous == 0 ||
        (CountsDiffer(host) && forall i: nat :: i > count ==>
           CountId(host, i) !in survey.ids && CountId(host, i) !in visited))
  }

  // ----- The walk -----

  datatype Item = Item(node: Value, depth: nat)

  function Items(vs: seq<Value>, depth: nat): seq<Item> {
    seq(|vs|, i requires 0 <= i < |vs| => Item(vs[i], depth))
  }

  function Nodes(stack: seq<Item>): seq<Value> {
    seq(|stack|, i requires 0 <= i < |stack| => stack[i].node)
  }

  function VisitId(host: Host, v: Value, count: nat): string {
    host.text(OrElse(Prop(v, "node_id"), Num(count as real)))
  }

  /** The stack when its last node has been taken and the node's children pushed. */
  function Expanded(stack: seq<Item>): seq<Item>
    requires stack != []
  {
    var top := stack[|stack| - 1];
    stack[..|stack| - 1] + Items(Kids(top.node), top.depth + 1)
  }

  /** What remains to be decided with this stack, these ids visited and this many nodes counted. */
  function Walk(rule: Rule, host: Host, stack: seq<Item>, visited: set<string>, count: nat): Result<bool, TreeError>
    requires count <= MAX_NODES
    decreases MAX_NODES - count, |stack|
  {
    if stack == [] then Success(true)
    else
      var top, rest := stack[|stack| - 1], stack[..|stack| - 1];
      if !top.node.IsObject() then Walk(rule, host, rest, visited, count)
      else if top.depth > MAX_DEPTH || count == MAX_NODES then Success(false)
      else
        var id := VisitId(host, top.node, count + 1);
        if id in visited then Walk(rule, host, rest, visited, count + 1)
        else
          var fits :- Fits(rule, host, top.node);
          if !fits then Success(false)
          else
            Walk(rule, host, Expanded(stack), visited + {id}, count + 1)
  }

  /** The result of a check on the value of its argument. */
  function Check(rule: Rule, host: Host, value: Value): Result<bool, TreeError> {
    var root := AsRecord(value);
    if root.fields == map[] then Success(true) else Walk(rule, host, [Item(root, 0)], {}, 0)
  }

  // ----- The two loops -----

  /** One turn of the walk. */
  lemma WalkTurn(rule: Rule, host: Host, stack: seq<Item>, visited: set<string>, count: nat)
    requires stack != [] && count <= MAX_NODES
    ensures var top, rest := stack[|stack| - 1], stack[..|stack| - 1];
            var id, walk := VisitId(host, top.node, count + 1), Walk(rule, host, stack, visited, count);
            if !top.node.IsObject() then walk == Walk(rule, host, rest, visited, count)
            else if top.depth > MAX_DEPTH || count == MAX_NODES then walk == Success(false)
            else if id in visited then walk == Walk(rule, host, rest, visited, count + 1)
            else
              match Fits(rule, host, top.node)
              case Failure(e) => walk == Failure(e)
              case Success(fits) =>
                walk == if fits then Walk(rule, host, Expanded(stack), visited + {id}, count + 1) else Success(false)
  {
    hide Fits, Expanded;
  }

  lemma WalkIsOver(rule: Rule, host: Host, visited: set<string>, count: nat)
    requires count <= MAX_NODES
    ensures Walk(rule, host, [], visited, count) == Success(true)
  {
  }

  method SumChildren(kids: seq<Value>) returns (sum: Option<int>)
    ensures sum == SumBudgets(kids)
  {
    var childSum := 0;
    for i := 0 to |kids|
      invariant match SumBudgets(kids[i..])
                case Some(n) => SumBudgets(kids) == Some(childSum + n)
                case None => SumBudgets(kids).None?
    {
      assert kids[i..][1..] == kids[i + 1..];
      match Budget(kids[i]) {
        case None => return None;
        case Some(b) => childSum := childSum + b;
      }
    }
    return Some(childSum);
  }

  method PushAll(stack: seq<Item>, kids: seq<Value>, depth: nat) returns (pushed: seq<Item>)
    ensures pushed == stack + Items(kids, depth)
  {
    pushed := stack;
    for i := 0 to |kids|
      invariant pushed == stack + Items(kids[..i], depth)
    {
      pushed := pushed + [Item(kids[i], depth)];
    }
    assert kids[..|kids|] == kids;
  }

  method TreeBudgetConserved(host: Host, value: Value) returns (r: Result<bool, TreeError>)
    ensures r == Check(Budgets, host, value)
  {
    hide Walk, Kids, Budget, SumBudgets;
    var root := AsRecord(value);
    if root.fields == map[] {
      return Success(true);
    }
    var visited: set<string> := {};
    var stack := [Item(root, 0)];
    var nodeCount := 0;
    while stack != []
      invariant nodeCount <= MAX_NODES
      invariant Walk(Budgets, host, stack, visited, nodeCount) == Check(Budgets, host, value)
      decreases MAX_NODES - nodeCount, |stack|
    {
      WalkTurn(Budgets, host, stack, visited, nodeCount);
      var top := stack[|stack| - 1];
      stack := stack[..|stack| - 1];
      if !top.node.IsObject() {
        continue;
      }
      nodeCount := nodeCount + 1;
      if top.depth > MAX_DEPTH {
        return Success(false);
      }
      if nodeCount > MAX_NODES {
        return Success(false);
      }
      var nodeId := VisitId(host, top.node, nodeCount);
      if nodeId in visited {
        continue;
      }
      visited := visited + {nodeId};
      var children := Kids(top.node);
      if children == [] {
        assert stack + Items(children, top.depth + 1) == stack;
        continue;
      }
      var parentBudget := Budget(top.node);
      if parentBudget.None? {
        return Failure(NotAnInteger);
      }
      var childSum := SumChildren(children);
      if childSum.None? {
        return Failure(NotAnInteger);
      }
      if childSum.value > parentBudget.value {
        return Success(false);
      }
      stack := PushAll(stack, children, top.depth + 1);
    }
    WalkIsOver(Budgets, host, visited, nodeCount);
    return Success(true);
  }

  /** An entry of the other stack: the node's own scope travels with it. */
  datatype ScopedItem = ScopedItem(node: Value, parentScope: set<string>, depth: nat)

  function Unscoped(stack: seq<ScopedItem>): seq<Item> {
    seq(|stack|, i requires 0 <= i < |stack| => Item(stack[i].node, stack[i].depth))
  }

  predicate OwnScopes(host: Host, stack: seq<ScopedItem>) {
    forall i :: 0 <= i < |stack| ==> stack[i].parentScope == Scope(host, stack[i].node)
  }

  /** Push the children whose scopes are within `parentScope`, up to the first that has a wider one. */
  method PushNarrower(host: Host, stack: seq<ScopedItem>, kids: seq<Value>, parentScope: set<string>, depth: nat)
    returns (pushed: seq<ScopedItem>, narrow: bool)
    requires OwnScopes(host, stack)
    ensures narrow <==> forall k :: k in kids ==> Scope(host, k) <= parentScope
    ensures narrow ==> OwnScopes(host, pushed) && Unscoped(pushed) == Unscoped(stack) + Items(kids, depth)
  {
    pushed := stack;
    for i := 0 to |kids|
      invariant forall j :: 0 <= j < i ==> Scope(host, kids[j]) <= parentScope
      invariant OwnScopes(host, pushed) && Unscoped(pushed) == Unscoped(stack) + Items(kids[..i], depth)
    {
      var childScopes := Scope(host, kids[i]);
      var child := ScopedItem(kids[i], childScopes, depth);
      assert Items(kids[..i + 1], depth) == Items(kids[..i], depth) + [Item(kids[i], depth)];
      assert Unscoped(pushed + [child]) == Unscoped(pushed) + [Item(kids[i], depth)];
      if childScopes == {} {
        pushed := pushed + [child];
        continue;
      }
      if !(childScopes <= parentScope) {
        return pushed, false;
      }
      pushed := pushed + [child];
    }
    assert kids[..|kids|] == kids;
    return pushed, true;
  }

  method TreeAuthorityNarrowing(host: Host, value: Value) returns (r: Result<bool, TreeError>)
    ensures r == Check(Scopes, host, value)
  {
    hide Walk, Kids, Scope;
    var root := AsRecord(value);
    if root.fields == map[] {
      return Success(true);
    }
    var visited: set<string> := {};
    var stack := [ScopedItem(root, Scope(host, root), 0)];
    var nodeCount := 0;
    assert Unscoped(stack) == [Item(root, 0)];
    while stack != []
      invariant nodeCount <= MAX_NODES
      invariant OwnScopes(host, stack)
      invariant Walk(Scopes, host, Unscoped(stack), visited, nodeCount) == Check(Scopes, host, value)
      decreases MAX_NODES - nodeCount, |stack|
    {
      WalkTurn(Scopes, host, Unscoped(stack), visited, nodeCount);
      var top := stack[|stack| - 1];
      assert Unscoped(stack)[..|stack| - 1] == Unscoped(stack[..|stack| - 1]);
      stack := stack[..|stack| - 1];
      if !top.node.IsObject() {
        continue;
      }
      nodeCount := nodeCount + 1;
      if top.depth > MAX_DEPTH {
        return Success(false);
      }
      if nodeCount > MAX_NODES {
        return Success(false);
      }
      var nodeId := VisitId(host, top.node, nodeCount);
      if nodeId in visited {
        continue;
      }
      visited := visited + {nodeId};
      var narrow;
      stack, narrow := PushNarrower(host, stack, Kids(top.node), top.parentScope, top.depth + 1);
      if !narrow {
        return Success(false);
      }
    }
    WalkIsOver(Scopes, host, visited, nodeCount);
    return Success(true);
  }

  // ----- The walk decides the rule -----

  lemma PlusAssociates(a: Census, b: Census, c: Census)
    ensures a.Plus(b).Plus(c) == a.Plus(b.Plus(c))
    ensures a.Plus(Census(0, 0, multiset{})) == a
  {
  }

  lemma {:induction false} SurveyAppend(host: Host, a: seq<Value>, b: seq<Value>)
    ensures Survey(host, a + b) == Survey(host, a).Plus(Survey(host, b))
  {
    hide Census.Plus, CensusOf, Kids;
    if b == [] {
      assert a + b == a;
      PlusAssociates(Survey(host, a), Survey(host, a), Survey(host, a));
    } else {
      var kids := Survey(host, Kids(b[|b| - 1]));
      var front := Survey(host, b[..|b| - 1]);
      PlusAssociates(Survey(host, a), front, CensusOf(host, b[|b| - 1]));
      PlusAssociates(Survey(host, a), front.Plus(CensusOf(host, b[|b| - 1])), kids);
      var n := |b| - 1;
      SurveyAppend(host, a, b[..n]);
      assert (a + b)[..|a + b| - 1] == a + b[..n];
    }
  }

  /** Taking a node from the stack and pushing its children takes just that node out of the survey. */
  lemma SurveyStep(host: Host, stack: seq<Item>)
    requires stack != []
    ensures var top, rest := stack[|stack| - 1], stack[..|stack| - 1];
            var next := Expanded(stack);
            Survey(host, Nodes(stack)) ==
            if top.node.IsObject() then Survey(host, Nodes(next)).Plus(CensusOf(host, top.node))
            else Survey(host, Nodes(rest))
  {
    var top, rest := stack[|stack| - 1], stack[..|stack| - 1];
    var next := Expanded(stack);
    assert Nodes(stack)[..|stack| - 1] == Nodes(rest);
    assert Nodes(next) == Nodes(rest) + Kids(top.node);
    SurveyAppend(host, Nodes(rest), Kids(top.node));
  }

  /** Everything on the stack obeys the rule and the depth limit. */
  predicate Good(rule: Rule, host: Host, stack: seq<Item>) {
    forall i :: 0 <= i < |stack| ==> Everywhere(rule, host, stack[i].node) && Within(stack[i].node, stack[i].depth)
  }

  lemma GoodStep(rule: Rule, host: Host, stack: seq<Item>)
    requires stack != [] && stack[|stack| - 1].node.IsObject()
    ensures var top, rest := stack[|stack| - 1], stack[..|stack| - 1];
            Good(rule, host, stack) <==>
              && top.depth <= MAX_DEPTH && Fits(rule, host, top.node) == Success(true)
              && Good(rule, host, Expanded(stack))
  {
    hide Fits;
    var top, rest := stack[|stack| - 1], stack[..|stack| - 1];
    var kids := Kids(top.node);
    var next := rest + Items(kids, top.depth + 1);
    assert stack == rest + [top];
    if Good(rule, host, stack) {
      assert Everywhere(rule, host, top.node) && Within(top.node, top.depth);
      forall i | 0 <= i < |next| ensures Everywhere(rule, host, next[i].node) && Within(next[i].node, next[i].depth) {
        if i < |rest| {
          assert next[i] == stack[i];
        } else {
          assert next[i].node in kids;
        }
      }
    }
    if top.depth <= MAX_DEPTH && Fits(rule, host, top.node) == Success(true) && Good(rule, host, next) {
      forall i | 0 <= i < |stack|
        ensures Everywhere(rule, host, stack[i].node) && Within(stack[i].node, stack[i].depth)
      {
        if i < |rest| {
          assert next[i] == stack[i];
        } else {
          forall k | k in kids ensures Everywhere(rule, host, k) && Within(k, top.depth + 1) {
            var j :| 0 <= j < |kids| && kids[j] == k;
            assert next[|rest| + j] == Item(k, top.depth + 1);
          }
        }
      }
    }
  }

  /** Whatever the ids, a tree that obeys the rule within the limits passes: skipping nodes only drops checks. */
  lemma {:induction false} WalkPasses(rule: Rule, host: Host, stack: seq<Item>, visited: set<string>, count: nat)
    requires Good(rule, host, stack)
    requires count + Survey(host, Nodes(stack)).nodes <= MAX_NODES
    ensures Walk(rule, host, stack, visited, count) == Success(true)
    decreases MAX_NODES - count, |stack|
  {
    hide Fits, Everywhere, Within, Survey;
    if stack != [] {
      var top, rest := stack[|stack| - 1], stack[..|stack| - 1];
      var next := Expanded(stack);
      SurveyStep(host, stack);
      assert Good(rule, host, rest);
      if !top.node.IsObject() {
        WalkPasses(rule, host, rest, visited, count);
      } else {
        GoodStep(rule, host, stack);
        SurveyAppend(host, Nodes(rest), Kids(top.node));
        assert Nodes(next) == Nodes(rest) + Kids(top.node);
        WalkPasses(rule, host, rest, visited, count + 1);
        WalkPasses(rule, host, next, visited + {VisitId(host, top.node, count + 1)}, count + 1);
      }
    }
  }

  /** With distinct ids, the node on top has not been visited, and those left stay distinct. */
  lemma DistinctStep(host: Host, stack: seq<Item>, visited: set<string>, count: nat)
    requires stack != [] && stack[|stack| - 1].node.IsObject()
    requires Distinct(host, Nodes(stack), visited, count)
    ensures var top, rest := stack[|stack| - 1], stack[..|stack| - 1];
            var id := VisitId(host, top.node, count + 1);
            id !in visited &&
            Distinct(host, Nodes(Expanded(stack)), visited + {id}, count + 1)
  {
    hide Survey;
    SurveyStep(host, stack);
    var top, rest := stack[|stack| - 1], stack[..|stack| - 1];
    var survey := Survey(host, Nodes(stack));
    var left := Survey(host, Nodes(Expanded(stack)));
    if Prop(top.node, "node_id").IsNullish() {
      assert VisitId(host, top.node, count + 1) == CountId(host, count + 1);
    } else {
      var id := host.text(Prop(top.node, "node_id"));
      assert id in survey.ids;
      assert forall x :: x in left.ids ==> x in survey.ids && survey.ids[x] == left.ids[x] + if x == id then 1 else 0;
    }
  }

  /** With distinct ids, a tree that passes obeys the rule within the limits. */
  lemma {:induction false} WalkMeans(rule: Rule, host: Host, stack: seq<Item>, visited: set<string>, count: nat)
    requires count <= MAX_NODES
    requires Distinct(host, Nodes(stack), visited, count)
    requires Walk(rule, host, stack, visited, count) == Success(true)
    ensures Good(rule, host, stack) && count + Survey(host, Nodes(stack)).nodes <= MAX_NODES
    decreases MAX_NODES - count, |stack|
  {
    hide Fits, Survey, Distinct, Everywhere, Within;
    if stack == [] {
      EmptySurvey(host, Nodes(stack));
    } else {
      var top, rest := stack[|stack| - 1], stack[..|stack| - 1];
      SurveyStep(host, stack);
      if top.node.IsObject() {
        DistinctStep(host, stack, visited, count);
        GoodStep(rule, host, stack);
        WalkMeans(rule, host, Expanded(stack),
                  visited + {VisitId(host, top.node, count + 1)}, count + 1);
      } else {
        DistinctRest(host, stack, visited, count);
        WalkMeans(rule, host, rest, visited, count);
        NoNode(rule, host, top.node, top.depth);
      }
    }
  }

  lemma EmptySurvey(host: Host, vs: seq<Value>)
    requires vs == []
    ensures Survey(host, vs).nodes == 0
  {
  }

  lemma DistinctRest(host: Host, stack: seq<Item>, visited: set<string>, count: nat)
    requires stack != [] && !stack[|stack| - 1].node.IsObject()
    requires Distinct(host, Nodes(stack), visited, count)
    ensures Distinct(host, Nodes(stack[..|stack| - 1]), visited, count)
  {
    hide Survey;
    SurveyStep(host, stack);
  }

  lemma NoNode(rule: Rule, host: Host, v: Value, depth: nat)
    requires !v.IsObject()
    ensures Everywhere(rule, host, v) && Within(v, depth)
  {
  }

  /** A check passes trees whose every node obeys the rule, no node deeper than ten and no more than a hundred nodes. */
  lemma GoodTreesPass(rule: Rule, host: Host, value: Value)
    requires Everywhere(rule, host, AsRecord(value)) && Within(AsRecord(value), 0)
    requires Survey(host, [AsRecord(value)]).nodes <= MAX_NODES
    ensures Check(rule, host, value) == Success(true)
  {
    hide Walk, Everywhere, Within, Survey;
    var stack := [Item(AsRecord(value), 0)];
    assert Nodes(stack) == [AsRecord(value)];
    WalkPasses(rule, host, stack, {}, 0);
  }

  /** Where ids are distinct it passes only those. */
  lemma CheckDecidesRule(rule: Rule, host: Host, value: Value)
    requires Distinct(host, [AsRecord(value)], {}, 0)
    ensures var root := AsRecord(value);
            Check(rule, host, value) == Success(true) <==>
              && Everywhere(rule, host, root) && Within(root, 0)
              && Survey(host, [root]).nodes <= MAX_NODES
  {
    hide Walk, Distinct, Fits;
    var root := AsRecord(value);
    var stack := [Item(root, 0)];
    assert Nodes(stack) == [root];
    if root.fields == map[] {
      EmptyRoot(rule, host, root);
    } else if Check(rule, host, value) == Success(true) {
      WalkMeans(rule, host, stack, {}, 0);
      assert stack[0].node == root && stack[0].depth == 0;
    } else if Everywhere(rule, host, root) && Within(root, 0) && Survey(host, [root]).nodes <= MAX_NODES {
      GoodTreesPass(rule, host, value);
    }
  }

  lemma EmptyRoot(rule: Rule, host: Host, root: Value)
    requires root.Obj? && root.fields == map[]
    ensures Everywhere(rule, host, root) && Within(root, 0) && Survey(host, [root]).nodes == 1
  {
    assert Kids(root) == [];
    assert [root][..0] == [];
    assert Survey(host, [root][..0]) == Census(0, 0, multiset{});
  }

  /** Only a budget that is no integer makes a check throw. */
  lemma {:induction false} DecidableNeverThrows(rule: Rule, host: Host, stack: seq<Item>, visited: set<string>,
                                                count: nat)
    requires forall i :: 0 <= i < |stack| ==> Decidable(rule, host, stack[i].node)
    requires count <= MAX_NODES
    ensures Walk(rule, host, stack, visited, count).Success?
    decreases MAX_NODES - count, |stack|
  {
    hide Fits;
    if stack != [] {
      var top, rest := stack[|stack| - 1], stack[..|stack| - 1];
      if !top.node.IsObject() {
        DecidableNeverThrows(rule, host, rest, visited, count);
      } else if count < MAX_NODES {
        DecidableNeverThrows(rule, host, rest, visited, count + 1);
        DecidableNeverThrows(rule, host, Expanded(stack),
                             visited + {VisitId(host, top.node, count + 1)}, count + 1);
      }
    }
  }

  // ----- What decides, whatever the ids -----

  /** A node taken from the stack; it is fresh if no node was visited under its id before. */
  datatype Stop = Stop(node: Value, depth: nat, first: bool)

  /** The nodes taken from the stack if nothing goes wrong: which they are depends on the ids and on no rule. */
  function Tour(host: Host, stack: seq<Item>, visited: set<string>, count: nat): seq<Stop>
    decreases Survey(host, Nodes(stack)).nodes, |stack|
  {
    if stack == [] then []
    else
      var top, rest := stack[|stack| - 1], stack[..|stack| - 1];
      var next := Expanded(stack);
      SurveyStep(host, stack);
      SurveyMore(host, rest, Kids(top.node), top.depth + 1);
      if !top.node.IsObject() then Tour(host, rest, visited, count)
      else
        var id := VisitId(host, top.node, count + 1);
        if id in visited then [Stop(top.node, top.depth, false)] + Tour(host, rest, visited, count + 1)
        else [Stop(top.node, top.depth, true)] + Tour(host, next, visited + {id}, count + 1)
  }

  lemma SurveyMore(host: Host, stack: seq<Item>, kids: seq<Value>, depth: nat)
    ensures Survey(host, Nodes(stack)).nodes <= Survey(host, Nodes(stack + Items(kids, depth))).nodes
  {
    SurveyAppend(host, Nodes(stack), kids);
    assert Nodes(stack + Items(kids, depth)) == Nodes(stack) + kids;
  }

  /** The rule holds at the fresh nodes, none of all lies too deep, and there are no more than `limit`. */
  predicate Passes(rule: Rule, host: Host, tour: seq<Stop>, limit: nat) {
    && |tour| <= limit
    && forall stop :: stop in tour ==>
         stop.depth <= MAX_DEPTH && (stop.first ==> Fits(rule, host, stop.node) == Success(true))
  }

  lemma PassesOn(rule: Rule, host: Host, stop: Stop, rest: seq<Stop>, limit: nat)
    ensures Passes(rule, host, [stop] + rest, limit) <==>
              && limit > 0 && stop.depth <= MAX_DEPTH
              && (stop.first ==> Fits(rule, host, stop.node) == Success(true))
              && Passes(rule, host, rest, limit - 1)
  {
    hide Fits;
    var tour := [stop] + rest;
    assert stop in tour && forall s :: s in rest ==> s in tour;
  }

  /** One turn of the tour. */
  lemma TourTurn(host: Host, stack: seq<Item>, visited: set<string>, count: nat)
    requires stack != []
    ensures var top, rest := stack[|stack| - 1], stack[..|stack| - 1];
            var id, tour := VisitId(host, top.node, count + 1), Tour(host, stack, visited, count);
            if !top.node.IsObject() then tour == Tour(host, rest, visited, count)
            else if id in visited then
              tour == [Stop(top.node, top.depth, false)] + Tour(host, rest, visited, count + 1)
            else tour == [Stop(top.node, top.depth, true)] + Tour(host, Expanded(stack), visited + {id}, count + 1)
  {
    hide Expanded;
  }

  lemma {:induction false} WalkDecidesTour(rule: Rule, host: Host, stack: seq<Item>, visited: set<string>, count: nat)
    requires count <= MAX_NODES
    ensures Walk(rule, host, stack, visited, count) == Success(true) <==>
              Passes(rule, host, Tour(host, stack, visited, count), MAX_NODES - count)
    decreases MAX_NODES - count, |stack|
  {
    if stack == [] {
      NoStops(rule, host, MAX_NODES - count);
    } else {
      hide Fits, Passes, Walk, Tour, Expanded;
      var top, rest := stack[|stack| - 1], stack[..|stack| - 1];
      var next, id := Expanded(stack), VisitId(host, top.node, count + 1);
      WalkTurn(rule, host, stack, visited, count);
      TourTurn(host, stack, visited, count);
      if !top.node.IsObject() {
        WalkDecidesTour(rule, host, rest, visited, count);
      } else {
        var first := id !in visited;
        var others := if first then Tour(host, next, visited + {id}, count + 1)
                      else Tour(host, rest, visited, count + 1);
        PassesOn(rule, host, Stop(top.node, top.depth, first), others, MAX_NODES - count);
        if count < MAX_NODES {
          if first {
            WalkDecidesTour(rule, host, next, visited + {id}, count + 1);
          } else {
            WalkDecidesTour(rule, host, rest, visited, count + 1);
          }
        }
      }
    }
  }

  lemma NoStops(rule: Rule, host: Host, limit: nat)
    ensures Passes(rule, host, [], limit)
  {
  }

  /** Distinct ids or not, a check passes exactly if the rule holds at the nodes first visited under their id, and the
      limits hold for all nodes taken from the stack. */
  lemma CheckDecidesFirstVisits(rule: Rule, host: Host, value: Value)
    ensures Check(rule, host, value) == Success(true) <==>
              Passes(rule, host, Tour(host, [Item(AsRecord(value), 0)], {}, 0), MAX_NODES)
  {
    hide Walk, Passes, Tour;
    var root := AsRecord(value);
    var stack := [Item(root, 0)];
    WalkDecidesTour(rule, host, stack, {}, 0);
    if root.fields == map[] {
      EmptyRootPasses(rule, host, root);
    }
  }

  lemma EmptyRootPasses(rule: Rule, host: Host, root: Value)
    requires root.Obj? && root.fields == map[]
    ensures Walk(rule, host, [Item(root, 0)], {}, 0) == Success(true)
  {
    assert Kids(root) == [];
    assert [Item(root, 0)][..0] + Items([], 1) == [];
  }

  // ----- What a passed check is worth -----

  /** A path names a node by the positions of the children on the way to it. */
  predicate IsPath(v: Value, path: seq<nat>)
    decreases |path|
  {
    path == [] || (path[0] < |Kids(v)| && IsPath(Kids(v)[path[0]], path[1..]))
  }

  function At(v: Value, path: seq<nat>): Value
    requires IsPath(v, path)
    decreases |path|
  {
    if path == [] then v else At(Kids(v)[path[0]], path[1..])
  }

  lemma {:induction false} PathAppend(v: Value, p: seq<nat>, q: seq<nat>)
    requires IsPath(v, p + q)
    ensures IsPath(v, p) && IsPath(At(v, p), q) && At(v, p + q) == At(At(v, p), q)
    decreases |p|
  {
    if p == [] {
      assert p + q == q;
    } else {
      assert (p + q)[1..] == p[1..] + q;
      PathAppend(Kids(v)[p[0]], p[1..], q);
    }
  }

  lemma {:induction false} RuleBelow(rule: Rule, host: Host, v: Value, path: seq<nat>)
    requires Everywhere(rule, host, v) && IsPath(v, path)
    ensures Everywhere(rule, host, At(v, path))
    decreases |path|
  {
    hide Fits;
    if path != [] {
      RuleBelow(rule, host, Kids(v)[path[0]], path[1..]);
    }
  }

  function Worth(v: Value): int {
    if Budget(v).Some? then Budget(v).value else 0
  }

  /** The budgets of the leaves of some trees, added up. */
  function LeafSum(vs: seq<Value>): int
    decreases vs
  {
    if vs == [] then 0
    else (if Kids(vs[0]) == [] then Worth(vs[0]) else LeafSum(Kids(vs[0]))) + LeafSum(vs[1..])
  }

  lemma {:induction false} LeavesWithin(host: Host, vs: seq<Value>)
    requires forall v :: v in vs ==> Everywhere(Budgets, host, v)
    requires SumBudgets(vs).Some?
    ensures LeafSum(vs) <= SumBudgets(vs).value
    decreases vs
  {
    hide Budget;
    if vs != [] {
      var v := vs[0];
      assert v in vs;
      LeavesWithin(host, vs[1..]);
      if Kids(v) != [] {
        LeavesWithin(host, Kids(v));
      }
    }
  }

  /** In a tree that passed, the leaves below any node spend no more than that node's budget. */
  lemma PassedBudgetsBoundLeaves(host: Host, value: Value, path: seq<nat>)
    requires Distinct(host, [AsRecord(value)], {}, 0)
    requires Check(Budgets, host, value) == Success(true)
    requires IsPath(AsRecord(value), path)
    ensures LeafSum([At(AsRecord(value), path)]) <= Worth(At(AsRecord(value), path))
  {
    hide Check, Distinct, Budget;
    CheckDecidesRule(Budgets, host, value);
    RuleBelow(Budgets, host, AsRecord(value), path);
    var v := At(AsRecord(value), path);
    assert [v][1..] == [] && LeafSum([v][1..]) == 0;
    if Kids(v) != [] {
      LeavesWithin(host, Kids(v));
    }
  }

  lemma {:induction false} ScopesNarrow(host: Host, v: Value, path: seq<nat>)
    requires Everywhere(Scopes, host, v) && IsPath(v, path)
    ensures Scope(host, At(v, path)) <= Scope(host, v)
    decreases |path|
  {
    hide Scope;
    if path != [] {
      ScopesNarrow(host, Kids(v)[path[0]], path[1..]);
    }
  }

  /** In a tree that passed, no node has authority that any of its ancestors lacks. */
  lemma PassedScopesNarrow(host: Host, value: Value, p: seq<nat>, q: seq<nat>)
    requires Distinct(host, [AsRecord(value)], {}, 0)
    requires Check(Scopes, host, value) == Success(true)
    requires IsPath(AsRecord(value), p + q)
    ensures IsPath(AsRecord(value), p)
    ensures Scope(host, At(AsRecord(value), p + q)) <= Scope(host, At(AsRecord(value), p))
  {
    hide Check, Distinct, Scope, Everywhere;
    CheckDecidesRule(Scopes, host, value);
    PathAppend(AsRecord(value), p, q);
    RuleBelow(Scopes, host, AsRecord(value), p);
    ScopesNarrow(host, At(AsRecord(value), p), q);
  }

  // ----- Repeated ids -----

  /** A node with this id and budget, and these children. */
  function Delegate(id: Value, budget: int, children: seq<Value>): Value {
    Obj(Fresh, map["node_id" := id, "budget_allocated_micro" := Str(IntText(budget)),
                   "children" := Arr(Fresh, children)])
  }

  /** A child that repeats its parent's id hides everything below it: the check passes although the child's children
      overspend it. */
  lemma RepeatedIdHidesOverspending(host: Host, id: Value, budget: int, hidden: seq<Value>)
    requires !id.IsNullish()
    requires SumBudgets(hidden).Some? && SumBudgets(hidden).value > budget && hidden != []
    ensures var root := Delegate(id, budget, [Delegate(id, budget, hidden)]);
            Check(Budgets, host, root) == Success(true) && !Everywhere(Budgets, host, root)
  {
    hide BigIntOf, IntText;
    var child := Delegate(id, budget, hidden);
    var root := Delegate(id, budget, [child]);
    BigIntOfText(budget);
    assert Budget(child) == Budget(root) == Some(budget);
    assert Kids(child) == hidden && Kids(root) == [child];
    assert [child][1..] == [] && SumBudgets([child]) == Some(budget);
    assert Fits(Budgets, host, root) == Success(true);
    assert Fits(Budgets, host, child) == Success(false);
    assert child in Kids(root);
    var stack := [] + Items([child], 1);
    var visited := {} + {VisitId(host, root, 1)};
    assert Walk(Budgets, host, stack, visited, 1) == Success(true) by {
      assert stack == [Item(child, 1)] && stack[..0] == [];
      assert VisitId(host, child, 2) in visited;
      assert Walk(Budgets, host, [], visited, 2) == Success(true);
    }
    assert [Item(root, 0)][..0] == [];
  }
}
