/** `is_valid_dag`: a depth-first search over items that refer to each other by id, with an operation counter
    and structured diagnostics. */
module Dag {
  import opened Results
  import opened Values

  const OP_CAP := 100_000
  const ITEMS_CAP := 10_000
  const BYTES_CAP := 1_048_576

  datatype Phase = Indexing | Dfs | RefResolve

  datatype Oversize = ItemsCount | Bytes

  datatype Diagnostic =
    | OpCapExceeded(phase: Phase, ops: nat)
    | CycleDetected(cycle: seq<string>)
    | DanglingRef(source: nat, field: string, from: string, ref: Value)
    | MissingId(index: nat)
    | NonStringId(index: nat)
    | DuplicateId(id: string, indices: seq<nat>)
    | InputOversize(kind: Oversize, limit: nat, actual: nat)

  // ----- Paths into an item -----

  /** Follow a path through objects only: an empty segment, an array or a missing object on the way gives undefined. */
  function Walk(v: Value, segments: seq<string>): Value
    decreases |segments|
  {
    if segments == [] then v
    else if segments[0] == "" || !v.Obj? then Undefined
    else Walk(Prop(v, segments[0]), segments[1..])
  }

  function ExtractPath(node: Value, path: string): Value {
    if path == "" || '[' in path || ']' in path then Undefined else Walk(node, Split(path, '.'))
  }

  method ExtractPathLoop(node: Value, path: string) returns (current: Value)
    ensures current == ExtractPath(node, path)
  {
    if path == "" || '[' in path || ']' in path {
      return Undefined;
    }
    var segments := Split(path, '.');
    current := node;
    var i := 0;
    while i < |segments|
      invariant 0 <= i <= |segments|
      invariant Walk(current, segments[i..]) == Walk(node, segments)
    {
      assert segments[i..][1..] == segments[i + 1..];
      if segments[i] == "" || !current.Obj? {
        return Undefined;
      }
      current := Prop(current, segments[i]);
      i := i + 1;
    }
  }

  /** A name that is a path of one segment. */
  predicate IsSegmentName(name: string) {
    name != "" && '.' !in name && IsUsable(name)
  }

  predicate IsUsable(path: string) {
    path != "" && '[' !in path && ']' !in path
  }

  /** A path of one name leads to what an object holds under it. */
  lemma ExtractName(v: Value, name: string)
    requires IsSegmentName(name)
    ensures ExtractPath(v, name) == if v.Obj? && name in v.fields then v.fields[name] else Undefined
  {
    hide Split;
    SplitWhole(name, '.');
    assert [name][1..] == [];
    assert v.Obj? ==> Walk(v, [name]) == Walk(Prop(v, name), []);
  }

  lemma {:induction false} WalkAppend(v: Value, segments: seq<string>, more: seq<string>)
    requires more != []
    ensures Walk(v, segments + more) == Walk(Walk(v, segments), more)
    decreases |segments|
  {
    if segments == [] {
      assert segments + more == more;
    } else {
      assert (segments + more)[1..] == segments[1..] + more;
      if segments[0] != "" && v.Obj? {
        WalkAppend(Prop(v, segments[0]), segments[1..], more);
      }
    }
  }

  /** What stands behind a dot is followed in what the path before it leads to. So a dotted path follows its names
      through nested objects. */
  lemma ExtractNested(v: Value, path: string, rest: string)
    requires IsUsable(path) && IsUsable(rest)
    ensures ExtractPath(v, path + "." + rest) == ExtractPath(ExtractPath(v, path), rest)
  {
    hide Split, Walk;
    var whole := path + "." + rest;
    assert forall c :: c in whole <==> c in path || c == '.' || c in rest;
    SplitAppend(path, rest, '.');
    WalkAppend(v, Split(path, '.'), Split(rest, '.'));
  }

  /** An empty path leads nowhere, nor does one with a bracket, or one that starts or ends in a dot. */
  lemma UnusablePaths(v: Value, path: string)
    ensures !IsUsable(path) || path[0] == '.' || path[|path| - 1] == '.' ==> ExtractPath(v, path) == Undefined
  {
    hide Split;
    if IsUsable(path) && path[0] == '.' {
      assert path == "" + "." + path[1..];
      SplitAppend("", path[1..], '.');
      SplitWhole("", '.');
      assert Split(path, '.')[0] == "";
    } else if IsUsable(path) && path[|path| - 1] == '.' {
      var front := path[..|path| - 1];
      assert path == front + "." + "";
      SplitAppend(front, "", '.');
      SplitWhole("", '.');
      WalkAppend(v, Split(front, '.'), [""]);
    }
  }

  // ----- What a valid DAG is -----

  /** An item's id field; Undefined if the item is no object or has none. */
  function IdField(item: Value, idField: string): Value {
    if item.Obj? then Prop(item, idField) else Undefined
  }

  predicate HasId(item: Value, idField: string, id: string) {
    IdField(item, idField) == Str(id)
  }

  predicate IdsPresent(items: seq<Value>, idField: string) {
    forall i :: 0 <= i < |items| ==> IdField(items[i], idField).Str?
  }

  predicate IdsDistinct(items: seq<Value>, idField: string) {
    forall i, j :: 0 <= i < j < |items| ==> IdField(items[i], idField) != IdField(items[j], idField)
  }

  predicate Names(items: seq<Value>, idField: string, id: string) {
    exists i :: 0 <= i < |items| && HasId(items[i], idField, id)
  }

  /** Every reference that is not null is a string that names an item. */
  predicate RefsResolve(items: seq<Value>, idField: string, refFields: seq<string>) {
    forall i, k :: 0 <= i < |items| && 0 <= k < |refFields| ==>
      var ref := ExtractPath(items[i], refFields[k]);
      ref.IsNullish() || (ref.Str? && Names(items, idField, ref.s))
  }

  predicate Refers(item: Value, refFields: seq<string>, id: string) {
    exists k :: 0 <= k < |refFields| && ExtractPath(item, refFields[k]) == Str(id)
  }

  predicate Edge(items: seq<Value>, idField: string, refFields: seq<string>, a: string, b: string) {
    exists i :: 0 <= i < |items| && HasId(items[i], idField, a) && Refers(items[i], refFields, b)
  }

  predicate IsWalk(items: seq<Value>, idField: string, refFields: seq<string>, walk: seq<string>) {
    forall i :: 0 < i < |walk| ==> Edge(items, idField, refFields, walk[i - 1], walk[i])
  }

  ghost predicate Acyclic(items: seq<Value>, idField: string, refFields: seq<string>) {
    forall walk: seq<string> ::
      |walk| >= 2 && IsWalk(items, idField, refFields, walk) ==> walk[0] != walk[|walk| - 1]
  }

  ghost predicate IsDag(items: seq<Value>, idField: string, refFields: seq<string>) {
    && IdsPresent(items, idField) && IdsDistinct(items, idField)
    && RefsResolve(items, idField, refFields)
    && Acyclic(items, idField, refFields)
  }

  /** What each diagnostic that is not about a cap certifies. */
  predicate Justified(d: Diagnostic, items: seq<Value>, idField: string, refFields: seq<string>) {
    match d
    case MissingId(i) =>
      i < |items| && (IdField(items[i], idField).Undefined?)
    case NonStringId(i) =>
      i < |items| && !IdField(items[i], idField).Undefined? && !IdField(items[i], idField).Str?
    case DuplicateId(id, indices) =>
      && |indices| == 2 && indices[0] < indices[1] < |items|
      && HasId(items[indices[0]], idField, id) && HasId(items[indices[1]], idField, id)
    case DanglingRef(source, field, from, ref) =>
      && source < |items| && HasId(items[source], idField, from)
      && field in refFields && ExtractPath(items[source], field) == ref
      && !ref.IsNullish() && !(ref.Str? && Names(items, idField, ref.s))
    case CycleDetected(cycle) =>
      && |cycle| >= 2 && IsWalk(items, idField, refFields, cycle)
      && cycle[|cycle| - 1] in cycle[..|cycle| - 1]
    case OpCapExceeded(_, ops) => ops == 100_001
    case InputOversize(_, limit, actual) => actual > limit
  }

  /** A walk that ends in an item it has been to before holds a cycle. */
  lemma ClosingWalkIsCyclic(walk: seq<string>, items: seq<Value>, idField: string, refFields: seq<string>)
    requires |walk| >= 2 && IsWalk(items, idField, refFields, walk) && walk[|walk| - 1] in walk[..|walk| - 1]
    ensures !Acyclic(items, idField, refFields)
  {
    hide Edge;
    var n := |walk| - 1;
    var i :| 0 <= i < n && walk[..n][i] == walk[n];
    var cycle := walk[i..];
    assert cycle[0] == cycle[|cycle| - 1];
    forall j | 0 < j < |cycle| ensures Edge(items, idField, refFields, cycle[j - 1], cycle[j]) {
      assert walk[i + j - 1] == cycle[j - 1] && walk[i + j] == cycle[j];
      assert Edge(items, idField, refFields, walk[i + j - 1], walk[i + j]);
    }
    assert IsWalk(items, idField, refFields, cycle);
  }

  /** A justified diagnostic that is not about a cap refutes the DAG. */
  lemma JustifiedRefutes(d: Diagnostic, items: seq<Value>, idField: string, refFields: seq<string>)
    requires Justified(d, items, idField, refFields) && !d.OpCapExceeded? && !d.InputOversize?
    ensures !IsDag(items, idField, refFields)
  {
    hide ExtractPath, IsWalk, Acyclic, Names;
    match d
    case CycleDetected(cycle) => ClosingWalkIsCyclic(cycle, items, idField, refFields);
    case DanglingRef(source, field, from, ref) =>
      var k :| 0 <= k < |refFields| && refFields[k] == field;
    case DuplicateId(id, indices) =>
    case MissingId(_) =>
    case NonStringId(_) =>
  }

  // ----- A topological order excludes cycles -----

  predicate RefsAmong(item: Value, refFields: seq<string>, n: nat, ids: set<string>)
    requires n <= |refFields|
  {
    forall k :: 0 <= k < n ==>
      var ref := ExtractPath(item, refFields[k]);
      ref.IsNullish() || (ref.Str? && ref.s in ids)
  }

  function Members(ids: seq<string>): set<string> {
    set id | id in ids
  }

  /** Every item in the order refers only to items before it. */
  predicate Ordered(index: map<string, Value>, refFields: seq<string>, order: seq<string>) {
    forall i :: 0 <= i < |order| ==>
      order[i] in index && RefsAmong(index[order[i]], refFields, |refFields|, Members(order[..i]))
  }

  ghost predicate Indexes(index: map<string, Value>, items: seq<Value>, idField: string) {
    && IdsPresent(items, idField) && IdsDistinct(items, idField)
    && (forall id :: id in index <==> Names(items, idField, id))
    && forall i :: 0 <= i < |items| ==>
         Names(items, idField, IdField(items[i], idField).s) && index[IdField(items[i], idField).s] == items[i]
  }

  function Position(order: seq<string>, id: string): (i: nat)
    requires id in order
    ensures i < |order| && order[i] == id && id !in order[..i]
  {
    if order[0] == id then 0
    else
      var i := Position(order[1..], id);
      assert order[..i + 1] == [order[0]] + order[1..][..i];
      i + 1
  }

  lemma {:induction false} PositionFirst(order: seq<string>, id: string, j: nat)
    requires j < |order| && order[j] == id
    ensures Position(order, id) <= j
  {
    if order[0] != id {
      PositionFirst(order[1..], id, j - 1);
    }
  }

  lemma EdgesGoBack(index: map<string, Value>, items: seq<Value>, idField: string, refFields: seq<string>,
                    order: seq<string>, a: string, b: string)
    requires Indexes(index, items, idField) && Ordered(index, refFields, order)
    requires a in order && Edge(items, idField, refFields, a, b)
    ensures b in order && Position(order, b) < Position(order, a)
  {
    var p := Position(order, a);
    var i :| 0 <= i < |items| && HasId(items[i], idField, a) && Refers(items[i], refFields, b);
    var k :| 0 <= k < |refFields| && ExtractPath(items[i], refFields[k]) == Str(b);
    assert index[a] == items[i];
    assert b in order[..p];
    var j :| 0 <= j < p && order[..p][j] == b;
    PositionFirst(order, b, j);
  }

  lemma {:induction false} WalksGoBack(index: map<string, Value>, items: seq<Value>, idField: string,
                                       refFields: seq<string>, order: seq<string>, walk: seq<string>)
    requires Indexes(index, items, idField) && Ordered(index, refFields, order)
    requires |walk| >= 2 && walk[0] in order && IsWalk(items, idField, refFields, walk)
    ensures walk[|walk| - 1] in order && Position(order, walk[|walk| - 1]) < Position(order, walk[0])
  {
    var n := |walk| - 1;
    if n > 1 {
      WalksGoBack(index, items, idField, refFields, order, walk[..n]);
    }
    EdgesGoBack(index, items, idField, refFields, order, walk[n - 1], walk[n]);
  }

  /** If all items stand in such an order, there is no cycle and every reference resolves. */
  lemma OrderedIsDag(index: map<string, Value>, items: seq<Value>, idField: string, refFields: seq<string>,
                     order: seq<string>)
    requires Indexes(index, items, idField) && Ordered(index, refFields, order)
    requires forall id :: id in index ==> id in order
    ensures IsDag(items, idField, refFields)
  {
    forall walk: seq<string> | |walk| >= 2 && IsWalk(items, idField, refFields, walk)
      ensures walk[0] != walk[|walk| - 1]
    {
      assert Edge(items, idField, refFields, walk[1 - 1], walk[1]);
      assert Names(items, idField, walk[0]);
      WalksGoBack(index, items, idField, refFields, order, walk);
    }
    forall i, k | 0 <= i < |items| && 0 <= k < |refFields|
      ensures var ref := ExtractPath(items[i], refFields[k]);
              ref.IsNullish() || (ref.Str? && Names(items, idField, ref.s))
    {
      var id := IdField(items[i], idField).s;
      assert Names(items, idField, id);
      var p := Position(order, id);
      var ref := ExtractPath(items[i], refFields[k]);
      if !ref.IsNullish() {
        assert ref.s in order[..p];
        var j :| 0 <= j < p && order[..p][j] == ref.s;
        assert order[j] in index;
      }
    }
  }

  lemma NoRefsYet(item: Value, refFields: seq<string>, ids: set<string>)
    ensures RefsAmong(item, refFields, 0, ids)
  {
  }

  lemma StayAmong(item: Value, refFields: seq<string>, n: nat, ids: set<string>, more: set<string>)
    requires n <= |refFields| && RefsAmong(item, refFields, n, ids) && ids <= more
    ensures RefsAmong(item, refFields, n, more)
  {
  }

  lemma OneMore(item: Value, refFields: seq<string>, n: nat, ids: set<string>)
    requires n < |refFields| && RefsAmong(item, refFields, n, ids)
    requires var ref := ExtractPath(item, refFields[n]); ref.IsNullish() || (ref.Str? && ref.s in ids)
    ensures RefsAmong(item, refFields, n + 1, ids)
  {
  }

  // ----- The search -----

  lemma SubsetSize<T>(a: set<T>, b: set<T>)
    requires a <= b
    ensures |a| <= |b|
  {
    assert b == a + (b - a);
  }

  /** What the visits of `n` items may cost with `k` reference fields: resolving each reference and entering its
      target. */
  function Spent(k: nat, n: nat): nat {
    2 * k * n
  }

  lemma SpentOne(k: nat, n: nat)
    ensures Spent(k, n + 1) == Spent(k, n) + 2 * k
  {
  }

  lemma SpentNothing(k: nat)
    ensures Spent(k, 0) == 0
  {
  }

  lemma SpentTotal(k: nat, n: nat)
    ensures 2 * n + Spent(k, n) == 2 * n * (1 + k)
  {
  }

  lemma SpentMore(k: nat, m: nat, n: nat)
    requires m <= n
    ensures Spent(k, m) <= Spent(k, n)
  {
  }

  class DagSearch {
    const items: seq<Value>
    const idField: string
    const refFields: seq<string>
    const index: map<string, Value>
    const idToIndex: map<string, nat>
    var ops: nat
    var visited: set<string>
    var onStack: set<string>
    var diagnostic: Option<Diagnostic>
    ghost var order: seq<string>  // visited, in the order in which the visits finished

    constructor (items: seq<Value>, idField: string, refFields: seq<string>, index: map<string, Value>,
                 idToIndex: map<string, nat>, ops: nat)
      requires Indexes(index, items, idField) && Locates(idToIndex, index, items, idField)
      ensures Valid() && this.items == items && this.idField == idField && this.refFields == refFields
      ensures this.index == index && this.ops == ops
      ensures visited == {} && onStack == {} && diagnostic == None && (ops <= OP_CAP ==> WithinCap())
    {
      this.items, this.idField, this.refFields := items, idField, refFields;
      this.index, this.idToIndex, this.ops := index, idToIndex, ops;
      visited, onStack, diagnostic, order := {}, {}, None, [];
    }

    static predicate Locates(idToIndex: map<string, nat>, index: map<string, Value>, items: seq<Value>,
                             idField: string)
    {
      forall id :: id in index ==>
        id in idToIndex && idToIndex[id] < |items| && HasId(items[idToIndex[id]], idField, id)
        && index[id] == items[idToIndex[id]]
    }

    /** The visited items, in the order they were finished, refer only to earlier ones. */
    ghost predicate Valid()
      reads this
    {
      && Indexes(index, items, idField) && Locates(idToIndex, index, items, idField)
      && visited + onStack <= index.Keys && visited !! onStack
      && (forall id :: id in visited <==> id in order)
      && Ordered(index, refFields, order)
    }

    /** The operations are counted up to the first beyond the cap. */
    ghost predicate WithinCap()
      reads this
    {
      if diagnostic.Some? && diagnostic.value.OpCapExceeded?
      then ops == diagnostic.value.ops == OP_CAP + 1
      else ops <= OP_CAP
    }

    /** `path` is a walk through exactly the items on the stack, ending in a reference to `id`. */
    ghost predicate LeadsTo(path: seq<string>, id: string)
      reads this
    {
      && (forall p :: p in path <==> p in onStack)
      && IsWalk(items, idField, refFields, path + [id])
    }

    /** The start of a visit: count the operation, and find out whether there is anything left to do. */
    method Enter(nodeId: string, path: seq<string>) returns (entered: bool)
      requires Valid() && WithinCap() && diagnostic == None && nodeId in index && LeadsTo(path, nodeId)
      modifies this`ops, this`diagnostic
      ensures Valid() && visited + onStack <= index.Keys && ops == old(ops) + 1
      ensures forall p :: p in path <==> p in onStack
      ensures IsWalk(items, idField, refFields, path + [nodeId])
      ensures diagnostic == None ==> (entered <==> nodeId !in visited) && nodeId !in onStack
      ensures diagnostic.Some? ==>
                !entered && Justified(diagnostic.value, items, idField, refFields)
                && (diagnostic.value.OpCapExceeded? || diagnostic.value.CycleDetected?)
      ensures WithinCap()
    {
      hide Justified, Indexes, IsWalk, ExtractPath, Locates, Ordered, RefsAmong;
      ops := ops + 1;
      if ops > OP_CAP {
        diagnostic := Some(OpCapExceeded(Dfs, ops));
        OverCap(diagnostic.value);
        return false;
      }
      if nodeId in onStack {
        var cycle := path + [nodeId];
        diagnostic := Some(CycleDetected(cycle));
        ClosedWalk(path, nodeId);
        return false;
      }
      return nodeId !in visited;
    }

    method Visit(nodeId: string, path: seq<string>)
      requires Valid() && WithinCap() && diagnostic == None && nodeId in index && LeadsTo(path, nodeId)
      modifies this
      ensures diagnostic == None ==>
                && Valid() && nodeId in visited
                && onStack == old(onStack) && old(visited) <= visited
      ensures diagnostic.Some? ==>
                Justified(diagnostic.value, items, idField, refFields) && !diagnostic.value.InputOversize?
      ensures WithinCap()
      ensures old(visited + onStack) <= visited + onStack <= index.Keys
      ensures old(ops) <= ops
      ensures ops + Spent(|refFields|, |old(visited + onStack)|)
           <= old(ops) + 1 + Spent(|refFields|, |visited + onStack|)
      decreases index.Keys - visited - onStack, 0, 0
    {
      hide Spent, Justified, Indexes, IsWalk, ExtractPath, Locates, Ordered, RefsAmong, LeadsTo, Valid;
      var entered := Enter(nodeId, path);
      if !entered {
        return;
      }
      Push(nodeId, path);
      ResolveRefs(nodeId, path);
      if diagnostic.Some? {
        return;
      }
      Pop(nodeId);
    }

    /** The visit of an item begins. */
    method Push(nodeId: string, path: seq<string>)
      requires Valid() && nodeId in index && nodeId !in visited && nodeId !in onStack
      requires forall p :: p in path <==> p in onStack
      modifies this`onStack
      ensures Valid() && onStack == old(onStack) + {nodeId} && onStack - {nodeId} == old(onStack)
      ensures forall p :: p in path + [nodeId] <==> p in onStack
      ensures visited + onStack == old(visited + onStack) + {nodeId}
      ensures Spent(|refFields|, |visited + onStack|) == Spent(|refFields|, |old(visited + onStack)|) + 2 * |refFields|
    {
      hide Spent, Indexes, Locates, Ordered, RefsAmong;
      SpentOne(|refFields|, |visited + onStack|);
      onStack := onStack + {nodeId};
      assert visited + onStack == old(visited + onStack) + {nodeId};
    }

    /** The visit of an item is over. */
    method Pop(nodeId: string)
      requires Valid() && nodeId in onStack && RefsAmong(index[nodeId], refFields, |refFields|, visited)
      modifies this`onStack, this`visited, this`order
      ensures Valid() && visited == old(visited) + {nodeId} && onStack == old(onStack) - {nodeId}
      ensures visited + onStack == old(visited + onStack)
    {
      hide Indexes, Locates, Ordered, RefsAmong;
      Finish(nodeId);
      onStack := onStack - {nodeId};
      visited := visited + {nodeId};
      order := order + [nodeId];
    }

    /** The loop over the reference fields of an item that has just been put on the stack. */
    method ResolveRefs(nodeId: string, path: seq<string>)
      requires Valid() && WithinCap() && diagnostic == None && nodeId in onStack
      requires forall p :: p in path + [nodeId] <==> p in onStack
      requires IsWalk(items, idField, refFields, path + [nodeId])
      modifies this
      ensures diagnostic == None ==>
                && Valid() && RefsAmong(index[nodeId], refFields, |refFields|, visited)
                && onStack == old(onStack) && old(visited) <= visited
      ensures diagnostic.Some? ==>
                Justified(diagnostic.value, items, idField, refFields) && !diagnostic.value.InputOversize?
      ensures WithinCap()
      ensures old(visited + onStack) <= visited + onStack <= index.Keys
      ensures old(ops) <= ops
      ensures ops + Spent(|refFields|, |old(visited + onStack)|)
           <= old(ops) + 2 * |refFields| + Spent(|refFields|, |visited + onStack|)
      decreases index.Keys - visited - onStack, 2, 0
    {
      hide Spent, Justified, Indexes, IsWalk, ExtractPath, Locates, Ordered, RefsAmong;
      var j := 0;
      NoRefsYet(index[nodeId], refFields, visited);
      while j < |refFields|
        invariant 0 <= j <= |refFields| && WithinCap() && diagnostic == None
        invariant Valid() && onStack == old(onStack) && old(visited) <= visited
        invariant RefsAmong(index[nodeId], refFields, j, visited)
        invariant old(ops) <= ops
        invariant ops + Spent(|refFields|, |old(visited + onStack)|)
               <= old(ops) + 2 * j + Spent(|refFields|, |visited + onStack|)
      {
        FollowRef(nodeId, path, j);
        if diagnostic.Some? {
          return;
        }
        j := j + 1;
      }
    }

    /** One reference field. */
    method FollowRef(nodeId: string, path: seq<string>, j: nat)
      requires Valid() && WithinCap() && diagnostic == None && nodeId in onStack && j < |refFields|
      requires forall p :: p in path + [nodeId] <==> p in onStack
      requires IsWalk(items, idField, refFields, path + [nodeId])
      requires RefsAmong(index[nodeId], refFields, j, visited)
      modifies this
      ensures diagnostic == None ==>
                && Valid() && RefsAmong(index[nodeId], refFields, j + 1, visited)
                && onStack == old(onStack) && old(visited) <= visited
      ensures diagnostic.Some? ==>
                Justified(diagnostic.value, items, idField, refFields) && !diagnostic.value.InputOversize?
      ensures WithinCap()
      ensures old(visited + onStack) <= visited + onStack <= index.Keys
      ensures old(ops) <= ops
      ensures ops + Spent(|refFields|, |old(visited + onStack)|)
           <= old(ops) + 2 + Spent(|refFields|, |visited + onStack|)
      decreases index.Keys - visited - onStack, 1, 0
    {
      hide Spent, Justified, Indexes, IsWalk, ExtractPath, Locates, Ordered, RefsAmong;
      ops := ops + 1;
      if ops > OP_CAP {
        diagnostic := Some(OpCapExceeded(RefResolve, ops));
        OverCap(diagnostic.value);
        return;
      }
      var node := index[nodeId];
      var refValue := ExtractPathLoop(node, refFields[j]);
      if !refValue.IsNullish() {
        if !refValue.Str? || refValue.s !in index {
          Dangles(nodeId, j);
          diagnostic := Some(DanglingRef(idToIndex[nodeId], refFields[j], nodeId, refValue));
          return;
        }
        ghost var seen := visited;
        StepOn(path, nodeId, refValue.s, j);
        Visit(refValue.s, path + [nodeId]);
        if diagnostic.Some? {
          return;
        }
        StayAmong(node, refFields, j, seen, visited);
      }
      OneMore(node, refFields, j, visited);
    }

    /** The search from every item in turn. */
    method Run()
      requires Valid() && WithinCap() && diagnostic == None && visited == {} && onStack == {}
      requires ops == |items| == |index|
      modifies this
      ensures diagnostic == None ==> IsDag(items, idField, refFields)
      ensures diagnostic.Some? ==>
                Justified(diagnostic.value, items, idField, refFields) && !diagnostic.value.InputOversize?
      ensures WithinCap()
      ensures ops <= 2 * |items| * (1 + |refFields|)
    {
      hide Spent, Justified, IsWalk, ExtractPath, Ordered, RefsAmong, IsDag, Indexes, Locates, IdField, LeadsTo;
      var i := 0;
      SpentNothing(|refFields|);
      while i < |items| && diagnostic == None
        invariant 0 <= i <= |items|
        invariant visited + onStack <= index.Keys
        invariant ops <= |items| + i + Spent(|refFields|, |visited + onStack|)
        invariant diagnostic == None ==>
                    && Valid() && onStack == {}
                    && forall j :: 0 <= j < i ==>
                         IdField(items[j], idField).Str? && IdField(items[j], idField).s in visited
        invariant diagnostic.Some? ==>
                    Justified(diagnostic.value, items, idField, refFields) && !diagnostic.value.InputOversize?
        invariant WithinCap()
      {
        Indexed(i);
        var id := IdField(items[i], idField).s;
        if id !in visited {
          FirstStep(id);
          Visit(id, []);
        }
        i := i + 1;
      }
      SubsetSize(visited + onStack, index.Keys);
      SpentMore(|refFields|, |visited + onStack|, |items|);
      SpentTotal(|refFields|, |items|);
      if diagnostic == None {
        AllVisited();
      }
    }

    /** The search is over when every item is visited. */
    lemma AllVisited()
      requires Valid()
      requires forall j :: 0 <= j < |items| ==>
                 IdField(items[j], idField).Str? && IdField(items[j], idField).s in visited
      ensures IsDag(items, idField, refFields)
    {
      hide IsDag, Ordered;
      forall id | id in index ensures id in order {
        var j :| 0 <= j < |items| && HasId(items[j], idField, id);
      }
      OrderedIsDag(index, items, idField, refFields, order);
    }

    /** An item whose id is in the index. */
    lemma Indexed(i: nat)
      requires Valid() && i < |items|
      ensures IdField(items[i], idField).Str? && IdField(items[i], idField).s in index
    {
    }

    lemma FirstStep(id: string)
      requires onStack == {}
      ensures LeadsTo([], id)
    {
      assert [] + [id] == [id];
    }

    lemma OverCap(d: Diagnostic)
      requires d.OpCapExceeded? && d.ops == OP_CAP + 1
      ensures Justified(d, items, idField, refFields)
    {
    }

    lemma ClosedWalk(path: seq<string>, id: string)
      requires LeadsTo(path, id) && id in onStack
      ensures Justified(CycleDetected(path + [id]), items, idField, refFields)
    {
      assert (path + [id])[..|path|] == path;
    }

    /** An item whose references are all visited can be put at the end of the order. */
    lemma Finish(id: string)
      requires Valid() && id in index && RefsAmong(index[id], refFields, |refFields|, visited)
      ensures Ordered(index, refFields, order + [id])
    {
      hide RefsAmong;
      var longer := order + [id];
      assert visited == Members(order);
      forall i | 0 <= i < |longer|
        ensures longer[i] in index && RefsAmong(index[longer[i]], refFields, |refFields|, Members(longer[..i]))
      {
        if i < |order| {
          assert longer[..i] == order[..i];
          assert RefsAmong(index[order[i]], refFields, |refFields|, Members(order[..i]));
        } else {
          assert longer[..i] == order;
        }
      }
    }

    lemma Dangles(id: string, j: nat)
      requires Valid() && id in index && j < |refFields|
      requires var ref := ExtractPath(index[id], refFields[j]); !ref.IsNullish() && !(ref.Str? && ref.s in index)
      ensures id in idToIndex
      ensures Justified(DanglingRef(idToIndex[id], refFields[j], id, ExtractPath(index[id], refFields[j])),
                        items, idField, refFields)
    {
      hide ExtractPath, IsWalk;
    }

    /** Following a reference extends the walk. */
    lemma StepOn(path: seq<string>, id: string, ref: string, j: nat)
      requires Valid() && id in index && j < |refFields| && ExtractPath(index[id], refFields[j]) == Str(ref)
      requires IsWalk(items, idField, refFields, path + [id])
      ensures IsWalk(items, idField, refFields, path + [id] + [ref])
    {
      hide ExtractPath;
      var i := idToIndex[id];
      assert Refers(items[i], refFields, ref);
      assert Edge(items, idField, refFields, id, ref);
      var walk := path + [id] + [ref];
      forall n | 0 < n < |walk| ensures Edge(items, idField, refFields, walk[n - 1], walk[n]) {
        if n < |walk| - 1 {
          assert walk[n - 1] == (path + [id])[n - 1] && walk[n] == (path + [id])[n];
        }
      }
    }
  }

  // ----- The whole check -----

  /** The items before index `i` all have ids, all different. */
  predicate GoodBefore(items: seq<Value>, idField: string, i: nat)
    requires i <= |items|
  {
    IdsPresent(items[..i], idField) && IdsDistinct(items[..i], idField)
  }

  /** The tables after the first `i` items. */
  ghost predicate Indexing(items: seq<Value>, idField: string, i: nat, index: map<string, Value>,
                           idToIndex: map<string, nat>, idIndices: map<string, seq<nat>>)
    requires i <= |items|
  {
    && index.Keys == idToIndex.Keys == idIndices.Keys && |index| == i
    && (forall id :: id in index ==>
          && idToIndex[id] < i && HasId(items[idToIndex[id]], idField, id)
          && index[id] == items[idToIndex[id]] && idIndices[id] == [idToIndex[id]])
    && forall j :: 0 <= j < i ==>
         && IdField(items[j], idField).Str?
         && IdField(items[j], idField).s in idToIndex && idToIndex[IdField(items[j], idField).s] == j
  }

  lemma IndexOne(items: seq<Value>, idField: string, i: nat, index: map<string, Value>,
                 idToIndex: map<string, nat>, idIndices: map<string, seq<nat>>, id: string)
    requires i < |items| && Indexing(items, idField, i, index, idToIndex, idIndices)
    requires IdField(items[i], idField) == Str(id) && id !in idIndices
    ensures Indexing(items, idField, i + 1, index[id := items[i]], idToIndex[id := i], idIndices[id := [i]])
  {
    hide IdField;
  }

  lemma IndexedBefore(items: seq<Value>, idField: string, i: nat, index: map<string, Value>,
                      idToIndex: map<string, nat>, idIndices: map<string, seq<nat>>)
    requires i <= |items| && Indexing(items, idField, i, index, idToIndex, idIndices)
    ensures GoodBefore(items, idField, i)
  {
    hide IdField;
    forall j | 0 <= j < i ensures IdField(items[..i][j], idField).Str? {
      assert items[..i][j] == items[j];
    }
    forall j, k | 0 <= j < k < i ensures IdField(items[..i][j], idField) != IdField(items[..i][k], idField) {
      assert items[..i][j] == items[j] && items[..i][k] == items[k];
    }
  }

  lemma FoundTwice(items: seq<Value>, idField: string, refFields: seq<string>, i: nat, index: map<string, Value>,
                   idToIndex: map<string, nat>, idIndices: map<string, seq<nat>>, id: string)
    requires i < |items| && Indexing(items, idField, i, index, idToIndex, idIndices)
    requires IdField(items[i], idField) == Str(id) && id in idIndices
    ensures |idIndices[id]| == 1 && Justified(DuplicateId(id, idIndices[id] + [i]), items, idField, refFields)
  {
    hide IdField;
  }

  lemma NothingIndexed(items: seq<Value>, idField: string)
    ensures Indexing(items, idField, 0, map[], map[], map[])
  {
  }

  lemma IndexedAll(items: seq<Value>, idField: string, index: map<string, Value>,
                   idToIndex: map<string, nat>, idIndices: map<string, seq<nat>>)
    requires Indexing(items, idField, |items|, index, idToIndex, idIndices)
    ensures |index| == |items|
    ensures Indexes(index, items, idField) && DagSearch.Locates(idToIndex, index, items, idField)
  {
    hide IdField;
    IndexedBefore(items, idField, |items|, index, idToIndex, idIndices);
    assert items[..|items|] == items;
    forall i | 0 <= i < |items|
      ensures Names(items, idField, IdField(items[i], idField).s) && index[IdField(items[i], idField).s] == items[i]
    {
      assert HasId(items[i], idField, IdField(items[i], idField).s);
    }
    forall id ensures id in index <==> Names(items, idField, id) {
      if Names(items, idField, id) {
        var j :| 0 <= j < |items| && HasId(items[j], idField, id);
      }
      if id in index {
        assert HasId(items[idToIndex[id]], idField, id);
      }
    }
  }

  /** The indexing pass. A diagnostic is about the first item that cannot be indexed. */
  method BuildIndex(items: seq<Value>, idField: string, ghost refFields: seq<string>)
    returns (diagnostic: Option<Diagnostic>, index: map<string, Value>, idToIndex: map<string, nat>, ops: nat)
    ensures diagnostic == None ==>
              && Indexes(index, items, idField) && DagSearch.Locates(idToIndex, index, items, idField)
              && |index| == |items| == ops <= OP_CAP
    ensures diagnostic.Some? ==> Justified(diagnostic.value, items, idField, refFields)
    ensures diagnostic.Some? ==>
              match diagnostic.value
              case MissingId(i) => i < |items| && GoodBefore(items, idField, i)
              case NonStringId(i) => i < |items| && GoodBefore(items, idField, i)
              case DuplicateId(_, indices) =>
                |indices| == 2 && indices[1] < |items| && GoodBefore(items, idField, indices[1])
              case OpCapExceeded(_, _) => |items| > OP_CAP
              case _ => false
  {
    hide Indexes, DagSearch.Locates, GoodBefore, Indexing;
    NothingIndexed(items, idField);
    diagnostic, index, idToIndex, ops := None, map[], map[], 0;
    var idIndices: map<string, seq<nat>> := map[];
    var i := 0;
    while i < |items|
      invariant 0 <= i <= |items| && ops == i <= OP_CAP
      invariant Indexing(items, idField, i, index, idToIndex, idIndices)
    {
      IndexedBefore(items, idField, i, index, idToIndex, idIndices);
      ops := ops + 1;
      if ops > OP_CAP {
        diagnostic := Some(OpCapExceeded(Phase.Indexing, ops));
        return;
      }
      var item := items[i];
      if !item.Obj? || idField !in item.fields || item.fields[idField].Undefined? {
        diagnostic := Some(MissingId(i));
        return;
      }
      var idValue := item.fields[idField];
      if !idValue.Str? {
        diagnostic := Some(NonStringId(i));
        return;
      }
      var id := idValue.s;
      if id in idIndices {
        FoundTwice(items, idField, refFields, i, index, idToIndex, idIndices, id);
        diagnostic := Some(DuplicateId(id, idIndices[id] + [i]));
        return;
      }
      IndexOne(items, idField, i, index, idToIndex, idIndices, id);
      idIndices := idIndices[id := [i]];
      idToIndex := idToIndex[id := i];
      index := index[id := item];
      i := i + 1;
    }
    IndexedAll(items, idField, index, idToIndex, idIndices);
  }

  /** None means valid. Within the caps, the answer is exact wherever the operation cap is out of reach of so many items
      and reference fields, so for any number of items the caps admit if there are at most four of the latter. */
  method EvaluateIsValidDag(items: Value, byteLength: nat, idField: string, refFields: seq<string>)
    returns (r: Option<Diagnostic>)
    ensures !items.Arr? ==> r == None
    ensures items.Arr? && |items.elems| > 10_000 ==>
              r == Some(InputOversize(ItemsCount, 10_000, |items.elems|))
    ensures items.Arr? && |items.elems| <= 10_000 && byteLength > 1_048_576 ==>
              r == Some(InputOversize(Bytes, 1_048_576, byteLength))
    ensures items.Arr? && |items.elems| <= 10_000 && byteLength <= 1_048_576 ==>
              && (r == None ==> IsDag(items.elems, idField, refFields))
              && (r.Some? ==> Justified(r.value, items.elems, idField, refFields) && !r.value.InputOversize?)
              && (|refFields| <= 4 || 2 * |items.elems| * (1 + |refFields|) <= 100_000 ==>
                    && (r == None <==> IsDag(items.elems, idField, refFields))
                    && (r.Some? ==> !r.value.OpCapExceeded?))
  {
    hide Justified, IsDag;
    if !items.Arr? {
      return None;
    }
    if |items.elems| > ITEMS_CAP {
      return Some(InputOversize(ItemsCount, ITEMS_CAP, |items.elems|));
    }
    if byteLength > BYTES_CAP {
      return Some(InputOversize(Bytes, BYTES_CAP, byteLength));
    }
    var diagnostic, index, idToIndex, ops := BuildIndex(items.elems, idField, refFields);
    if diagnostic.Some? {
      JustifiedRefutes(diagnostic.value, items.elems, idField, refFields);
      return diagnostic;
    }
    var search := new DagSearch(items.elems, idField, refFields, index, idToIndex, ops);
    search.Run();
    UnderCap(|items.elems|, |refFields|, search.ops);
    if search.diagnostic.Some? && !search.diagnostic.value.OpCapExceeded? {
      JustifiedRefutes(search.diagnostic.value, items.elems, idField, refFields);
    }
    return search.diagnostic;
  }

  /** The operation count of any input within the item cap and with at most four reference fields stays within
      the operation cap. */
  lemma UnderCap(n: nat, k: nat, ops: nat)
    requires n <= ITEMS_CAP && ops <= 2 * n * (1 + k)
    ensures k <= 4 ==> ops <= OP_CAP
  {
    if k <= 4 {
      assert 2 * n * (1 + k) <= 2 * n * 5;
    }
  }

  // ----- Nested references -----

  /** An object with an id, and a reference in an object it holds under `outer`. */
  function Claim(idField: string, id: string, outer: string, inner: string, ref: Value): Value {
    Obj(Fresh, map[idField := Str(id), outer := Obj(Fresh, map[inner := ref])])
  }

  lemma ClaimRefers(idField: string, id: string, outer: string, inner: string, ref: Value)
    requires idField != outer && IsSegmentName(outer) && IsSegmentName(inner)
    ensures var item := Claim(idField, id, outer, inner, ref);
            IdField(item, idField) == Str(id) && ExtractPath(item, outer + "." + inner) == ref
  {
    hide ExtractPath;
    var item := Claim(idField, id, outer, inner, ref);
    ExtractNested(item, outer, inner);
    ExtractName(item, outer);
    ExtractName(Obj(Fresh, map[inner := ref]), inner);
  }

  /** Items among which one refers to itself, in a nested field, are no DAG. */
  lemma NestedSelfReferenceIsCyclic(items: seq<Value>, i: nat, idField: string, id: string, outer: string,
                                    inner: string, refFields: seq<string>)
    requires idField != outer && IsSegmentName(outer) && IsSegmentName(inner)
    requires i < |items| && items[i] == Claim(idField, id, outer, inner, Str(id)) && outer + "." + inner in refFields
    ensures !IsDag(items, idField, refFields)
  {
    hide ExtractPath, IdField;
    ClaimRefers(idField, id, outer, inner, Str(id));
    var k :| 0 <= k < |refFields| && refFields[k] == outer + "." + inner;
    assert Refers(items[i], refFields, id);
    assert Edge(items, idField, refFields, id, id);
    assert IsWalk(items, idField, refFields, [id, id]);
  }

  /** Two items, the second of which refers to something in a nested field, are a DAG exactly if it is the first, or
      nothing at all. */
  lemma NestedPairIsDag(idField: string, a: string, b: string, outer: string, inner: string, ref: Value)
    requires idField != outer && IsSegmentName(outer) && IsSegmentName(inner) && a != b
    ensures var items := [Claim(idField, a, outer, inner, Null), Claim(idField, b, outer, inner, ref)];
            IsDag(items, idField, [outer + "." + inner]) <==> ref == Str(a) || ref == Null || ref == Undefined
  {
    hide ExtractPath, IdField, Acyclic, Names;
    var path := outer + "." + inner;
    var x, y := Claim(idField, a, outer, inner, Null), Claim(idField, b, outer, inner, ref);
    var items, fields := [x, y], [path];
    ClaimRefers(idField, a, outer, inner, Null);
    ClaimRefers(idField, b, outer, inner, ref);
    assert HasId(items[0], idField, a) && HasId(items[1], idField, b);
    forall id ensures Names(items, idField, id) <==> id == a || id == b { NamedByTwo(items, idField, a, b, id); }
    if ref == Str(a) || ref == Null || ref == Undefined {
      var index := map[a := x, b := y];
      assert [a, b][..1] == [a] && [a, b][..0] == [] && Members([a]) == {a};
      assert IdField(items[0], idField).s == a && IdField(items[1], idField).s == b;
      assert RefsAmong(x, fields, 1, Members([])) && RefsAmong(y, fields, 1, {a});
      assert Ordered(index, fields, [a, b]);
      OrderedIsDag(index, items, idField, fields, [a, b]);
    } else if ref == Str(b) {
      NestedSelfReferenceIsCyclic(items, 1, idField, b, outer, inner, fields);
    } else {
      assert ExtractPath(items[1], fields[0]) == ref;
    }
  }

  lemma NamedByTwo(items: seq<Value>, idField: string, a: string, b: string, id: string)
    requires |items| == 2 && IdField(items[0], idField) == Str(a) && IdField(items[1], idField) == Str(b)
    ensures Names(items, idField, id) <==> id == a || id == b
  {
    hide IdField;
    assert HasId(items[0], idField, id) <==> id == a;
    assert HasId(items[1], idField, id) <==> id == b;
  }
}
