/** The dependency graph of a Batch Job: validation of the references and the execution order. */
module BatchGraph {
  import opened FiniteSets
  import opened Wrappers

  const MAX_DEPENDENCY_EDGES: nat := 10_000

  datatype Operation = Operation(id: string, dependsOn: seq<string>)

  datatype GraphError =
    | DuplicateOperationId
    | DependencyEdgeLimit
    | DuplicateDependency
    | UnknownDependency
    | DependencyCycle

  predicate Distinct<T(==)>(items: seq<T>) {
    forall i, j :: 0 <= i < j < |items| ==> items[i] != items[j]
  }

  function Ids(ops: seq<Operation>): seq<string> {
    seq(|ops|, i requires 0 <= i < |ops| => ops[i].id)
  }

  function Edges(ops: seq<Operation>): nat {
    if ops == [] then 0 else Edges(ops[..|ops| - 1]) + |ops[|ops| - 1].dependsOn|
  }

  /** The references of one operation: each named once, to another operation of the job. */
  predicate ReferencesValid(ops: seq<Operation>, i: nat)
    requires i < |ops|
  {
    Distinct(ops[i].dependsOn) && forall d :: d in ops[i].dependsOn ==> d in Ids(ops) && d != ops[i].id
  }

  predicate ValidGraph(ops: seq<Operation>) {
    && Distinct(Ids(ops))
    && Edges(ops) <= MAX_DEPENDENCY_EDGES
    && forall i :: 0 <= i < |ops| ==> ReferencesValid(ops, i)
  }

  /** The first pass: identifiers are unique and the edges within the limit. */
  method CheckIds(ops: seq<Operation>) returns (ids: set<string>, r: Result<(), GraphError>)
    ensures r == Err(DuplicateOperationId) <==> !Distinct(Ids(ops))
    ensures r == Err(DependencyEdgeLimit) <==> Distinct(Ids(ops)) && Edges(ops) > 10_000
    ensures r.Err? ==> r.error == DuplicateOperationId || r.error == DependencyEdgeLimit
    ensures r.Ok? ==> forall id :: id in ids <==> id in Ids(ops)
  {
    ids := {};
    var all := Ids(ops);
    var edges := 0;
    for i := 0 to |ops|
      invariant forall id :: id in ids <==> id in all[..i]
      invariant Distinct(all[..i])
      invariant edges == Edges(ops[..i])
    {
      assert all[i] == ops[i].id && all[..i + 1] == all[..i] + [all[i]];
      if ops[i].id in ids {
        var k :| 0 <= k < i && all[k] == all[i];
        return ids, Err(DuplicateOperationId);
      }
      ids := ids + {ops[i].id};
      assert ops[..i + 1][..i] == ops[..i];
      edges := edges + |ops[i].dependsOn|;
    }
    assert ops[..|ops|] == ops && all[..|ops|] == all;
    return ids, if edges > MAX_DEPENDENCY_EDGES then Err(DependencyEdgeLimit) else Ok(());
  }

  /** The second pass, for one operation. */
  method CheckReferences(ops: seq<Operation>, ids: set<string>, i: nat) returns (r: Result<(), GraphError>)
    requires i < |ops| && forall id :: id in ids <==> id in Ids(ops)
    ensures r.Ok? <==> ReferencesValid(ops, i)
    ensures r.Err? ==> r.error == DuplicateDependency || r.error == UnknownDependency || r.error == DependencyCycle
  {
    hide Ids;
    var named := ops[i].dependsOn;
    var seen: set<string> := {};
    for j := 0 to |named|
      invariant forall d :: d in seen <==> d in named[..j]
      invariant Distinct(named[..j])
      invariant forall d :: d in named[..j] ==> d in ids && d != ops[i].id
    {
      var d := named[j];
      assert named[..j + 1] == named[..j] + [d] && d in named;
      if d in seen {
        var k :| 0 <= k < j && named[k] == d;
        return Err(DuplicateDependency);
      }
      if d !in ids { return Err(UnknownDependency); }
      if d == ops[i].id { return Err(DependencyCycle); }
      seen := seen + {d};
    }
    assert named[..|named|] == named;
    return Ok(());
  }

  /** `validate_graph`: accepts exactly the valid graphs. */
  method ValidateGraph(ops: seq<Operation>) returns (r: Result<(), GraphError>)
    ensures r.Ok? <==> ValidGraph(ops)
    ensures r == Err(DuplicateOperationId) <==> !Distinct(Ids(ops))
    ensures r == Err(DependencyEdgeLimit) <==> Distinct(Ids(ops)) && Edges(ops) > 10_000
  {
    hide Ids, Edges;
    var ids, first := CheckIds(ops);
    if first.Err? { return first; }
    for i := 0 to |ops|
      invariant forall k :: 0 <= k < i ==> ReferencesValid(ops, k)
    {
      var checked := CheckReferences(ops, ids, i);
      if checked.Err? { return checked; }
    }
    return Ok(());
  }

  // ----- The graph -----

  /** Operation `i` waits for operation `j`. */
  predicate DependsOn(ops: seq<Operation>, i: nat, j: nat) {
    i < |ops| && j < |ops| && ops[j].id in ops[i].dependsOn
  }

  /** A permutation of the operation indexes with every dependency before its dependents. */
  ghost predicate IsTopological(ops: seq<Operation>, order: seq<nat>) {
    && |order| == |ops| && Distinct(order)
    && (forall k :: 0 <= k < |order| ==> order[k] < |ops|)
    && (forall i, k: nat :: 0 <= i < |order| && DependsOn(ops, order[i], k) ==> k in order[..i])
  }

  ghost predicate LexLess(a: seq<nat>, b: seq<nat>) {
    exists k :: 0 <= k < |a| && k < |b| && a[..k] == b[..k] && a[k] < b[k]
  }

  /** A closed walk along dependencies. */
  ghost predicate IsCycle(ops: seq<Operation>, walk: seq<nat>) {
    |walk| >= 2 && walk[0] == walk[|walk| - 1] && forall k :: 0 <= k < |walk| - 1 ==> DependsOn(ops, walk[k], walk[k + 1])
  }

  /** Operation `i` is not yet placed and everything it waits for is. */
  ghost predicate Available(ops: seq<Operation>, placed: set<nat>, i: nat) {
    i < |ops| && i !in placed && forall j: nat :: DependsOn(ops, i, j) ==> j in placed
  }

  function Elements(s: seq<nat>): set<nat> {
    set x | x in s
  }

  /** Each step took the smallest available index. */
  ghost predicate Greedy(ops: seq<Operation>, order: seq<nat>) {
    forall k :: 0 <= k < |order| ==>
      Available(ops, Elements(order[..k]), order[k])
      && forall i: nat :: Available(ops, Elements(order[..k]), i) ==> order[k] <= i
  }

  lemma GreedyIsDistinct(ops: seq<Operation>, order: seq<nat>)
    requires Greedy(ops, order)
    ensures Distinct(order) && forall k :: 0 <= k < |order| ==> order[k] < |ops|
  {
    forall i, j | 0 <= i < j < |order|
      ensures order[i] != order[j]
    {
      assert order[..j][i] == order[i];
      assert order[i] in Elements(order[..j]);
    }
  }

  lemma GreedyIsTopological(ops: seq<Operation>, order: seq<nat>)
    requires Greedy(ops, order) && |order| == |ops|
    ensures IsTopological(ops, order)
  {
    GreedyIsDistinct(ops, order);
    forall i, k: nat | 0 <= i < |order| && DependsOn(ops, order[i], k)
      ensures k in order[..i]
    {
      assert k in Elements(order[..i]);
    }
  }

  /** The greedy order is the lexicographically least of all topological orders. */
  lemma GreedyIsLeast(ops: seq<Operation>, order: seq<nat>, other: seq<nat>)
    requires Greedy(ops, order) && |order| == |ops| && IsTopological(ops, other)
    ensures order == other || LexLess(order, other)
  {
    if order != other {
      var k := FirstDifference(order, other);
      assert other[..k] == order[..k];
      assert Available(ops, Elements(order[..k]), other[k]) by {
        forall j: nat | DependsOn(ops, other[k], j)
          ensures j in Elements(order[..k])
        {
          assert j in other[..k];
        }
        assert other[k] !in other[..k];
      }
    }
  }

  lemma FirstDifference(a: seq<nat>, b: seq<nat>) returns (k: nat)
    requires |a| == |b| && a != b
    ensures k < |a| && a[..k] == b[..k] && a[k] != b[k]
  {
    k := 0;
    while a[k] == b[k]
      invariant k < |a| && a[..k] == b[..k]
      invariant exists m :: k <= m < |a| && a[m] != b[m]
      decreases |a| - k
    {
      k := k + 1;
    }
  }

  /** A topological order rules out every cycle. */
  lemma TopologicalHasNoCycle(ops: seq<Operation>, order: seq<nat>, walk: seq<nat>)
    requires IsTopological(ops, order)
    ensures !IsCycle(ops, walk)
  {
    if IsCycle(ops, walk) {
      assert DependsOn(ops, walk[0], walk[1]);
      CoversAll(order, |ops|);
      var start := PositionOf(order, walk[0]);
      var finish := WalkGoesBack(ops, order, walk, |walk| - 1, start);
    }
  }

  lemma PositionOf(order: seq<nat>, x: nat) returns (p: nat)
    requires x in order
    ensures p < |order| && order[p] == x
  {
    p :| 0 <= p < |order| && order[p] == x;
  }

  /** Distinct indexes below the length are all of them. */
  lemma CoversAll(order: seq<nat>, n: nat)
    requires |order| == n && Distinct(order) && forall k :: 0 <= k < n ==> order[k] < n
    ensures forall i: nat :: i < n ==> i in order
  {
    var all := Below(n);
    ElementCount(order);
    assert Elements(order) <= all;
    SubsetOfSameSize(Elements(order), all);
    forall i: nat | i < n ensures i in order {
      assert i in all;
    }
  }

  lemma {:induction false} ElementCount(s: seq<nat>)
    requires Distinct(s)
    ensures |Elements(s)| == |s|
  {
    if s != [] {
      var front, last := s[..|s| - 1], s[|s| - 1];
      ElementCount(front);
      assert last !in Elements(front);
      assert Elements(s) == Elements(front) + {last};
    }
  }

  /** Along a walk the positions in a topological order strictly decrease. */
  lemma {:induction false} WalkGoesBack(ops: seq<Operation>, order: seq<nat>, walk: seq<nat>, steps: nat, start: nat) returns (p: nat)
    requires IsTopological(ops, order) && steps < |walk|
    requires forall k :: 0 <= k < |walk| - 1 ==> DependsOn(ops, walk[k], walk[k + 1])
    requires start < |order| && order[start] == walk[0]
    ensures p < |order| && order[p] == walk[steps] && p + steps <= start
  {
    if steps == 0 {
      return start;
    }
    var q := WalkGoesBack(ops, order, walk, steps - 1, start);
    assert DependsOn(ops, order[q], walk[steps]);
    assert walk[steps] in order[..q];
    p :| 0 <= p < q && order[..q][p] == walk[steps];
  }

  /** Operation `i` waits for something outside `placed`. */
  ghost predicate Waits(ops: seq<Operation>, placed: set<nat>, i: nat) {
    exists j: nat :: j !in placed && DependsOn(ops, i, j)
  }

  /** If every operation outside `placed` still waits for another one outside it, there is a cycle. */
  lemma StuckMeansCycle(ops: seq<Operation>, placed: set<nat>, start: nat) returns (cycle: seq<nat>)
    requires start < |ops| && start !in placed
    requires forall i: nat :: i < |ops| && i !in placed ==> Waits(ops, placed, i)
    ensures IsCycle(ops, cycle)
  {
    hide DependsOn, Waits;
    var walk := LongWalk(ops, placed, start, |ops|);
    var i, j := Repetition(walk, |ops|);
    cycle := walk[i..j + 1];
    forall k | 0 <= k < |cycle| - 1
      ensures DependsOn(ops, cycle[k], cycle[k + 1])
    {
      assert DependsOn(ops, walk[i + k], walk[i + k + 1]);
    }
  }

  lemma {:induction false} LongWalk(ops: seq<Operation>, placed: set<nat>, start: nat, steps: nat) returns (walk: seq<nat>)
    requires start < |ops| && start !in placed
    requires forall i: nat :: i < |ops| && i !in placed ==> Waits(ops, placed, i)
    ensures |walk| == steps + 1
    ensures forall k :: 0 <= k < |walk| ==> walk[k] < |ops| && walk[k] !in placed
    ensures forall k :: 0 <= k < |walk| - 1 ==> DependsOn(ops, walk[k], walk[k + 1])
  {
    hide DependsOn, Waits;
    if steps == 0 {
      return [start];
    }
    walk := LongWalk(ops, placed, start, steps - 1);
    var next := NextOnWalk(ops, placed, walk[steps - 1]);
    walk := walk + [next];
  }

  lemma NextOnWalk(ops: seq<Operation>, placed: set<nat>, i: nat) returns (next: nat)
    requires Waits(ops, placed, i)
    ensures next < |ops| && next !in placed && DependsOn(ops, i, next)
  {
    next :| next !in placed && DependsOn(ops, i, next);
  }

  lemma Repetition(walk: seq<nat>, n: nat) returns (i: nat, j: nat)
    requires |walk| > n && forall k :: 0 <= k < |walk| ==> walk[k] < n
    ensures i < j < |walk| && walk[i] == walk[j]
  {
    if Distinct(walk) {
      ElementCount(walk);
      assert Elements(walk) <= Below(n);
      SubsetSize(Elements(walk), Below(n));
    }
    i, j :| 0 <= i < j < |walk| && walk[i] == walk[j];
  }

  // ----- Kahn's algorithm with a sorted ready list -----

  ghost function PendingDependencies(ops: seq<Operation>, placed: set<nat>, i: nat): set<nat> {
    set j | j in Below(|ops|) && j !in placed && DependsOn(ops, i, j)
  }

  ghost predicate Increasing(s: seq<nat>) {
    forall i, j :: 0 <= i < j < |s| ==> s[i] < s[j]
  }

  lemma IncreasingAppend(s: seq<nat>, x: nat)
    requires Increasing(s) && forall y :: y in s ==> y < x
    ensures Increasing(s + [x])
  {
    assert forall i :: 0 <= i < |s| ==> s[i] in s;
  }

  /** `dependents[j]` lists, in increasing order, exactly the operations that wait for `j`. */
  ghost predicate DependentsListed(ops: seq<Operation>, dependents: seq<seq<nat>>) {
    && |dependents| == |ops|
    && forall j :: 0 <= j < |ops| ==>
         Increasing(dependents[j]) && forall i: nat :: i in dependents[j] <==> DependsOn(ops, i, j)
  }

  ghost predicate DegreesCount(ops: seq<Operation>, placed: set<nat>, indegree: seq<nat>) {
    |indegree| == |ops| && forall i :: 0 <= i < |ops| ==> indegree[i] == |PendingDependencies(ops, placed, i)|
  }

  /** The ready list holds, in increasing order, exactly the available operations. */
  ghost predicate ReadyListed(ops: seq<Operation>, placed: set<nat>, ready: seq<nat>) {
    Increasing(ready) && forall i: nat :: i in ready <==> Available(ops, placed, i)
  }

  lemma AvailableMeansNothingPending(ops: seq<Operation>, placed: set<nat>, i: nat)
    requires i < |ops| && i !in placed
    ensures Available(ops, placed, i) <==> |PendingDependencies(ops, placed, i)| == 0
  {
    if |PendingDependencies(ops, placed, i)| == 0 {
      forall j: nat | DependsOn(ops, i, j)
        ensures j in placed
      {
        assert j !in PendingDependencies(ops, placed, i);
      }
    } else {
      var j :| j in PendingDependencies(ops, placed, i);
    }
  }

  lemma PlacingOne(ops: seq<Operation>, placed: set<nat>, i: nat, index: nat)
    requires index < |ops| && index !in placed
    ensures |PendingDependencies(ops, placed + {index}, i)|
         == |PendingDependencies(ops, placed, i)| - (if DependsOn(ops, i, index) then 1 else 0)
  {
    var before, after := PendingDependencies(ops, placed, i), PendingDependencies(ops, placed + {index}, i);
    if DependsOn(ops, i, index) {
      assert before == after + {index};
    } else {
      assert before == after;
    }
  }

  /** `ready.insert(position of the first larger element, value)`. */
  method InsertSorted(ready: seq<nat>, value: nat) returns (r: seq<nat>)
    requires Increasing(ready) && value !in ready
    ensures Increasing(r) && forall x: nat :: x in r <==> x in ready || x == value
  {
    var position := 0;
    while position < |ready| && ready[position] <= value
      invariant position <= |ready|
      invariant forall k :: 0 <= k < position ==> ready[k] < value
    {
      assert ready[position] in ready;
      position := position + 1;
    }
    r := ready[..position] + [value] + ready[position..];
    InsertedInOrder(ready, value, position);
  }

  lemma InsertedInOrder(ready: seq<nat>, value: nat, position: nat)
    requires Increasing(ready) && position <= |ready|
    requires forall k :: 0 <= k < position ==> ready[k] < value
    requires position < |ready| ==> value < ready[position]
    ensures Increasing(ready[..position] + [value] + ready[position..])
    ensures forall x: nat :: x in ready[..position] + [value] + ready[position..] <==> x in ready || x == value
  {
    var r := ready[..position] + [value] + ready[position..];
    assert forall k :: 0 <= k < |r| ==>
      r[k] == if k < position then ready[k] else if k == position then value else ready[k - 1];
    assert ready == ready[..position] + ready[position..];
  }

  /** Part of the way through the dependents of the operation just placed: the released ones already
      count it as placed, and the ready list holds exactly the unplaced operations of degree zero. */
  ghost predicate PartlyReleased(ops: seq<Operation>, placed: set<nat>, index: nat, released: seq<nat>, indegree: seq<nat>, ready: seq<nat>) {
    && |indegree| == |ops|
    && (forall i: nat :: i < |ops| ==>
          indegree[i] == |PendingDependencies(ops, if i in released then placed + {index} else placed, i)|)
    && Increasing(ready)
    && (forall i: nat :: i in ready <==> i < |ops| && i != index && i !in placed && indegree[i] == 0)
  }

  lemma ReleaseStarts(ops: seq<Operation>, placed: set<nat>, index: nat, indegree: seq<nat>, ready: seq<nat>)
    requires DegreesCount(ops, placed, indegree) && ReadyListed(ops, placed, [index] + ready)
    ensures PartlyReleased(ops, placed, index, [], indegree, ready)
  {
    hide PendingDependencies, Available;
    var all := [index] + ready;
    forall i: nat
      ensures i in ready <==> i < |ops| && i != index && i !in placed && indegree[i] == 0
    {
      if i in ready {
        var k :| 0 <= k < |ready| && ready[k] == i;
        assert all[k + 1] == i && all[0] == index;
        assert i in all;
        AvailableIndex(ops, placed, i);
      }
      if i < |ops| && i !in placed {
        AvailableMeansNothingPending(ops, placed, i);
        if Available(ops, placed, i) && i != index {
          assert i in all;
        }
      }
    }
    forall i, j | 0 <= i < j < |ready|
      ensures ready[i] < ready[j]
    {
      assert all[i + 1] < all[j + 1];
    }
  }

  lemma AvailableIndex(ops: seq<Operation>, placed: set<nat>, i: nat)
    requires Available(ops, placed, i)
    ensures i < |ops| && i !in placed
  {
  }

  lemma ReleaseEnds(ops: seq<Operation>, placed: set<nat>, index: nat, released: seq<nat>, indegree: seq<nat>, ready: seq<nat>)
    requires PartlyReleased(ops, placed, index, released, indegree, ready) && index < |ops| && index !in placed
    requires forall i: nat :: i in released <==> DependsOn(ops, i, index)
    ensures DegreesCount(ops, placed + {index}, indegree) && ReadyListed(ops, placed + {index}, ready)
  {
    hide PendingDependencies, Available, DependsOn;
    var after := placed + {index};
    forall i: nat | i < |ops|
      ensures indegree[i] == |PendingDependencies(ops, after, i)|
    {
      PlacingOne(ops, placed, i, index);
    }
    forall i: nat
      ensures i in ready <==> Available(ops, after, i)
    {
      if i < |ops| && i !in after {
        AvailableMeansNothingPending(ops, after, i);
      }
      if Available(ops, after, i) {
        AvailableIndex(ops, after, i);
      }
    }
  }

  lemma ReleaseOne(ops: seq<Operation>, placed: set<nat>, index: nat, released: seq<nat>, indegree: seq<nat>, ready: seq<nat>,
                   dependent: nat, next: seq<nat>)
    requires PartlyReleased(ops, placed, index, released, indegree, ready)
    requires index < |ops| && index !in placed && dependent !in placed
    requires dependent !in released && DependsOn(ops, dependent, index) && dependent != index
    ensures dependent < |ops| && indegree[dependent] >= 1 && dependent !in ready
    ensures Increasing(next)
      && (forall i: nat :: i in next <==> i in ready || (i == dependent && indegree[dependent] == 1))
      ==> PartlyReleased(ops, placed, index, released + [dependent], indegree[dependent := indegree[dependent] - 1], next)
  {
    PlacingOne(ops, placed, dependent, index);
    SomethingPending(ops, placed, dependent, index);
    hide PendingDependencies;
    assert DependsOn(ops, dependent, index);
    hide DependsOn;
  }

  lemma SomethingPending(ops: seq<Operation>, placed: set<nat>, i: nat, j: nat)
    requires DependsOn(ops, i, j) && j !in placed
    ensures |PendingDependencies(ops, placed, i)| >= 1 && i < |ops|
  {
    assert j in PendingDependencies(ops, placed, i);
  }

  lemma IdsAreDistinct(ops: seq<Operation>, i: nat, j: nat)
    requires ValidGraph(ops) && i < |ops| && j < |ops| && ops[i].id == ops[j].id
    ensures i == j
  {
    assert Ids(ops)[i] == ops[i].id && Ids(ops)[j] == ops[j].id;
  }

  lemma IndexOfId(ops: seq<Operation>, id: string) returns (i: nat)
    requires id in Ids(ops)
    ensures i < |ops| && ops[i].id == id
  {
    i :| 0 <= i < |ops| && Ids(ops)[i] == id;
  }

  function NamedBy(ops: seq<Operation>, names: seq<string>): set<nat> {
    set j | j in Below(|ops|) && j < |ops| && ops[j].id in names
  }

  /** Distinct known names stand for as many operations. */
  lemma {:induction false} NamedByCount(ops: seq<Operation>, names: seq<string>)
    requires ValidGraph(ops) && Distinct(names) && forall d :: d in names ==> d in Ids(ops)
    ensures |NamedBy(ops, names)| == |names|
  {
    hide ValidGraph, Ids;
    if names != [] {
      var front, last := names[..|names| - 1], names[|names| - 1];
      NamedByCount(ops, front);
      var j := IndexOfId(ops, last);
      assert ops[j].id !in front;
      forall k | k in NamedBy(ops, names)
        ensures k in NamedBy(ops, front) + {j}
      {
        if ops[k].id == last {
          IdsAreDistinct(ops, k, j);
        }
      }
      assert NamedBy(ops, names) == NamedBy(ops, front) + {j};
    }
  }

  lemma DegreesStart(ops: seq<Operation>, i: nat)
    requires ValidGraph(ops) && i < |ops|
    ensures |ops[i].dependsOn| == |PendingDependencies(ops, {}, i)|
  {
    assert ReferencesValid(ops, i);
    NamedByCount(ops, ops[i].dependsOn);
    assert NamedBy(ops, ops[i].dependsOn) == PendingDependencies(ops, {}, i);
  }

  lemma NoSelfDependency(ops: seq<Operation>, i: nat)
    requires ValidGraph(ops)
    ensures !DependsOn(ops, i, i)
  {
    if i < |ops| {
      assert ReferencesValid(ops, i);
    }
  }

  /** The rows being built for operations below `i` and for the first names of operation `i`. */
  ghost predicate RowsBuilt(ops: seq<Operation>, dependents: seq<seq<nat>>, i: nat, names: seq<string>) {
    && |dependents| == |ops| && i <= |ops|
    && forall j :: 0 <= j < |ops| ==>
         && Increasing(dependents[j])
         && (forall x: nat :: x in dependents[j] <==> (x < i && DependsOn(ops, x, j)) || (x == i && ops[j].id in names))
  }

  lemma RowAppend(ops: seq<Operation>, dependents: seq<seq<nat>>, i: nat, names: seq<string>, name: string, j: nat)
    requires ValidGraph(ops) && RowsBuilt(ops, dependents, i, names) && j < |ops| && ops[j].id == name && name !in names
    ensures RowsBuilt(ops, dependents[j := dependents[j] + [i]], i, names + [name])
  {
    hide ValidGraph, DependsOn;
    var next := dependents[j := dependents[j] + [i]];
    forall k | 0 <= k < |ops|
      ensures Increasing(next[k])
      ensures forall x: nat :: x in next[k] <==> (x < i && DependsOn(ops, x, k)) || (x == i && ops[k].id in names + [name])
    {
      if ops[k].id == name {
        IdsAreDistinct(ops, k, j);
        IncreasingAppend(dependents[j], i);
      }
    }
  }

  /** The reverse adjacency built by the two nested loops of the original, with the degrees. */
  method BuildGraph(ops: seq<Operation>) returns (indegree: seq<nat>, dependents: seq<seq<nat>>)
    requires ValidGraph(ops)
    ensures DegreesCount(ops, {}, indegree) && DependentsListed(ops, dependents)
  {
    hide ValidGraph, PendingDependencies, Ids;
    var indices: map<string, nat> := map[];
    for i := 0 to |ops|
      invariant forall k :: 0 <= k < i ==> ops[k].id in indices && indices[ops[k].id] == k
    {
      forall k | 0 <= k < i
        ensures ops[k].id != ops[i].id
      {
        if ops[k].id == ops[i].id { IdsAreDistinct(ops, k, i); }
      }
      indices := indices[ops[i].id := i];
    }
    indegree := seq(|ops|, _ => 0);
    dependents := seq(|ops|, _ => []);
    for i := 0 to |ops|
      invariant |indegree| == |ops|
      invariant forall k :: 0 <= k < i ==> indegree[k] == |PendingDependencies(ops, {}, k)|
      invariant RowsBuilt(ops, dependents, i, [])
    {
      var named := ops[i].dependsOn;
      DegreesStart(ops, i);
      ReferencesOf(ops, i);
      indegree := indegree[i := |named|];
      for k := 0 to |named|
        invariant RowsBuilt(ops, dependents, i, named[..k])
      {
        var d := named[k];
        assert d in named;
        ghost var target := IndexOfId(ops, d);
        assert d !in named[..k] && named[..k + 1] == named[..k] + [d];
        RowAppend(ops, dependents, i, named[..k], d, target);
        dependents := dependents[indices[d] := dependents[indices[d]] + [i]];
      }
      assert named[..|named|] == named;
      RowsAdvance(ops, dependents, i);
    }
    RowsComplete(ops, dependents);
  }

  lemma ReferencesOf(ops: seq<Operation>, i: nat)
    requires ValidGraph(ops) && i < |ops|
    ensures Distinct(ops[i].dependsOn) && forall d :: d in ops[i].dependsOn ==> d in Ids(ops)
  {
    assert ReferencesValid(ops, i);
  }

  lemma RowsAdvance(ops: seq<Operation>, dependents: seq<seq<nat>>, i: nat)
    requires i < |ops| && RowsBuilt(ops, dependents, i, ops[i].dependsOn)
    ensures RowsBuilt(ops, dependents, i + 1, [])
  {
  }

  lemma RowsComplete(ops: seq<Operation>, dependents: seq<seq<nat>>)
    requires RowsBuilt(ops, dependents, |ops|, [])
    ensures DependentsListed(ops, dependents)
  {
  }

  /** The placed operations are closed under dependencies. */
  lemma PlacedClosed(ops: seq<Operation>, order: seq<nat>, i: nat, j: nat)
    requires Greedy(ops, order) && i in Elements(order) && DependsOn(ops, i, j)
    ensures j in Elements(order)
  {
    var k :| 0 <= k < |order| && order[k] == i;
    assert j in Elements(order[..k]);
    assert j in order[..k];
  }

  lemma GreedyExtends(ops: seq<Operation>, order: seq<nat>, ready: seq<nat>)
    requires Greedy(ops, order) && ready != [] && ReadyListed(ops, Elements(order), ready)
    ensures Greedy(ops, order + [ready[0]])
    ensures Elements(order + [ready[0]]) == Elements(order) + {ready[0]}
    ensures Available(ops, Elements(order), ready[0])
  {
    hide Available;
    var next := order + [ready[0]];
    assert ready[0] in ready;
    forall k | 0 <= k < |next|
      ensures Available(ops, Elements(next[..k]), next[k])
      ensures forall i: nat :: Available(ops, Elements(next[..k]), i) ==> next[k] <= i
    {
      if k < |order| {
        assert next[..k] == order[..k];
      } else {
        assert next[..k] == order;
        forall i: nat | Available(ops, Elements(order), i)
          ensures ready[0] <= i
        {
          assert i in ready;
        }
      }
    }
  }

  lemma OrderFits(ops: seq<Operation>, order: seq<nat>)
    requires Greedy(ops, order)
    ensures |order| <= |ops|
  {
    GreedyIsDistinct(ops, order);
    ElementCount(order);
    assert Elements(order) <= Below(|ops|);
    SubsetSize(Elements(order), Below(|ops|));
  }

  /** The releases that follow the placing of one operation. */
  method ReleaseDependents(ops: seq<Operation>, ghost placed: set<nat>, index: nat, waiting: seq<nat>, degrees: seq<nat>, rest: seq<nat>)
    returns (indegree: seq<nat>, ready: seq<nat>)
    requires ValidGraph(ops) && Available(ops, placed, index)
    requires forall i: nat, j: nat :: i in placed && DependsOn(ops, i, j) ==> j in placed
    requires Increasing(waiting) && forall i: nat :: i in waiting <==> DependsOn(ops, i, index)
    requires DegreesCount(ops, placed, degrees) && ReadyListed(ops, placed, [index] + rest)
    ensures DegreesCount(ops, placed + {index}, indegree) && ReadyListed(ops, placed + {index}, ready)
  {
    hide ValidGraph, PendingDependencies, DependsOn;
    AvailableIndex(ops, placed, index);
    indegree, ready := degrees, rest;
    ReleaseStarts(ops, placed, index, indegree, ready);
    hide Available, PartlyReleased;
    for p := 0 to |waiting|
      invariant PartlyReleased(ops, placed, index, waiting[..p], indegree, ready)
    {
      var dependent := waiting[p];
      assert dependent in waiting;
      assert dependent !in waiting[..p] && waiting[..p + 1] == waiting[..p] + [dependent];
      NoSelfDependency(ops, index);
      ReleaseOneFacts(ops, placed, index, waiting[..p], indegree, ready);
      ClosedExcludes(ops, placed, index, dependent);
      ReleaseOne(ops, placed, index, waiting[..p], indegree, ready, dependent, ready);
      var degree := indegree[dependent] - 1;
      var next := ready;
      if degree == 0 {
        next := InsertSorted(ready, dependent);
      }
      ReleaseOne(ops, placed, index, waiting[..p], indegree, ready, dependent, next);
      indegree := indegree[dependent := degree];
      ready := next;
    }
    assert waiting[..|waiting|] == waiting;
    ReleaseEnds(ops, placed, index, waiting, indegree, ready);
  }

  lemma ClosedExcludes(ops: seq<Operation>, placed: set<nat>, index: nat, dependent: nat)
    requires forall i: nat, j: nat :: i in placed && DependsOn(ops, i, j) ==> j in placed
    requires DependsOn(ops, dependent, index) && index !in placed
    ensures dependent !in placed
  {
  }

  lemma ReleaseOneFacts(ops: seq<Operation>, placed: set<nat>, index: nat, released: seq<nat>, indegree: seq<nat>, ready: seq<nat>)
    requires PartlyReleased(ops, placed, index, released, indegree, ready)
    ensures |indegree| == |ops| && Increasing(ready)
  {
  }

  /** `graph_order`. On a validated job the answer is the lexicographically least topological order,
      and the refusal means exactly that the dependencies contain a cycle. */
  method GraphOrder(ops: seq<Operation>) returns (r: Result<seq<nat>, GraphError>)
    requires ValidGraph(ops)
    ensures r.Ok? ==> IsTopological(ops, r.value)
    ensures r.Ok? ==> forall other :: IsTopological(ops, other) ==> r.value == other || LexLess(r.value, other)
    ensures r.Err? <==> exists walk :: IsCycle(ops, walk)
    ensures r.Err? ==> r.error == DependencyCycle
  {
    hide ValidGraph, IsTopological, Greedy, LexLess, IsCycle, Available, DependsOn, Elements;
    var indegree, dependents := BuildGraph(ops);
    var order: seq<nat> := [];
    var ready: seq<nat> := [];
    for i := 0 to |indegree|
      invariant Increasing(ready) && forall x: nat :: x in ready <==> x < i && indegree[x] == 0
    {
      if indegree[i] == 0 {
        IncreasingAppend(ready, i);
        ready := ready + [i];
      }
    }
    EmptyIsGreedy(ops, indegree, ready);
    while ready != []
      invariant Greedy(ops, order)
      invariant DegreesCount(ops, Elements(order), indegree) && ReadyListed(ops, Elements(order), ready)
      decreases |ops| - |order|
    {
      var index := ready[0];
      GreedyExtends(ops, order, ready);
      OrderFits(ops, order + [index]);
      forall i: nat, j: nat | i in Elements(order) && DependsOn(ops, i, j)
        ensures j in Elements(order)
      {
        PlacedClosed(ops, order, i, j);
      }
      AvailableIndex(ops, Elements(order), index);
      assert ready == [index] + ready[1..];
      indegree, ready := ReleaseDependents(ops, Elements(order), index, dependents[index], indegree, ready[1..]);
      order := order + [index];
    }
    if |order| != |ops| {
      ghost var start := SomethingUnplaced(ops, order);
      ghost var cycle := NothingReadyMeansCycle(ops, Elements(order), start);
      return Err(DependencyCycle);
    }
    GreedyIsTopological(ops, order);
    forall other | IsTopological(ops, other)
      ensures order == other || LexLess(order, other)
    {
      GreedyIsLeast(ops, order, other);
    }
    forall walk
      ensures !IsCycle(ops, walk)
    {
      TopologicalHasNoCycle(ops, order, walk);
    }
    return Ok(order);
  }

  lemma EmptyIsGreedy(ops: seq<Operation>, indegree: seq<nat>, ready: seq<nat>)
    requires DegreesCount(ops, {}, indegree)
    requires Increasing(ready) && forall x: nat :: x in ready <==> x < |ops| && indegree[x] == 0
    ensures Greedy(ops, []) && Elements([]) == {} && ReadyListed(ops, Elements([]), ready)
  {
    hide PendingDependencies, Available;
    assert Elements([]) == {};
    forall i: nat
      ensures i in ready <==> Available(ops, {}, i)
    {
      if i < |ops| {
        AvailableMeansNothingPending(ops, {}, i);
      }
      if Available(ops, {}, i) {
        AvailableIndex(ops, {}, i);
      }
    }
  }

  lemma SomethingUnplaced(ops: seq<Operation>, order: seq<nat>) returns (i: nat)
    requires Greedy(ops, order) && |order| != |ops|
    ensures i < |ops| && i !in Elements(order)
  {
    OrderFits(ops, order);
    GreedyIsDistinct(ops, order);
    ElementCount(order);
    assert Elements(order) <= Below(|ops|);
    if forall i: nat :: i < |ops| ==> i in Elements(order) {
      assert Below(|ops|) <= Elements(order);
      SubsetSize(Below(|ops|), Elements(order));
    }
    i :| i < |ops| && i !in Elements(order);
  }

  lemma NothingReadyMeansCycle(ops: seq<Operation>, placed: set<nat>, start: nat) returns (cycle: seq<nat>)
    requires ReadyListed(ops, placed, []) && start < |ops| && start !in placed
    ensures IsCycle(ops, cycle)
  {
    forall i: nat | i < |ops| && i !in placed
      ensures Waits(ops, placed, i)
    {
      assert !Available(ops, placed, i);
    }
    cycle := StuckMeansCycle(ops, placed, start);
  }
}
