/** WorkflowExecutionOrder: Kahn's topological sort over workflow steps. */
module ExecutionOrder {
  import opened Graph
  import opened Wrappers

  datatype Error = DependencyCycle

  type Dependents<!K(!new)> = map<K, seq<K>>

  /** The entries released when `d` completes. */
  function Released<K(!new, ==)>(dependents: Dependents<K>, d: K): seq<K> {
    if d in dependents then dependents[d] else []
  }

  /** No later node has the same key, so its entry in a by-key table survives. */
  ghost predicate LastOfItsKey<K(!new), T(!new)>(nodes: seq<Node<K, T>>, i: int) {
    0 <= i < |nodes| && forall k :: i < k < |nodes| ==> nodes[k].key != nodes[i].key
  }

  lemma {:induction false} LastExists<K(!new), T(!new)>(nodes: seq<Node<K, T>>, i: nat) returns (j: nat)
    requires i < |nodes|
    ensures i <= j && LastOfItsKey(nodes, j) && nodes[j].key == nodes[i].key
    decreases |nodes| - i
  {
    if LastOfItsKey(nodes, i) {
      j := i;
    } else {
      var k :| i < k < |nodes| && nodes[k].key == nodes[i].key;
      j := LastExists(nodes, k);
    }
  }

  /** What the by-key tables hold after the first pass over the nodes. */
  ghost predicate Tables<K(!new), T(!new)>(nodes: seq<Node<K, T>>, byKey: map<K, Node<K, T>>, remaining: map<K, int>) {
    && (forall x :: x in byKey <==> x in Keys(nodes))
    && (forall x :: x in remaining <==> x in Keys(nodes))
    && forall i :: LastOfItsKey(nodes, i) ==>
         byKey[nodes[i].key] == nodes[i] && remaining[nodes[i].key] == |nodes[i].deps|
  }

  lemma TablesStep<K(!new), T(!new)>(seen: seq<Node<K, T>>, node: Node<K, T>, byKey: map<K, Node<K, T>>, remaining: map<K, int>)
    requires Tables(seen, byKey, remaining)
    ensures Tables(seen + [node], byKey[node.key := node], remaining[node.key := |node.deps|])
  {
    var all := seen + [node];
    assert Keys(all) == Keys(seen) + [node.key];
    forall i | LastOfItsKey(all, i) && i < |seen|
      ensures LastOfItsKey(seen, i) && seen[i].key != node.key
    {
      assert all[|seen|].key != all[i].key;
      forall k | i < k < |seen| ensures seen[k].key != seen[i].key {
        assert all[k].key != all[i].key;
      }
    }
  }

  /** Everything released is a known key. */
  ghost predicate Listed<K(!new), T(!new)>(nodes: seq<Node<K, T>>, dependents: Dependents<K>) {
    forall d, x :: x in Released(dependents, d) ==> x in Keys(nodes)
  }

  /** `dependents` holds each node once per dependency entry. */
  ghost predicate Inverted<K(!new), T(!new)>(nodes: seq<Node<K, T>>, dependents: Dependents<K>) {
    forall i, d :: 0 <= i < |nodes| ==>
      Copies(dependents, d, nodes[i].key) == multiset(nodes[i].deps)[d]
  }

  ghost function Copies<K(!new)>(dependents: Dependents<K>, d: K, x: K): nat {
    multiset(Released(dependents, d))[x]
  }

  /** `after` has one more `key` under `d` for each time `d` occurs in `deps`. */
  ghost predicate Added<K(!new)>(before: Dependents<K>, after: Dependents<K>, key: K, deps: seq<K>) {
    forall d, x :: Copies(after, d, x) == Copies(before, d, x) + if x == key then multiset(deps)[d] else 0
  }

  method AddEdges<K(!new, ==)>(before: Dependents<K>, key: K, deps: seq<K>) returns (after: Dependents<K>)
    ensures Added(before, after, key, deps)
  {
    after := before;
    for j := 0 to |deps|
      invariant Added(before, after, key, deps[..j])
    {
      assert deps[..j + 1] == deps[..j] + [deps[j]];
      ghost var last := after;
      after := after[deps[j] := Released(after, deps[j]) + [key]];
      forall d, x
        ensures Copies(after, d, x) == Copies(last, d, x) + if x == key && d == deps[j] then 1 else 0
      {
      }
    }
    assert deps[..|deps|] == deps;
  }

  lemma AddedListed<K(!new), T(!new)>(seen: seq<Node<K, T>>, node: Node<K, T>, before: Dependents<K>, after: Dependents<K>)
    requires Listed(seen, before) && Added(before, after, node.key, node.deps)
    ensures Listed(seen + [node], after)
  {
    forall d, x | x in Released(after, d) ensures x in Keys(seen + [node]) {
      assert Copies(after, d, x) > 0;
      if x == node.key {
        assert Keys(seen + [node])[|seen|] == x;
      } else {
        assert Copies(before, d, x) > 0;
        assert x in Released(before, d);
        assert x in Keys(seen);
        var k :| 0 <= k < |seen| && Keys(seen)[k] == x;
        assert Keys(seen + [node])[k] == x;
      }
    }
  }

  lemma AddedInverted<K(!new), T(!new)>(seen: seq<Node<K, T>>, node: Node<K, T>, before: Dependents<K>, after: Dependents<K>)
    requires Listed(seen, before) && Inverted(seen, before) && Added(before, after, node.key, node.deps)
    requires node.key !in Keys(seen)
    ensures Inverted(seen + [node], after)
  {
    var all := seen + [node];
    forall i, d | 0 <= i < |all|
      ensures Copies(after, d, all[i].key) == multiset(all[i].deps)[d]
    {
      if i < |seen| {
        assert Keys(seen)[i] == seen[i].key;
      } else {
        assert node.key !in Released(before, d);
      }
    }
  }

  /** The loop that indexes the nodes, counts their dependencies and inverts the edges. */
  method Index<K(!new, ==), T(!new)>(nodes: seq<Node<K, T>>)
    returns (byKey: map<K, Node<K, T>>, remaining: map<K, int>, dependents: Dependents<K>)
    ensures Tables(nodes, byKey, remaining) && Listed(nodes, dependents)
    ensures UniqueKeys(nodes) ==> Inverted(nodes, dependents)
  {
    byKey, remaining, dependents := map[], map[], map[];
    assert Tables(nodes[..0], byKey, remaining) && Listed(nodes[..0], dependents) && Inverted(nodes[..0], dependents);
    hide Tables, Listed, Inverted;
    for i := 0 to |nodes|
      invariant Tables(nodes[..i], byKey, remaining) && Listed(nodes[..i], dependents)
      invariant UniqueKeys(nodes) ==> Inverted(nodes[..i], dependents)
    {
      var node := nodes[i];
      TablesStep(nodes[..i], node, byKey, remaining);
      byKey := byKey[node.key := node];
      remaining := remaining[node.key := |node.deps|];
      var next := AddEdges(dependents, node.key, node.deps);
      assert nodes[..i + 1] == nodes[..i] + [node];
      AddedListed(nodes[..i], node, dependents, next);
      if UniqueKeys(nodes) {
        assert forall k :: 0 <= k < i ==> nodes[k].key != nodes[i].key;
        AddedInverted(nodes[..i], node, dependents, next);
      }
      dependents := next;
    }
    assert nodes[..|nodes|] == nodes;
  }

  // ---- The work queue -----------------------------------------------------------------

  /** `taken` (emitted or queued): a node without dependencies as often as it is listed,
      any other key once, as soon as nothing remains for it. */
  ghost predicate Taken<K(!new), T(!new)>(nodes: seq<Node<K, T>>, start: map<K, int>, remaining: map<K, int>, taken: multiset<K>) {
    && start.Keys == remaining.Keys
    && (forall x :: x in start <==> x in Keys(nodes))
    && (forall x :: x in taken ==> x in start)
    && (forall x :: x in start ==> start[x] >= 0 && remaining[x] <= start[x])
    && (forall x :: x in start && start[x] == 0 ==> taken[x] == multiset(Keys(nodes))[x])
    && (forall x :: x in start && start[x] > 0 ==> taken[x] == if remaining[x] <= 0 then 1 else 0)
  }

  /** With unique keys, `remaining` is the number of dependency entries not emitted yet. */
  ghost predicate Counted<K(!new), T(!new)>(nodes: seq<Node<K, T>>, remaining: map<K, int>, done: set<K>) {
    forall i :: 0 <= i < |nodes| ==>
      nodes[i].key in remaining && remaining[nodes[i].key] == Missing(nodes[i].deps, done)
  }

  /** The keys with nothing remaining, in declared order. */
  ghost function ZeroKeys<K(!new), T(!new)>(nodes: seq<Node<K, T>>, remaining: map<K, int>): seq<K> {
    if nodes == [] then []
    else
      var key := nodes[|nodes| - 1].key;
      ZeroKeys(nodes[..|nodes| - 1], remaining) + (if key in remaining && remaining[key] == 0 then [key] else [])
  }

  /** The nodes that wait for nothing, in declared order. */
  ghost function Independent<K(!new), T(!new)>(nodes: seq<Node<K, T>>): seq<Node<K, T>> {
    if nodes == [] then []
    else Independent(nodes[..|nodes| - 1]) + (if nodes[|nodes| - 1].deps == [] then [nodes[|nodes| - 1]] else [])
  }

  lemma {:induction false} ZeroIsIndependent<K(!new), T(!new)>(nodes: seq<Node<K, T>>, remaining: map<K, int>)
    requires forall i :: 0 <= i < |nodes| ==> nodes[i].key in remaining && remaining[nodes[i].key] == |nodes[i].deps|
    ensures ZeroKeys(nodes, remaining) == Keys(Independent(nodes))
  {
    if nodes != [] {
      var front, last := nodes[..|nodes| - 1], nodes[|nodes| - 1];
      ZeroIsIndependent(front, remaining);
      assert Keys(Independent(front) + [last]) == Keys(Independent(front)) + [last.key];
    }
  }

  lemma SeedsAreIndependent<K(!new), T(!new)>(nodes: seq<Node<K, T>>, byKey: map<K, Node<K, T>>, start: map<K, int>)
    requires UniqueKeys(nodes) && Tables(nodes, byKey, start)
    ensures ZeroKeys(nodes, start) == Keys(Independent(nodes))
  {
    forall i | 0 <= i < |nodes| ensures nodes[i].key in start && start[nodes[i].key] == |nodes[i].deps| {
      assert LastOfItsKey(nodes, i);
      assert Keys(nodes)[i] == nodes[i].key;
    }
    ZeroIsIndependent(nodes, start);
  }

  lemma FoundByKey<K(!new), T(!new)>(nodes: seq<Node<K, T>>, byKey: map<K, Node<K, T>>, start: map<K, int>, x: K)
    requires Tables(nodes, byKey, start) && x in byKey
    ensures byKey[x].key == x
  {
    var i :| 0 <= i < |nodes| && Keys(nodes)[i] == x;
    var j := LastExists(nodes, i);
  }

  /** The seeds stay at the front of what is emitted and queued. */
  lemma SeedsStay<K(!new), T(!new)>(seeds: seq<K>, ordered: seq<Node<K, T>>, queue: seq<K>, node: Node<K, T>, ready: seq<K>)
    requires queue != [] && node.key == queue[0] && seeds <= Keys(ordered) + queue
    ensures seeds <= Keys(ordered + [node]) + (queue[1..] + ready)
  {
    assert Keys(ordered + [node]) == Keys(ordered) + [queue[0]];
    assert Keys(ordered + [node]) + (queue[1..] + ready) == Keys(ordered) + queue + ready;
  }

  lemma {:induction false} IndependentListed<K(!new), T(!new)>(nodes: seq<Node<K, T>>)
    ensures forall n :: n in Independent(nodes) ==> n in nodes
  {
    if nodes != [] {
      IndependentListed(nodes[..|nodes| - 1]);
    }
  }

  lemma SeedsFirst<K(!new), T(!new)>(nodes: seq<Node<K, T>>, order: seq<Node<K, T>>)
    requires UniqueKeys(nodes) && Keys(Independent(nodes)) <= Keys(order) && forall n :: n in order ==> n in nodes
    ensures Independent(nodes) <= order
  {
    var front := Independent(nodes);
    IndependentListed(nodes);
    forall i | 0 <= i < |front| ensures front[i] == order[i] {
      assert Keys(front)[i] == Keys(order)[i];
      assert front[i] in nodes && order[i] in nodes;
    }
  }

  lemma ZeroSnoc<K(!new), T(!new)>(nodes: seq<Node<K, T>>, remaining: map<K, int>, i: nat)
    requires i < |nodes|
    ensures ZeroKeys(nodes[..i + 1], remaining) ==
            ZeroKeys(nodes[..i], remaining) + (if nodes[i].key in remaining && remaining[nodes[i].key] == 0 then [nodes[i].key] else [])
  {
    assert nodes[..i + 1][..i] == nodes[..i];
  }

  lemma {:induction false} ZeroCounts<K(!new), T(!new)>(nodes: seq<Node<K, T>>, remaining: map<K, int>, x: K)
    ensures multiset(ZeroKeys(nodes, remaining))[x] == if x in remaining && remaining[x] == 0 then multiset(Keys(nodes))[x] else 0
  {
    if nodes != [] {
      var front, last := nodes[..|nodes| - 1], nodes[|nodes| - 1];
      ZeroCounts(front, remaining, x);
      assert Keys(nodes) == Keys(front) + [last.key];
    }
  }

  method Seed<K(!new, ==), T(!new)>(nodes: seq<Node<K, T>>, remaining: map<K, int>) returns (queue: seq<K>)
    requires forall x :: x in Keys(nodes) ==> x in remaining
    ensures forall x :: multiset(queue)[x] == if x in remaining && remaining[x] == 0 then multiset(Keys(nodes))[x] else 0
    ensures queue == ZeroKeys(nodes, remaining)
  {
    hide *;
    queue := [];
    ZeroNone(nodes, remaining);
    for i := 0 to |nodes|
      invariant queue == ZeroKeys(nodes[..i], remaining)
    {
      ZeroSnoc(nodes, remaining, i);
      assert Keys(nodes)[i] == nodes[i].key;
      if remaining[nodes[i].key] == 0 {
        queue := queue + [nodes[i].key];
      }
    }
    assert nodes[..|nodes|] == nodes;
    forall x ensures multiset(queue)[x] == if x in remaining && remaining[x] == 0 then multiset(Keys(nodes))[x] else 0 {
      ZeroCounts(nodes, remaining, x);
    }
  }

  lemma ZeroNone<K(!new), T(!new)>(nodes: seq<Node<K, T>>, remaining: map<K, int>)
    ensures ZeroKeys(nodes[..0], remaining) == []
  {
  }

  /** The inner loop: count down each dependent of a finished node, queueing those that reach zero. */
  method Release<K(!new, ==)>(start: map<K, int>, released: seq<K>) returns (remaining: map<K, int>, ready: seq<K>)
    requires forall x :: x in released ==> x in start
    ensures remaining.Keys == start.Keys
    ensures forall x :: x in start ==> remaining[x] == start[x] - multiset(released)[x]
    ensures forall x :: multiset(ready)[x] == if x in start && start[x] > 0 >= remaining[x] then 1 else 0
  {
    remaining, ready := start, [];
    for j := 0 to |released|
      invariant remaining.Keys == start.Keys
      invariant forall x :: x in start ==> remaining[x] == start[x] - multiset(released[..j])[x]
      invariant forall x :: multiset(ready)[x] == if x in start && start[x] > 0 >= remaining[x] then 1 else 0
    {
      var dependent := released[j];
      assert dependent in released;
      assert released[..j + 1] == released[..j] + [dependent];
      remaining := remaining[dependent := remaining[dependent] - 1];
      if remaining[dependent] == 0 {
        ready := ready + [dependent];
      }
    }
    assert released[..|released|] == released;
  }

  lemma TakenFits<K(!new), T(!new)>(nodes: seq<Node<K, T>>, start: map<K, int>, remaining: map<K, int>, taken: multiset<K>)
    requires Taken(nodes, start, remaining, taken)
    ensures taken <= multiset(Keys(nodes))
    ensures |taken| <= |nodes|
    ensures |taken| == |nodes| ==> taken == multiset(Keys(nodes))
  {
    forall x | x in taken ensures taken[x] <= multiset(Keys(nodes))[x] {
      assert x in start;
      assert x in Keys(nodes);
    }
    SubmultisetSize(taken, multiset(Keys(nodes)));
  }

  /** Emitting the head of the queue and releasing its dependents keeps both counts. */
  lemma Emitted<K(!new), T(!new)>(nodes: seq<Node<K, T>>, dependents: Dependents<K>, start: map<K, int>, before: map<K, int>,
                                  after: map<K, int>, taken: multiset<K>, ready: multiset<K>, current: K)
    requires Taken(nodes, start, before, taken) && Listed(nodes, dependents)
    requires after.Keys == before.Keys
    requires forall x :: x in before ==> after[x] == before[x] - Copies(dependents, current, x)
    requires forall x :: ready[x] == if x in before && before[x] > 0 >= after[x] then 1 else 0
    ensures Taken(nodes, start, after, taken + ready)
  {
    forall x | x in taken + ready ensures x in start {
    }
  }

  lemma CountedAfter<K(!new), T(!new)>(nodes: seq<Node<K, T>>, dependents: Dependents<K>, before: map<K, int>,
                                       after: map<K, int>, done: set<K>, current: K)
    requires Counted(nodes, before, done) && Inverted(nodes, dependents) && current !in done
    requires after.Keys == before.Keys
    requires forall x :: x in before ==> after[x] == before[x] - Copies(dependents, current, x)
    ensures Counted(nodes, after, done + {current})
  {
    forall i | 0 <= i < |nodes| ensures after[nodes[i].key] == Missing(nodes[i].deps, done + {current}) {
      MissingAfter(nodes[i].deps, done, current);
    }
  }

  /** Distinct keys and the same multiset of keys force a permutation of the nodes. */
  lemma KeysDetermineNodes<K(!new), T(!new)>(nodes: seq<Node<K, T>>, order: seq<Node<K, T>>)
    requires UniqueKeys(nodes) && UniqueKeys(order) && multiset(Keys(order)) == multiset(Keys(nodes))
    requires forall n :: n in order ==> n in nodes
    ensures multiset(order) == multiset(nodes)
  {
    forall n ensures multiset(order)[n] == multiset(nodes)[n] {
      Once(order, n);
      Once(nodes, n);
      if n in nodes && n !in order {
        var i :| 0 <= i < |nodes| && nodes[i] == n;
        assert n.key == Keys(nodes)[i];
        SameMembers(Keys(order), Keys(nodes));
        assert n.key in Keys(order);
        var k :| 0 <= k < |order| && Keys(order)[k] == n.key;
        assert order[k] in order;
        var j :| 0 <= j < |nodes| && nodes[j] == order[k];
      }
    }
  }

  lemma {:induction false} Once<K(!new), T(!new)>(nodes: seq<Node<K, T>>, n: Node<K, T>)
    requires UniqueKeys(nodes)
    ensures multiset(nodes)[n] == if n in nodes then 1 else 0
  {
    if nodes != [] {
      var front, last := nodes[..|nodes| - 1], nodes[|nodes| - 1];
      assert nodes == front + [last];
      Once(front, n);
    }
  }

  /** Distinct keys: no key is counted twice. */
  lemma {:induction false} KeyOnce<K(!new), T(!new)>(nodes: seq<Node<K, T>>, x: K)
    requires UniqueKeys(nodes)
    ensures multiset(Keys(nodes))[x] <= 1
  {
    if nodes != [] {
      var front, last := nodes[..|nodes| - 1], nodes[|nodes| - 1];
      assert Keys(nodes) == Keys(front) + [last.key];
      KeyOnce(front, x);
    }
  }

  lemma {:induction false} KeyTwice<K(!new), T(!new)>(nodes: seq<Node<K, T>>, i: nat, j: nat)
    requires i < j < |nodes| && nodes[i].key == nodes[j].key
    ensures multiset(Keys(nodes))[nodes[i].key] >= 2
  {
    var keys := Keys(nodes);
    assert keys == keys[..j] + [keys[j]] + keys[j + 1..];
    assert keys[..j][i] == nodes[i].key;
    assert nodes[i].key in multiset(keys[..j]);
  }

  /** The first duplicated key already rules the order out: its last node waits for something. */
  lemma DuplicateStarves<K(!new), T(!new)>(nodes: seq<Node<K, T>>, byKey: map<K, Node<K, T>>, start: map<K, int>,
                                           remaining: map<K, int>, i: nat, j: nat)
    requires Tables(nodes, byKey, start) && Taken(nodes, start, remaining, multiset(Keys(nodes)))
    requires i < j && LastOfItsKey(nodes, j) && nodes[i].key == nodes[j].key
    ensures nodes[j].deps == []
  {
    KeyTwice(nodes, i, j);
    assert nodes[j].key in Keys(nodes);
    assert start[nodes[j].key] == |nodes[j].deps|;
  }

  /** An exhausted queue that has not emitted everything leaves a set that waits for itself. */
  lemma StarvedHasCycle<K(!new), T(!new)>(nodes: seq<Node<K, T>>, start: map<K, int>, remaining: map<K, int>, emitted: seq<K>)
    requires UniqueKeys(nodes) && KnownDeps(nodes)
    requires Taken(nodes, start, remaining, multiset(emitted))
    requires Counted(nodes, remaining, set x | x in emitted)
    requires |emitted| != |nodes|
    ensures !Acyclic(nodes)
  {
    var stuck := set x | x in Keys(nodes) && x !in emitted;
    if stuck == {} {
      forall x ensures multiset(emitted)[x] >= multiset(Keys(nodes))[x] {
        KeyOnce(nodes, x);
        assert x in Keys(nodes) ==> x !in stuck;
      }
      SubmultisetSize(multiset(Keys(nodes)), multiset(emitted));
      TakenFits(nodes, start, remaining, multiset(emitted));
      assert false;
    }
    var first :| first in stuck;
    forall u | u in stuck ensures Blocked(nodes, stuck, u) {
      var i :| 0 <= i < |nodes| && Keys(nodes)[i] == u;
      assert u in start;
      assert multiset(emitted)[u] == 0;
      assert nodes[i].key == u && remaining[u] == Missing(nodes[i].deps, set x | x in emitted);
      var d :| d in nodes[i].deps && d !in emitted;
      assert nodes[i] in nodes;
      assert d in stuck && Waits(nodes, u, d);
    }
    StuckHasCycle(nodes, stuck, first);
  }

  /** Appending a node whose dependencies are all emitted keeps the order dependency-safe. */
  lemma TopologicalAppend<K(!new), T(!new)>(order: seq<Node<K, T>>, node: Node<K, T>)
    requires Topological(order) && UniqueKeys(order)
    requires forall d :: d in node.deps ==> d in Keys(order)
    requires node.key !in Keys(order)
    ensures Topological(order + [node]) && UniqueKeys(order + [node])
  {
    var longer := order + [node];
    assert Keys(longer) == Keys(order) + [node.key];
    forall k, d | 0 <= k < |longer| && d in longer[k].deps ensures d in Keys(longer)[..k] {
      if k < |order| {
        assert d in Keys(order)[..k];
        assert Keys(longer)[..k] == Keys(order)[..k];
      } else {
        assert Keys(longer)[..k] == Keys(order);
      }
    }
    forall i | 0 <= i < |order| ensures longer[i].key != node.key {
      assert Keys(order)[i] == order[i].key;
    }
  }

  /** The loop invariant of the sort. */
  ghost predicate Progress<K(!new), T(!new)>(
    nodes: seq<Node<K, T>>, byKey: map<K, Node<K, T>>, dependents: Dependents<K>, start: map<K, int>,
    remaining: map<K, int>, queue: seq<K>, ordered: seq<Node<K, T>>)
  {
    && Tables(nodes, byKey, start) && Listed(nodes, dependents)
    && Taken(nodes, start, remaining, multiset(Keys(ordered)) + multiset(queue))
    && (forall n :: n in ordered ==> n in nodes)
    && (UniqueKeys(nodes) ==>
          && Inverted(nodes, dependents)
          && Counted(nodes, remaining, set x | x in Keys(ordered))
          && Topological(ordered) && UniqueKeys(ordered))
  }

  lemma ProgressInit<K(!new), T(!new)>(
    nodes: seq<Node<K, T>>, byKey: map<K, Node<K, T>>, dependents: Dependents<K>, start: map<K, int>, queue: seq<K>)
    requires Tables(nodes, byKey, start) && Listed(nodes, dependents)
    requires UniqueKeys(nodes) ==> Inverted(nodes, dependents)
    requires forall x :: multiset(queue)[x] == if x in start && start[x] == 0 then multiset(Keys(nodes))[x] else 0
    ensures Progress(nodes, byKey, dependents, start, start, queue, [])
  {
    forall x | x in start ensures start[x] >= 0 {
      var _, _ := Indexed(nodes, byKey, start, x);
    }
    if UniqueKeys(nodes) {
      forall i | 0 <= i < |nodes| ensures start[nodes[i].key] == |nodes[i].deps| {
        assert LastOfItsKey(nodes, i);
      }
      assert forall i :: 0 <= i < |nodes| ==> nodes[i].key == Keys(nodes)[i];
    }
  }

  /** Each indexed key stands for the last node of that key. */
  lemma Indexed<K(!new), T(!new)>(nodes: seq<Node<K, T>>, byKey: map<K, Node<K, T>>, start: map<K, int>, x: K)
      returns (i: nat, node: Node<K, T>)
    requires Tables(nodes, byKey, start) && (x in start || x in byKey)
    ensures x in start && x in byKey
    ensures LastOfItsKey(nodes, i) && node == nodes[i] == byKey[x] && node.key == x && start[x] == |node.deps|
  {
    assert x in Keys(nodes);
    var k :| 0 <= k < |nodes| && Keys(nodes)[k] == x;
    i := LastExists(nodes, k);
    node := nodes[i];
  }

  /** With unique keys, a queued node is new and all its dependencies are emitted. */
  lemma HeadIsReady<K(!new), T(!new)>(
    nodes: seq<Node<K, T>>, start: map<K, int>, remaining: map<K, int>, queue: seq<K>, emitted: seq<K>, i: nat)
    requires UniqueKeys(nodes) && i < |nodes| && queue != [] && queue[0] == nodes[i].key
    requires Taken(nodes, start, remaining, multiset(emitted) + multiset(queue))
    requires start[nodes[i].key] == |nodes[i].deps|
    requires Counted(nodes, remaining, set x | x in emitted)
    ensures queue[0] !in emitted && forall d :: d in nodes[i].deps ==> d in emitted
  {
    var x := queue[0];
    KeyOnce(nodes, x);
    TakenFits(nodes, start, remaining, multiset(emitted) + multiset(queue));
    assert multiset(queue)[x] >= 1;
    assert (multiset(emitted) + multiset(queue))[x] == 1;
    assert Missing(nodes[i].deps, set x | x in emitted) == 0;
  }

  /** The part of a step that holds for unique keys only. */
  lemma SafeStep<K(!new), T(!new)>(
    nodes: seq<Node<K, T>>, dependents: Dependents<K>, start: map<K, int>, before: map<K, int>, queue: seq<K>,
    ordered: seq<Node<K, T>>, after: map<K, int>, i: nat)
    requires UniqueKeys(nodes) && Inverted(nodes, dependents)
    requires Taken(nodes, start, before, multiset(Keys(ordered)) + multiset(queue))
    requires Counted(nodes, before, set x | x in Keys(ordered)) && Topological(ordered) && UniqueKeys(ordered)
    requires i < |nodes| && queue != [] && queue[0] == nodes[i].key && start[queue[0]] == |nodes[i].deps|
    requires after.Keys == before.Keys
    requires forall x :: x in before ==> after[x] == before[x] - Copies(dependents, queue[0], x)
    ensures Counted(nodes, after, set x | x in Keys(ordered + [nodes[i]]))
    ensures Topological(ordered + [nodes[i]]) && UniqueKeys(ordered + [nodes[i]])
  {
    hide Taken, Inverted, Counted, Topological, UniqueKeys, Copies;
    HeadIsReady(nodes, start, before, queue, Keys(ordered), i);
    var done := set x | x in Keys(ordered);
    CountedAfter(nodes, dependents, before, after, done, queue[0]);
    assert Keys(ordered + [nodes[i]]) == Keys(ordered) + [queue[0]];
    assert done + {queue[0]} == set x | x in Keys(ordered + [nodes[i]]);
    TopologicalAppend(ordered, nodes[i]);
  }

  lemma MoveHead<K>(emitted: seq<K>, queue: seq<K>, ready: seq<K>)
    requires queue != []
    ensures multiset(emitted + [queue[0]]) + multiset(queue[1..] + ready) == multiset(emitted) + multiset(queue) + multiset(ready)
  {
    assert queue == [queue[0]] + queue[1..];
  }

  lemma ProgressStep<K(!new), T(!new)>(
    nodes: seq<Node<K, T>>, byKey: map<K, Node<K, T>>, dependents: Dependents<K>, start: map<K, int>,
    before: map<K, int>, queue: seq<K>, ordered: seq<Node<K, T>>, after: map<K, int>, ready: seq<K>)
    requires Progress(nodes, byKey, dependents, start, before, queue, ordered)
    requires queue != [] && queue[0] in byKey && after.Keys == before.Keys
    requires forall x :: x in before ==> after[x] == before[x] - Copies(dependents, queue[0], x)
    requires forall x :: multiset(ready)[x] == if x in before && before[x] > 0 >= after[x] then 1 else 0
    ensures Progress(nodes, byKey, dependents, start, after, queue[1..] + ready, ordered + [byKey[queue[0]]])
    ensures |ordered| < |nodes|
  {
    hide Tables, Taken, Listed, Inverted, Counted, Topological, UniqueKeys, Copies;
    var taken := multiset(Keys(ordered)) + multiset(queue);
    TakenFits(nodes, start, before, taken);
    var i, node := Indexed(nodes, byKey, start, queue[0]);
    Emitted(nodes, dependents, start, before, after, taken, multiset(ready), queue[0]);
    MoveHead(Keys(ordered), queue, ready);
    assert Keys(ordered + [node]) == Keys(ordered) + [queue[0]];
    if UniqueKeys(nodes) {
      SafeStep(nodes, dependents, start, before, queue, ordered, after, i);
    }
  }

  /** WorkflowExecutionOrder on normalized steps. */
  method Kahn<K(!new, ==), T(!new)>(nodes: seq<Node<K, T>>) returns (r: Result<seq<Node<K, T>>, Error>)
    ensures r.Ok? ==> multiset(Keys(r.value)) == multiset(Keys(nodes)) && forall n :: n in r.value ==> n in nodes
    ensures r.Ok? ==> forall i, j :: 0 <= i < j && LastOfItsKey(nodes, j) && nodes[i].key == nodes[j].key ==> nodes[j].deps == []
    ensures UniqueKeys(nodes) ==> (r.Ok? <==> KnownDeps(nodes) && Acyclic(nodes))
    ensures UniqueKeys(nodes) && r.Ok? ==> multiset(r.value) == multiset(nodes) && Topological(r.value)
    ensures UniqueKeys(nodes) && r.Ok? ==> Independent(nodes) <= r.value
  {
    hide *;
    var byKey, start, dependents := Index(nodes);
    var remaining := start;
    TablesCover(nodes, byKey, start);
    var queue := Seed(nodes, remaining);
    ProgressInit(nodes, byKey, dependents, start, queue);
    ghost var seeds := queue;
    var ordered := [];
    NothingOrdered<K, T>(queue);
    while queue != []
      invariant Progress(nodes, byKey, dependents, start, remaining, queue, ordered)
      invariant seeds <= Keys(ordered) + queue
      decreases |nodes| - |ordered|
    {
      var current := queue[0];
      HeadIsKnown(nodes, byKey, dependents, start, remaining, queue, ordered);
      var left, ready := Release(remaining, Released(dependents, current));
      CopiesAre(dependents, current);
      ProgressStep(nodes, byKey, dependents, start, remaining, queue, ordered, left, ready);
      FoundByKey(nodes, byKey, start, current);
      SeedsStay(seeds, ordered, queue, byKey[current], ready);
      remaining, queue, ordered := left, queue[1..] + ready, ordered + [byKey[current]];
    }
    if |ordered| != |nodes| {
      Exhausted(nodes, byKey, dependents, start, remaining, ordered);
      r := Err(DependencyCycle);
    } else {
      Complete(nodes, byKey, dependents, start, remaining, ordered);
      assert Keys(ordered) + [] == Keys(ordered);
      if UniqueKeys(nodes) {
        SeedsAreIndependent(nodes, byKey, start);
        SeedsFirst(nodes, ordered);
      }
      r := Ok(ordered);
    }
  }

  lemma CopiesAre<K(!new)>(dependents: Dependents<K>, d: K)
    ensures forall x :: Copies(dependents, d, x) == multiset(Released(dependents, d))[x]
  {
  }

  lemma NothingOrdered<K(!new), T(!new)>(queue: seq<K>)
    ensures var none: seq<Node<K, T>> := []; Keys(none) + queue == queue
  {
  }

  lemma TablesCover<K(!new), T(!new)>(nodes: seq<Node<K, T>>, byKey: map<K, Node<K, T>>, start: map<K, int>)
    requires Tables(nodes, byKey, start)
    ensures forall x :: x in Keys(nodes) ==> x in start
  {
  }

  lemma HeadIsKnown<K(!new), T(!new)>(
    nodes: seq<Node<K, T>>, byKey: map<K, Node<K, T>>, dependents: Dependents<K>, start: map<K, int>,
    remaining: map<K, int>, queue: seq<K>, ordered: seq<Node<K, T>>)
    requires Progress(nodes, byKey, dependents, start, remaining, queue, ordered) && queue != []
    ensures queue[0] in byKey && forall x :: x in Released(dependents, queue[0]) ==> x in remaining
  {
    assert queue[0] in multiset(queue);
    assert queue[0] in multiset(Keys(ordered)) + multiset(queue);
  }

  lemma Exhausted<K(!new), T(!new)>(
    nodes: seq<Node<K, T>>, byKey: map<K, Node<K, T>>, dependents: Dependents<K>, start: map<K, int>,
    remaining: map<K, int>, ordered: seq<Node<K, T>>)
    requires Progress(nodes, byKey, dependents, start, remaining, [], ordered) && |ordered| != |nodes|
    ensures UniqueKeys(nodes) && KnownDeps(nodes) ==> !Acyclic(nodes)
  {
    if UniqueKeys(nodes) && KnownDeps(nodes) {
      assert multiset(Keys(ordered)) + multiset([]) == multiset(Keys(ordered));
      StarvedHasCycle(nodes, start, remaining, Keys(ordered));
    }
  }

  lemma Complete<K(!new), T(!new)>(
    nodes: seq<Node<K, T>>, byKey: map<K, Node<K, T>>, dependents: Dependents<K>, start: map<K, int>,
    remaining: map<K, int>, ordered: seq<Node<K, T>>)
    requires Progress(nodes, byKey, dependents, start, remaining, [], ordered) && |ordered| == |nodes|
    ensures multiset(Keys(ordered)) == multiset(Keys(nodes)) && forall n :: n in ordered ==> n in nodes
    ensures forall i, j :: 0 <= i < j && LastOfItsKey(nodes, j) && nodes[i].key == nodes[j].key ==> nodes[j].deps == []
    ensures UniqueKeys(nodes) ==>
              multiset(ordered) == multiset(nodes) && Topological(ordered) && KnownDeps(nodes) && Acyclic(nodes)
  {
    assert multiset(Keys(ordered)) + multiset([]) == multiset(Keys(ordered));
    TakenFits(nodes, start, remaining, multiset(Keys(ordered)));
    forall i, j | 0 <= i < j && LastOfItsKey(nodes, j) && nodes[i].key == nodes[j].key ensures nodes[j].deps == [] {
      DuplicateStarves(nodes, byKey, start, remaining, i, j);
    }
    if UniqueKeys(nodes) {
      KeysDetermineNodes(nodes, ordered);
      TopologicalIsAcyclic(ordered);
      PermutationKeepsGraph(nodes, ordered);
    }
  }
}
