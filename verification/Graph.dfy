/** Dependency graphs: named nodes that each wait for a list of names. */
module Graph {
  datatype Node<+K, +T> = Node(key: K, deps: seq<K>, item: T)

  function Keys<K(!new), T(!new)>(nodes: seq<Node<K, T>>): (r: seq<K>)
    ensures |r| == |nodes|
    ensures forall i :: 0 <= i < |nodes| ==> r[i] == nodes[i].key
  {
    seq(|nodes|, i requires 0 <= i < |nodes| => nodes[i].key)
  }

  ghost predicate UniqueKeys<K(!new), T(!new)>(nodes: seq<Node<K, T>>) {
    forall i, j :: 0 <= i < j < |nodes| ==> nodes[i].key != nodes[j].key
  }

  ghost predicate KnownDeps<K(!new), T(!new)>(nodes: seq<Node<K, T>>) {
    forall n, d :: n in nodes && d in n.deps ==> d in Keys(nodes)
  }

  /** Some node called `a` waits for `b`. */
  ghost predicate Waits<K(!new), T(!new)>(nodes: seq<Node<K, T>>, a: K, b: K) {
    exists n :: n in nodes && n.key == a && b in n.deps
  }

  ghost predicate Edge<K(!new), T(!new)>(nodes: seq<Node<K, T>>, walk: seq<K>, i: nat)
    requires i < |walk| - 1
  {
    Waits(nodes, walk[i], walk[i + 1])
  }

  /** A closed walk along waits-for edges. */
  ghost predicate Cycle<K(!new), T(!new)>(nodes: seq<Node<K, T>>, walk: seq<K>) {
    && |walk| >= 2 && walk[0] == walk[|walk| - 1]
    && forall i :: 0 <= i < |walk| - 1 ==> Edge(nodes, walk, i)
  }

  ghost predicate Acyclic<K(!new), T(!new)>(nodes: seq<Node<K, T>>) {
    !exists walk :: Cycle(nodes, walk)
  }

  /** Every dependency of a node is the name of an earlier node. */
  ghost predicate Topological<K(!new), T(!new)>(order: seq<Node<K, T>>) {
    forall k, d :: 0 <= k < |order| && d in order[k].deps ==> d in Keys(order)[..k]
  }

  ghost predicate Follows<K(!new)>(next: map<K, K>, walk: seq<K>, i: nat)
    requires i < |walk| - 1
  {
    walk[i] in next && next[walk[i]] == walk[i + 1]
  }

  /** Following a function on a finite set must revisit a name. */
  lemma {:induction false} WalkMeetsItself<K(!new)>(next: map<K, K>, unseen: set<K>, walk: seq<K>)
      returns (loop: seq<K>)
    requires forall u {:trigger next[u]} :: u in next ==> next[u] in next
    requires walk != [] && walk[|walk| - 1] in next
    requires forall u :: u in next && u !in unseen ==> u in walk
    requires forall i :: 0 <= i < |walk| - 1 ==> Follows(next, walk, i)
    ensures |loop| >= 2 && loop[0] == loop[|loop| - 1]
    ensures forall i :: 0 <= i < |loop| - 1 ==> Follows(next, loop, i)
    decreases unseen
  {
    var d := next[walk[|walk| - 1]];
    var longer := walk + [d];
    forall i | 0 <= i < |longer| - 1 ensures Follows(next, longer, i) {
      assert i < |walk| - 1 ==> Follows(next, walk, i);
    }
    if d in unseen {
      loop := WalkMeetsItself(next, unseen - {d}, longer);
    } else {
      var k :| 0 <= k < |walk| && walk[k] == d;
      loop := longer[k..];
      forall i | 0 <= i < |loop| - 1 ensures Follows(next, loop, i) {
        assert Follows(next, longer, k + i);
      }
    }
  }

  ghost predicate Blocked<K(!new), T(!new)>(nodes: seq<Node<K, T>>, stuck: set<K>, u: K) {
    exists d :: d in stuck && Waits(nodes, u, d)
  }

  ghost function Blocker<K(!new), T(!new)>(nodes: seq<Node<K, T>>, stuck: set<K>, u: K): (d: K)
    requires Blocked(nodes, stuck, u)
    ensures d in stuck && Waits(nodes, u, d)
  {
    var d :| d in stuck && Waits(nodes, u, d);
    d
  }

  /** When every member of a non-empty set waits for a member of it, there is a cycle. */
  lemma StuckHasCycle<K(!new), T(!new)>(nodes: seq<Node<K, T>>, stuck: set<K>, start: K)
    requires start in stuck
    requires forall u {:trigger Blocked(nodes, stuck, u)} :: u in stuck ==> Blocked(nodes, stuck, u)
    ensures !Acyclic(nodes)
  {
    var next := map u | u in stuck :: Blocker(nodes, stuck, u);
    var walk := WalkMeetsItself(next, stuck - {start}, [start]);
    forall i | 0 <= i < |walk| - 1 ensures Edge(nodes, walk, i) {
      assert Follows(next, walk, i);
    }
    assert Cycle(nodes, walk);
  }

  /** Along a dependency-safe order each edge of a walk goes strictly to the left. */
  lemma {:induction false} WalkGoesLeft<K(!new), T(!new)>(order: seq<Node<K, T>>, walk: seq<K>, n: nat) returns (p: nat, q: nat)
    requires UniqueKeys(order) && Topological(order) && Cycle(order, walk) && 1 <= n < |walk|
    ensures q < p < |order| && order[p].key == walk[0] && order[q].key == walk[n]
  {
    assert Edge(order, walk, n - 1);
    var i :| 0 <= i < |order| && order[i].key == walk[n - 1] && walk[n] in order[i].deps;
    assert walk[n] in Keys(order)[..i];
    q :| 0 <= q < i && Keys(order)[q] == walk[n];
    p := i;
    if n > 1 {
      var q0: nat;
      p, q0 := WalkGoesLeft(order, walk, n - 1);
      assert q0 == i;
    }
  }

  lemma TopologicalIsAcyclic<K(!new), T(!new)>(order: seq<Node<K, T>>)
    requires UniqueKeys(order) && Topological(order)
    ensures Acyclic(order) && KnownDeps(order)
  {
    forall walk | Cycle(order, walk) ensures false {
      var p, q := WalkGoesLeft(order, walk, |walk| - 1);
    }
    forall n, d | n in order && d in n.deps ensures d in Keys(order) {
      var i :| 0 <= i < |order| && order[i] == n;
      assert d in Keys(order)[..i];
    }
  }

  lemma SameMembers<T>(a: seq<T>, b: seq<T>)
    requires multiset(a) == multiset(b)
    ensures forall x :: x in a <==> x in b
  {
    forall x ensures x in a <==> x in b {
      assert x in a <==> x in multiset(a);
      assert x in b <==> x in multiset(b);
    }
  }

  /** Acyclicity and known dependencies do not depend on the order of the nodes. */
  lemma PermutationKeepsGraph<K(!new), T(!new)>(nodes: seq<Node<K, T>>, order: seq<Node<K, T>>)
    requires multiset(nodes) == multiset(order)
    ensures Acyclic(order) ==> Acyclic(nodes)
    ensures KnownDeps(order) ==> KnownDeps(nodes)
  {
    SameMembers(nodes, order);
    forall walk | Cycle(nodes, walk) ensures Cycle(order, walk) {
      forall i | 0 <= i < |walk| - 1 ensures Edge(order, walk, i) {
        assert Edge(nodes, walk, i);
      }
    }
    if KnownDeps(order) {
      forall n, d | n in nodes && d in n.deps ensures d in Keys(nodes) {
        assert d in Keys(order);
        var j :| 0 <= j < |order| && Keys(order)[j] == d;
        assert order[j] in nodes;
        var m :| 0 <= m < |nodes| && nodes[m] == order[j];
        assert Keys(nodes)[m] == d;
      }
    }
  }

  // ---- Counting what a node still waits for -------------------------------------------

  /** How many dependency entries are not done yet. */
  ghost function Missing<K(!new)>(deps: seq<K>, done: set<K>): (n: nat)
    ensures n == 0 <==> forall d :: d in deps ==> d in done
    ensures done == {} ==> n == |deps|
  {
    if deps == [] then 0 else (if deps[0] in done then 0 else 1) + Missing(deps[1..], done)
  }

  lemma {:induction false} MissingAfter<K(!new)>(deps: seq<K>, done: set<K>, x: K)
    requires x !in done
    ensures Missing(deps, done + {x}) == Missing(deps, done) - multiset(deps)[x]
  {
    if deps != [] {
      MissingAfter(deps[1..], done, x);
      assert deps == [deps[0]] + deps[1..];
    }
  }

  lemma SubmultisetSize<T>(a: multiset<T>, b: multiset<T>)
    requires a <= b
    ensures |a| <= |b|
    ensures |a| == |b| ==> a == b
  {
    assert b == a + (b - a);
  }
}
