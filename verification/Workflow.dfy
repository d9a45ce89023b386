/** Workflow steps and their execution order. */
module Workflow {
  import opened ExecutionOrder
  import opened Graph
  import opened Text
  import opened Values
  import opened Wrappers

  datatype StepUse = StepUse(kind: string, rest: Object)

  datatype Retry = Retry(maxAttempts: int, backoffSeconds: int)

  datatype Step = Step(
    id: string,
    description: string,
    condition: string,
    use: StepUse,
    with: Object,
    dependsOn: seq<string>,
    retry: Retry,
    timeoutSeconds: int)

  type StepNode = Node<string, Step>

  /** A step under its normalized name, waiting for normalized names (repetitions kept). */
  function NodeOf(s: Step): StepNode {
    Node(Normalize(s.id), seq(|s.dependsOn|, i requires 0 <= i < |s.dependsOn| => Normalize(s.dependsOn[i])), s)
  }

  function Nodes(steps: seq<Step>): (r: seq<StepNode>)
    ensures |r| == |steps|
    ensures forall i :: 0 <= i < |steps| ==> r[i] == NodeOf(steps[i])
  {
    seq(|steps|, i requires 0 <= i < |steps| => NodeOf(steps[i]))
  }

  function Items(nodes: seq<StepNode>): (r: seq<Step>)
    ensures |r| == |nodes|
    ensures forall i :: 0 <= i < |nodes| ==> r[i] == nodes[i].item
  {
    seq(|nodes|, i requires 0 <= i < |nodes| => nodes[i].item)
  }

  lemma {:induction false} ItemCount(nodes: seq<StepNode>, s: Step)
    requires forall n :: n in nodes ==> n == NodeOf(n.item)
    ensures multiset(Items(nodes))[s] == multiset(nodes)[NodeOf(s)]
  {
    hide NodeOf;
    if nodes != [] {
      var front, last := nodes[..|nodes| - 1], nodes[|nodes| - 1];
      assert nodes == front + [last];
      assert Items(nodes) == Items(front) + [last.item];
      ItemCount(front, s);
      assert NodeOf(s).item == s by { SameItem(s); }
    }
  }

  lemma SameItem(s: Step)
    ensures NodeOf(s).item == s
  {
  }

  /** WorkflowExecutionOrder: for unique step names the sort succeeds exactly on known, acyclic
      dependencies, and then emits every step once, after all the steps it waits for.  Whatever
      the names, a success emits each name as often as it is declared, and a repeated name
      succeeds only if its last step waits for nothing. */
  method WorkflowExecutionOrder(steps: seq<Step>) returns (r: Result<seq<Step>, Error>)
    ensures r.Ok? ==> multiset(Keys(Nodes(r.value))) == multiset(Keys(Nodes(steps)))
    ensures r.Ok? ==> forall i, j :: 0 <= i < j && LastOfItsKey(Nodes(steps), j) && Nodes(steps)[i].key == Nodes(steps)[j].key
                        ==> Nodes(steps)[j].deps == []
    ensures UniqueKeys(Nodes(steps)) ==> (r.Ok? <==> KnownDeps(Nodes(steps)) && Acyclic(Nodes(steps)))
    ensures UniqueKeys(Nodes(steps)) && r.Ok? ==> multiset(r.value) == multiset(steps) && Topological(Nodes(r.value))
    ensures DistinctNames(steps) && r.Ok? ==> WaitsAreBefore(r.value) && WaitForNothing(steps) <= r.value
    ensures DistinctNames(steps) && !NamesKnown(steps) ==> r.Err?
  {
    NamesText(steps);
    hide *;
    var nodes := Nodes(steps);
    var order := Kahn(nodes);
    match order
    case Err(e) => r := Err(e);
    case Ok(ns) =>
      r := Ok(Items(ns));
      Renamed(steps, ns);
      if DistinctNames(steps) {
        OrderText(r.value);
        FirstText(steps, r.value);
      }
  }

  // ---- The same in terms of the steps' text -------------------------------------------

  /** No two steps have the same id, trimmed and lower-cased. */
  ghost predicate DistinctNames(steps: seq<Step>) {
    forall i, j :: 0 <= i < j < |steps| ==> Lower(Trim(steps[i].id)) != Lower(Trim(steps[j].id))
  }

  ghost predicate Named(steps: seq<Step>, name: string, n: nat)
    requires n <= |steps|
  {
    exists j :: 0 <= j < n && Lower(Trim(steps[j].id)) == Lower(Trim(name))
  }

  ghost predicate NamesKnown(steps: seq<Step>) {
    forall i, k :: 0 <= i < |steps| && 0 <= k < |steps[i].dependsOn| ==> Named(steps, steps[i].dependsOn[k], |steps|)
  }

  /** Every step comes after those its depends_on names. */
  ghost predicate WaitsAreBefore(order: seq<Step>) {
    forall i, k :: 0 <= i < |order| && 0 <= k < |order[i].dependsOn| ==> Named(order, order[i].dependsOn[k], i)
  }

  /** The steps without depends_on, in declared order. */
  ghost function WaitForNothing(steps: seq<Step>): seq<Step> {
    if steps == [] then []
    else WaitForNothing(steps[..|steps| - 1]) + (if steps[|steps| - 1].dependsOn == [] then [steps[|steps| - 1]] else [])
  }

  lemma NodeText(s: Step)
    ensures NodeOf(s).key == Lower(Trim(s.id)) && |NodeOf(s).deps| == |s.dependsOn|
    ensures forall k :: 0 <= k < |s.dependsOn| ==> NodeOf(s).deps[k] == Lower(Trim(s.dependsOn[k]))
  {
    hide Lower, Trim;
  }

  lemma NamesText(steps: seq<Step>)
    ensures DistinctNames(steps) <==> UniqueKeys(Nodes(steps))
    ensures KnownDeps(Nodes(steps)) ==> NamesKnown(steps)
  {
    forall i | 0 <= i < |steps|
      ensures Nodes(steps)[i].key == Lower(Trim(steps[i].id)) && |Nodes(steps)[i].deps| == |steps[i].dependsOn|
      ensures forall k :: 0 <= k < |steps[i].dependsOn| ==> Nodes(steps)[i].deps[k] == Lower(Trim(steps[i].dependsOn[k]))
    {
      NodeText(steps[i]);
    }
    hide NodeOf, Lower, Trim;
    if KnownDeps(Nodes(steps)) {
      forall i, k | 0 <= i < |steps| && 0 <= k < |steps[i].dependsOn| ensures Named(steps, steps[i].dependsOn[k], |steps|) {
        var node := Nodes(steps)[i];
        assert node in Nodes(steps) && node.deps[k] in node.deps;
        assert node.deps[k] in Keys(Nodes(steps));
        var j :| 0 <= j < |steps| && Keys(Nodes(steps))[j] == node.deps[k];
      }
    }
  }

  lemma OrderText(order: seq<Step>)
    requires Topological(Nodes(order))
    ensures WaitsAreBefore(order)
  {
    forall i, k | 0 <= i < |order| && 0 <= k < |order[i].dependsOn| ensures Named(order, order[i].dependsOn[k], i) {
      NodeText(order[i]);
      var node := Nodes(order)[i];
      assert node.deps[k] in node.deps;
      assert node.deps[k] in Keys(Nodes(order))[..i];
      var j :| 0 <= j < i && Keys(Nodes(order))[..i][j] == node.deps[k];
      NodeText(order[j]);
      hide NodeOf, Lower, Trim;
    }
  }

  lemma IndependentSnoc(nodes: seq<StepNode>)
    requires nodes != []
    ensures Independent(nodes) ==
            Independent(nodes[..|nodes| - 1]) + (if nodes[|nodes| - 1].deps == [] then [nodes[|nodes| - 1]] else [])
  {
  }

  lemma ItemsSnoc(front: seq<StepNode>, last: StepNode)
    ensures Items(front + [last]) == Items(front) + [last.item]
  {
  }

  lemma NodesSnoc(steps: seq<Step>)
    requires steps != []
    ensures Nodes(steps)[..|steps| - 1] == Nodes(steps[..|steps| - 1]) && Nodes(steps)[|steps| - 1] == NodeOf(steps[|steps| - 1])
  {
    hide NodeOf;
  }

  lemma {:induction false} IndependentText(steps: seq<Step>)
    ensures Items(Independent(Nodes(steps))) == WaitForNothing(steps)
  {
    hide NodeOf, Lower, Trim, Independent;
    if steps == [] {
      assert Nodes(steps) == [];
      NothingIndependent();
    } else {
      var front, last := steps[..|steps| - 1], steps[|steps| - 1];
      IndependentText(front);
      NodesSnoc(steps);
      IndependentSnoc(Nodes(steps));
      NodeText(last);
      SameItem(last);
      ItemsSnoc(Independent(Nodes(front)), NodeOf(last));
    }
  }

  lemma NothingIndependent()
    ensures var none: seq<StepNode> := []; Independent(none) == []
  {
  }

  lemma FirstText(steps: seq<Step>, order: seq<Step>)
    requires Independent(Nodes(steps)) <= Nodes(order)
    ensures WaitForNothing(steps) <= order
  {
    IndependentText(steps);
    hide NodeOf;
    var front := WaitForNothing(steps);
    forall i | 0 <= i < |front| ensures front[i] == order[i] {
      assert Independent(Nodes(steps))[i] == Nodes(order)[i];
      SameItem(order[i]);
    }
  }

  lemma Renamed(steps: seq<Step>, order: seq<StepNode>)
    requires forall n :: n in order ==> n in Nodes(steps)
    ensures Nodes(Items(order)) == order
    ensures multiset(order) == multiset(Nodes(steps)) ==> multiset(Items(order)) == multiset(steps)
  {
    hide NodeOf;
    forall n | n in Nodes(steps) ensures n == NodeOf(n.item) {
      var i :| 0 <= i < |steps| && Nodes(steps)[i] == n;
      SameItem(steps[i]);
    }
    if multiset(order) == multiset(Nodes(steps)) {
      assert Items(Nodes(steps)) == steps by {
        forall i | 0 <= i < |steps| ensures Nodes(steps)[i].item == steps[i] { SameItem(steps[i]); }
      }
      forall s ensures multiset(Items(order))[s] == multiset(steps)[s] {
        ItemCount(order, s);
        ItemCount(Nodes(steps), s);
      }
    }
  }
}
