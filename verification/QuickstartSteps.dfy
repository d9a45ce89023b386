/** Quickstart steps: their validation, their compilation into a linear workflow, and the order in
    which that workflow runs. */
module QuickstartSteps {
  import opened ExecutionOrder
  import opened Graph
  import opened Text
  import opened Values
  import opened Workflow
  import opened Wrappers

  datatype QuickStep = QuickStep(
    id: string, description: string, condition: string, uses: Object, with: Object, retry: Option<Retry>, timeoutSeconds: int)

  datatype SmokeTest = SmokeTest(description: string, uses: Object, with: Object, timeoutSeconds: int)

  const SMOKE_ID := "smoke-test"

  /** The JSON round trip into a step's use record: None when it does not decode. */
  type Decoder = Object -> Option<StepUse>

  // ---- Validation ---------------------------------------------------------------------

  predicate IdChar(c: char) {
    'a' <= c <= 'z' || '0' <= c <= '9' || c == '_' || c == '-'
  }

  /** ^[a-z][a-z0-9_-]*$ */
  predicate IsQuickstartId(s: string) {
    s != "" && 'a' <= s[0] <= 'z' && forall i :: 0 <= i < |s| ==> IdChar(s[i])
  }

  /** Ids start with a lower-case letter and go on with lower-case letters, digits, dashes and underscores. */
  lemma IdShape(s: string)
    ensures IsQuickstartId(s) <==>
            s != "" && 'a' <= s[0] <= 'z' && forall c :: c in s ==> 'a' <= c <= 'z' || '0' <= c <= '9' || c in {'_', '-'}
  {
    if IsQuickstartId(s) {
      forall c | c in s ensures 'a' <= c <= 'z' || '0' <= c <= '9' || c in {'_', '-'} {
        var i :| 0 <= i < |s| && s[i] == c;
        assert IdChar(s[i]);
      }
    }
    if s != "" && 'a' <= s[0] <= 'z' && forall c :: c in s ==> 'a' <= c <= 'z' || '0' <= c <= '9' || c in {'_', '-'} {
      forall i | 0 <= i < |s| ensures IdChar(s[i]) {
        assert s[i] in s;
      }
    }
  }

  ghost predicate StepsValid(steps: seq<QuickStep>) {
    && steps != []
    && (forall i :: 0 <= i < |steps| ==> IsQuickstartId(steps[i].id) && steps[i].uses != map[])
    && (forall i, j :: 0 <= i < j < |steps| ==> steps[i].id != steps[j].id)
  }

  /** validateSteps. */
  method ValidateSteps(steps: seq<QuickStep>) returns (ok: bool)
    ensures ok <==> StepsValid(steps)
  {
    if |steps| == 0 {
      return false;
    }
    var seen: set<string> := {};
    for i := 0 to |steps|
      invariant seen == set k | 0 <= k < i :: steps[k].id
      invariant forall k :: 0 <= k < i ==> IsQuickstartId(steps[k].id) && steps[k].uses != map[]
      invariant forall k, l :: 0 <= k < l < i ==> steps[k].id != steps[l].id
    {
      hide IsQuickstartId;
      if !IsQuickstartId(steps[i].id) || steps[i].id in seen || |steps[i].uses| == 0 {
        return false;
      }
      seen := seen + {steps[i].id};
    }
    return true;
  }

  lemma IdIsNormal(s: string)
    requires IsQuickstartId(s)
    ensures Normalize(s) == s
  {
    assert IdChar(s[|s| - 1]);
    assert Trimmed(s);
    hide Trim;
    forall i | 0 <= i < |s| ensures LowerChar(s[i]) == s[i] {
      assert IdChar(s[i]);
    }
  }

  // ---- Compilation --------------------------------------------------------------------

  /** decodeUses. */
  function DecodeUses(raw: Object, decode: Decoder): Option<StepUse> {
    if |raw| == 0 then None
    else match decode(raw)
      case Some(use) => if use.kind == "" then None else Some(use)
      case None => None
  }

  function After(prev: string): seq<string> {
    if prev == "" then [] else [prev]
  }

  /** What a quickstart step becomes behind the step `prev`. */
  function CompiledStep(q: QuickStep, use: StepUse, prev: string): Step {
    Step(q.id, q.description, q.condition, use, q.with, After(prev),
         if q.retry.Some? then q.retry.value else Retry(0, 0), q.timeoutSeconds)
  }

  function CompiledSmoke(t: SmokeTest, use: StepUse, prev: string): Step {
    Step(SMOKE_ID, t.description, "", use, t.with, After(prev), Retry(0, 0), t.timeoutSeconds)
  }

  function Previous(qs: seq<QuickStep>, i: nat): string
    requires i <= |qs|
  {
    if i == 0 then "" else qs[i - 1].id
  }

  predicate CompilesAt(qs: seq<QuickStep>, decode: Decoder, steps: seq<Step>, i: nat)
    requires i < |qs| && i < |steps|
  {
    var use := DecodeUses(qs[i].uses, decode);
    use.Some? && steps[i] == CompiledStep(qs[i], use.value, Previous(qs, i))
  }

  /** The compiled steps: the declared ones in order, each waiting for the one before, and the smoke
      test behind the last. */
  ghost predicate Compiles(qs: seq<QuickStep>, smoke: Option<SmokeTest>, decode: Decoder, steps: seq<Step>) {
    && |steps| == |qs| + (if smoke.Some? then 1 else 0)
    && (forall i :: 0 <= i < |qs| ==> CompilesAt(qs, decode, steps, i))
    && (smoke.Some? ==>
          var use := DecodeUses(smoke.value.uses, decode);
          use.Some? && steps[|qs|] == CompiledSmoke(smoke.value, use.value, Previous(qs, |qs|)))
  }

  /** compileSteps: an error exactly when some uses record does not decode. */
  method CompileSteps(qs: seq<QuickStep>, smoke: Option<SmokeTest>, decode: Decoder) returns (r: Option<seq<Step>>)
    ensures r.Some? ==> Compiles(qs, smoke, decode, r.value)
    ensures r.None? <==> (exists i :: 0 <= i < |qs| && DecodeUses(qs[i].uses, decode).None?) ||
                         (smoke.Some? && DecodeUses(smoke.value.uses, decode).None?)
  {
    hide DecodeUses, CompiledStep, CompiledSmoke;
    var steps := [];
    var prev := "";
    for i := 0 to |qs|
      invariant |steps| == i && prev == Previous(qs, i)
      invariant forall k :: 0 <= k < i ==> CompilesAt(qs, decode, steps, k)
    {
      var use := DecodeUses(qs[i].uses, decode);
      if use.None? {
        return None;
      }
      ghost var before := steps;
      steps := steps + [CompiledStep(qs[i], use.value, prev)];
      forall k | 0 <= k < i ensures CompilesAt(qs, decode, steps, k) {
        assert CompilesAt(qs, decode, before, k);
      }
      prev := qs[i].id;
    }
    ghost var declared := steps;
    if smoke.Some? {
      var use := DecodeUses(smoke.value.uses, decode);
      if use.None? {
        return None;
      }
      steps := steps + [CompiledSmoke(smoke.value, use.value, prev)];
    }
    forall k | 0 <= k < |qs| ensures CompilesAt(qs, decode, steps, k) && DecodeUses(qs[k].uses, decode).Some? {
      assert CompilesAt(qs, decode, declared, k);
    }
    return Some(steps);
  }

  // ---- The order in which the compiled workflow runs ----------------------------------

  /** Each node waits for its predecessor and nothing else. */
  /** A compiled step, field by field. */
  lemma CompiledText(qs: seq<QuickStep>, smoke: Option<SmokeTest>, decode: Decoder, steps: seq<Step>, i: nat)
    requires Compiles(qs, smoke, decode, steps) && i < |qs|
    ensures var q, step := qs[i], steps[i];
            && step.id == q.id && step.description == q.description && step.condition == q.condition && step.with == q.with
            && decode(q.uses) == Some(step.use) && step.use.kind != "" && |q.uses| > 0
            && step.timeoutSeconds == q.timeoutSeconds
            && (q.retry.Some? ==> step.retry == q.retry.value) && (q.retry.None? ==> step.retry == Retry(0, 0))
            && (i == 0 ==> step.dependsOn == []) && (i > 0 && qs[i - 1].id != "" ==> step.dependsOn == [qs[i - 1].id])
  {
    assert CompilesAt(qs, decode, steps, i);
  }

  /** The compiled smoke test, field by field. */
  lemma SmokeText(qs: seq<QuickStep>, smoke: SmokeTest, decode: Decoder, steps: seq<Step>)
    requires Compiles(qs, Some(smoke), decode, steps)
    ensures var step := steps[|qs|];
            && |steps| == |qs| + 1
            && step.id == "smoke-test" && step.description == smoke.description && step.condition == "" && step.with == smoke.with
            && decode(smoke.uses) == Some(step.use) && step.use.kind != "" && |smoke.uses| > 0
            && step.timeoutSeconds == smoke.timeoutSeconds && step.retry == Retry(0, 0)
            && (qs != [] && qs[|qs| - 1].id != "" ==> step.dependsOn == [qs[|qs| - 1].id])
  {
    hide CompilesAt;
  }

  ghost predicate Chain<K(!new), T(!new)>(nodes: seq<Node<K, T>>) {
    forall i :: 0 <= i < |nodes| ==> nodes[i].deps == Front(nodes, i)
  }

  ghost function Front<K(!new), T(!new)>(nodes: seq<Node<K, T>>, i: nat): seq<K>
    requires i <= |nodes|
  {
    if i == 0 then [] else [nodes[i - 1].key]
  }

  lemma ChainIsTopological<K(!new), T(!new)>(nodes: seq<Node<K, T>>)
    requires Chain(nodes)
    ensures Topological(nodes)
  {
    forall k, d | 0 <= k < |nodes| && d in nodes[k].deps ensures d in Keys(nodes)[..k] {
      assert Keys(nodes)[..k][k - 1] == d;
    }
  }

  ghost predicate SameUpTo<T(!new)>(a: seq<T>, b: seq<T>, k: nat) {
    k <= |a| && k <= |b| && forall i :: 0 <= i < k ==> a[i] == b[i]
  }

  /** The only dependency-safe order of a chain is the chain. */
  lemma {:induction false} ChainHasOneOrder<K(!new), T(!new)>(nodes: seq<Node<K, T>>, order: seq<Node<K, T>>, k: nat)
    requires Chain(nodes) && UniqueKeys(nodes) && UniqueKeys(order) && Topological(order)
    requires |order| == |nodes| && (forall n :: n in order ==> n in nodes) && k <= |nodes|
    ensures SameUpTo(order, nodes, k)
  {
    hide Chain, Topological;
    if k > 0 {
      var j := k - 1;
      ChainHasOneOrder(nodes, order, j);
      assert order[j] in nodes;
      var m :| 0 <= m < |nodes| && nodes[m] == order[j];
      NotAfter(nodes, order, j, m);
    }
  }

  lemma NotAfter<K(!new), T(!new)>(nodes: seq<Node<K, T>>, order: seq<Node<K, T>>, j: nat, m: nat)
    requires Chain(nodes) && UniqueKeys(nodes) && Topological(order) && SameUpTo(order, nodes, j)
    requires j < |order| && m < |nodes| && nodes[m] == order[j]
    ensures m <= j
  {
    if m > 0 {
      var d := nodes[m - 1].key;
      assert nodes[m].deps == Front(nodes, m) == [d] && d in order[j].deps;
      assert d in Keys(order)[..j];
      var i :| 0 <= i < j && Keys(order)[i] == d;
      assert order[i] == nodes[i];
      assert i == m - 1;
    }
  }

  // ---- Compiled workflows -------------------------------------------------------------

  /** No declared step takes the name the smoke test will get. */
  ghost predicate SmokeNameFree(qs: seq<QuickStep>, smoke: Option<SmokeTest>) {
    smoke.Some? ==> forall i :: 0 <= i < |qs| ==> qs[i].id != SMOKE_ID
  }

  /** The name the i-th compiled step goes by. */
  function NameAt(qs: seq<QuickStep>, i: nat): string {
    if i < |qs| then qs[i].id else SMOKE_ID
  }

  ghost predicate ShapedAt(qs: seq<QuickStep>, node: StepNode, i: nat)
    requires i <= |qs|
  {
    node.key == NameAt(qs, i) && node.deps == After(Previous(qs, i))
  }

  /** The compiled steps as the sort sees them. */
  ghost predicate Shaped(qs: seq<QuickStep>, smoke: Option<SmokeTest>, nodes: seq<StepNode>) {
    && |nodes| == |qs| + (if smoke.Some? then 1 else 0)
    && forall i :: 0 <= i < |nodes| ==> ShapedAt(qs, nodes[i], i)
  }

  lemma CompiledShape(qs: seq<QuickStep>, smoke: Option<SmokeTest>, decode: Decoder, steps: seq<Step>)
    requires StepsValid(qs) && Compiles(qs, smoke, decode, steps)
    ensures Shaped(qs, smoke, Nodes(steps))
  {
    assert |steps| == |qs| + (if smoke.Some? then 1 else 0);
    hide NodeOf, Compiles, StepsValid;
    forall i | 0 <= i < |steps| ensures ShapedAt(qs, Nodes(steps)[i], i) {
      NodeOfCompiled(qs, smoke, decode, steps, i);
    }
  }

  lemma ShapeIsChain(qs: seq<QuickStep>, smoke: Option<SmokeTest>, nodes: seq<StepNode>)
    requires StepsValid(qs) && Shaped(qs, smoke, nodes)
    ensures Chain(nodes) && (smoke.Some? ==> nodes[|qs|].deps != [])
  {
    forall i | 0 <= i < |nodes| ensures nodes[i].deps == Front(nodes, i) {
      assert ShapedAt(qs, nodes[i], i);
      if i > 0 {
        assert ShapedAt(qs, nodes[i - 1], i - 1) && IsQuickstartId(qs[i - 1].id);
      }
    }
    if smoke.Some? {
      assert ShapedAt(qs, nodes[|qs|], |qs|) && IsQuickstartId(qs[|qs| - 1].id);
    }
  }

  lemma ShapeUnique(qs: seq<QuickStep>, smoke: Option<SmokeTest>, nodes: seq<StepNode>)
    requires StepsValid(qs) && Shaped(qs, smoke, nodes)
    ensures UniqueKeys(nodes) <==> SmokeNameFree(qs, smoke)
    ensures !SmokeNameFree(qs, smoke) ==> exists i :: 0 <= i < |qs| && nodes[i].key == nodes[|qs|].key
  {
    hide IsQuickstartId;
    forall i | 0 <= i < |nodes| ensures nodes[i].key == NameAt(qs, i) {
      assert ShapedAt(qs, nodes[i], i);
    }
    hide ShapedAt;
    if !SmokeNameFree(qs, smoke) {
      var i :| 0 <= i < |qs| && qs[i].id == SMOKE_ID;
      assert nodes[i].key == nodes[|qs|].key;
    }
  }

  lemma NodeOfCompiled(qs: seq<QuickStep>, smoke: Option<SmokeTest>, decode: Decoder, steps: seq<Step>, i: nat)
    requires StepsValid(qs) && Compiles(qs, smoke, decode, steps) && i < |steps|
    ensures NodeOf(steps[i]).key == if i < |qs| then qs[i].id else SMOKE_ID
    ensures NodeOf(steps[i]).deps == After(Previous(qs, i))
  {
    hide Normalize, DecodeUses;
    if i < |qs| {
      assert CompilesAt(qs, decode, steps, i);
      IdIsNormal(qs[i].id);
    } else {
      IdIsNormal(SMOKE_ID);
    }
    if i > 0 {
      IdIsNormal(qs[i - 1].id);
    }
    assert steps[i].dependsOn == After(Previous(qs, i));
  }

  /** Sorting the compiled steps of a validated provider gives them back in the declared order, the
      smoke test last - exactly when the smoke test's name is not taken.  When it is taken, the sort
      reports a dependency cycle. */
  lemma CompiledOrder(qs: seq<QuickStep>, smoke: Option<SmokeTest>, decode: Decoder, steps: seq<Step>, order: Result<seq<Step>, Error>)
    requires StepsValid(qs) && Compiles(qs, smoke, decode, steps)
    requires order.Ok? ==> forall i, j :: 0 <= i < j && LastOfItsKey(Nodes(steps), j) && Nodes(steps)[i].key == Nodes(steps)[j].key
                             ==> Nodes(steps)[j].deps == []
    requires UniqueKeys(Nodes(steps)) ==> (order.Ok? <==> KnownDeps(Nodes(steps)) && Acyclic(Nodes(steps)))
    requires UniqueKeys(Nodes(steps)) && order.Ok? ==> multiset(order.value) == multiset(steps) && Topological(Nodes(order.value))
    ensures SmokeNameFree(qs, smoke) ==> order == Ok(steps)
    ensures !SmokeNameFree(qs, smoke) ==> order == Err(DependencyCycle)
  {
    hide *;
    CompiledShape(qs, smoke, decode, steps);
    ShapeIsChain(qs, smoke, Nodes(steps));
    ShapeUnique(qs, smoke, Nodes(steps));
    if SmokeNameFree(qs, smoke) {
      ChainIsTopological(Nodes(steps));
      TopologicalIsAcyclic(Nodes(steps));
      OneOrder(steps, order.value);
    } else {
      NameTaken(qs, smoke, Nodes(steps));
      var i :| 0 <= i < |qs| && Nodes(steps)[i].key == Nodes(steps)[|qs|].key;
      assert order.Err?;
      assert order.error.DependencyCycle?;
    }
  }

  lemma NameTaken(qs: seq<QuickStep>, smoke: Option<SmokeTest>, nodes: seq<StepNode>)
    requires Shaped(qs, smoke, nodes) && !SmokeNameFree(qs, smoke)
    ensures |nodes| == |qs| + 1 && smoke.Some? && LastOfItsKey(nodes, |qs|)
  {
  }

  lemma OneOrder(steps: seq<Step>, order: seq<Step>)
    requires Chain(Nodes(steps)) && UniqueKeys(Nodes(steps)) && multiset(order) == multiset(steps) && Topological(Nodes(order))
    ensures order == steps
  {
    hide *;
    assert |multiset(order)| == |multiset(steps)|;
    UniqueAfterPermutation(steps, order);
    ChainHasOneOrder(Nodes(steps), Nodes(order), |steps|);
    SameNodesSameSteps(steps, order);
  }

  lemma SameNodesSameSteps(steps: seq<Step>, order: seq<Step>)
    requires |order| == |steps| && SameUpTo(Nodes(order), Nodes(steps), |steps|)
    ensures order == steps
  {
    hide NodeOf;
    forall i | 0 <= i < |steps| ensures order[i] == steps[i] {
      assert Nodes(order)[i] == Nodes(steps)[i];
      SameItem(order[i]);
      SameItem(steps[i]);
    }
  }

  /** A permutation of steps with distinct names has distinct names and the same nodes. */
  lemma UniqueAfterPermutation(steps: seq<Step>, order: seq<Step>)
    requires UniqueKeys(Nodes(steps)) && multiset(order) == multiset(steps)
    ensures UniqueKeys(Nodes(order)) && forall n :: n in Nodes(order) ==> n in Nodes(steps)
  {
    hide NodeOf;
    SameMembers(steps, order);
    forall n | n in Nodes(order) ensures n in Nodes(steps) {
      var i :| 0 <= i < |order| && Nodes(order)[i] == n;
      assert order[i] in steps;
      var j :| 0 <= j < |steps| && steps[j] == order[i];
      assert Nodes(steps)[j] == n;
    }
    forall i, j | 0 <= i < j < |order| ensures Nodes(order)[i].key != Nodes(order)[j].key {
      DistinctKeys(steps, order, i, j);
    }
  }

  lemma DistinctKeys(steps: seq<Step>, order: seq<Step>, i: nat, j: nat)
    requires UniqueKeys(Nodes(steps)) && multiset(order) == multiset(steps) && i < j < |order|
    ensures NodeOf(order[i]).key != NodeOf(order[j]).key
  {
    hide NodeOf;
    SameMembers(steps, order);
    assert order[i] in steps && order[j] in steps;
    var k :| 0 <= k < |steps| && steps[k] == order[i];
    var l :| 0 <= l < |steps| && steps[l] == order[j];
    assert Nodes(steps)[k] == NodeOf(order[i]) && Nodes(steps)[l] == NodeOf(order[j]);
    if k == l {
      Twice(order, i, j);
      StepOnce(steps, k);
    }
  }

  lemma Twice(order: seq<Step>, i: nat, j: nat)
    requires i < j < |order| && order[i] == order[j]
    ensures multiset(order)[order[i]] >= 2
  {
    assert order == order[..j] + [order[j]] + order[j + 1..];
    assert order[..j][i] == order[i];
    assert order[i] in multiset(order[..j]);
  }

  lemma StepOnce(steps: seq<Step>, k: nat)
    requires UniqueKeys(Nodes(steps)) && k < |steps|
    ensures multiset(steps)[steps[k]] == 1
  {
    hide NodeOf;
    forall n | n in Nodes(steps) ensures n == NodeOf(n.item) {
      var i :| 0 <= i < |steps| && Nodes(steps)[i] == n;
      SameItem(steps[i]);
    }
    ItemCount(Nodes(steps), steps[k]);
    assert Items(Nodes(steps)) == steps by {
      forall i | 0 <= i < |steps| ensures Nodes(steps)[i].item == steps[i] { SameItem(steps[i]); }
    }
    Once(Nodes(steps), NodeOf(steps[k]));
    assert Nodes(steps)[k] == NodeOf(steps[k]);
  }
}
