/** Materializing a product: integration-backed components become inline bundles of generated objects. */
module Materialize {
  import opened Product
  import opened Text
  import opened Values
  import opened Wrappers

  datatype Reference = Reference(id: string, kind: string, namespace: string, name: string, version: int)

  datatype GenerateInput = GenerateInput(product: Reference, category: string, class_: string, component: Component)

  /** One entry of the audit trace. */
  datatype Trace = Trace(
    name: string, sourceKind: string, resolvedSourceKind: string, operation: string, capability: string, input: Object,
    integrationType: Option<Reference>, integrationInstance: Option<Reference>, metadata: Object)

  datatype GenerateOutput = GenerateOutput(objects: seq<Object>, trace: Trace)

  /** The generator's answer to its n-th call of a run; None is an error. */
  type Generator = (nat, GenerateInput) -> Option<GenerateOutput>

  // ---- Specification ------------------------------------------------------------------

  predicate Backed(c: Component) {
    Normalize(c.source.kind) == "integration"
  }

  /** How many generator calls the components take. */
  function Calls(cs: seq<Component>): nat {
    if cs == [] then 0 else Calls(cs[..|cs| - 1]) + (if Backed(cs[|cs| - 1]) then 1 else 0)
  }

  /** The answer for component i. */
  function AnswerAt(product: Reference, spec: Spec, gen: Generator, i: nat): Option<GenerateOutput>
    requires i < |spec.components|
  {
    gen(Calls(spec.components[..i]), GenerateInput(product, spec.category, spec.class_, spec.components[i]))
  }

  function InlineSource(objects: seq<Object>): Source {
    Source("inline", None, "", "", map[], "", "", "", objects)
  }

  function Rewritten(c: Component, answer: Option<GenerateOutput>): Component {
    if Backed(c) && answer.Some? then c.(source := InlineSource(answer.value.objects)) else c
  }

  /** The product with every backed component rewritten. */
  function Materialized(product: Reference, spec: Spec, gen: Generator): Spec {
    spec.(components := seq(|spec.components|,
      i requires 0 <= i < |spec.components| => Rewritten(spec.components[i], AnswerAt(product, spec, gen, i))))
  }

  /** The generator delivers something for every backed component. */
  ghost predicate Delivers(product: Reference, spec: Spec, gen: Generator) {
    forall i :: 0 <= i < |spec.components| && Backed(spec.components[i]) ==> DeliversAt(product, spec, gen, i)
  }

  ghost predicate DeliversAt(product: Reference, spec: Spec, gen: Generator, i: nat)
    requires i < |spec.components|
  {
    AnswerAt(product, spec, gen, i).Some? && AnswerAt(product, spec, gen, i).value.objects != []
  }

  /** What it delivers are objects with an apiVersion and a kind. */
  ghost predicate DeliversValid(product: Reference, spec: Spec, gen: Generator) {
    forall i :: 0 <= i < |spec.components| && Backed(spec.components[i]) ==> DeliversValidAt(product, spec, gen, i)
  }

  ghost predicate DeliversValidAt(product: Reference, spec: Spec, gen: Generator, i: nat)
    requires i < |spec.components|
  {
    AnswerAt(product, spec, gen, i).Some? && ObjectsValid(AnswerAt(product, spec, gen, i).value.objects)
  }

  /** The trace entry of a component: the generator's, under the component's name, with blanks filled. */
  function TraceOf(c: Component, t: Trace): Trace {
    Trace(c.name,
          if Blank(t.sourceKind) then "integration" else t.sourceKind,
          if Blank(t.resolvedSourceKind) then "inline" else t.resolvedSourceKind,
          if Blank(t.operation) then Operation(c.source) else t.operation,
          if Blank(t.capability) then Capability(c.source) else t.capability,
          if t.input == map[] then c.source.input else t.input,
          t.integrationType, t.integrationInstance, t.metadata)
  }

  /** The traces of the first n components. */
  function Traces(product: Reference, spec: Spec, gen: Generator, n: nat): seq<Trace>
    requires n <= |spec.components|
  {
    if n == 0 then []
    else
      var c, answer := spec.components[n - 1], AnswerAt(product, spec, gen, n - 1);
      Traces(product, spec, gen, n - 1) + (if Backed(c) && answer.Some? then [TraceOf(c, answer.value.trace)] else [])
  }

  // ---- Materialization ----------------------------------------------------------------

  /** The loop over the components: None at the first component the generator leaves without objects. */
  method RewriteComponents(product: Reference, spec: Spec, gen: Generator)
    returns (r: Option<(seq<Component>, seq<Trace>)>, calls: nat)
    ensures r.Some? <==> Delivers(product, spec, gen)
    ensures r.Some? ==> r.value.0 == Materialized(product, spec, gen).components
    ensures r.Some? ==> r.value.1 == Traces(product, spec, gen, |spec.components|) && calls == Calls(spec.components)
    ensures calls <= Calls(spec.components)
  {
    hide Backed, TraceOf, InlineSource, AnswerAt, Rewritten, DeliversAt, Calls, Traces, Materialized;
    Begin(product, spec, gen);
    var cs, components, traces := spec.components, [], [];
    calls := 0;
    for i := 0 to |cs|
      invariant |components| == i && calls == Calls(cs[..i])
      invariant traces == Traces(product, spec, gen, i)
      invariant forall k :: 0 <= k < i && Backed(cs[k]) ==> DeliversAt(product, spec, gen, k)
      invariant forall k :: 0 <= k < i ==> components[k] == Rewritten(cs[k], AnswerAt(product, spec, gen, k))
    {
      CallsSnoc(cs, i);
      StepAt(product, spec, gen, i);
      var c := cs[i];
      if !Backed(c) {
        components := components + [c];
        continue;
      }
      var output := gen(calls, GenerateInput(product, spec.category, spec.class_, c));
      calls := calls + 1;
      if output.None? || |output.value.objects| == 0 {
        CallsMonotone(cs, i + 1);
        assert !DeliversAt(product, spec, gen, i);
        return None, calls;
      }
      components := components + [c.(source := InlineSource(output.value.objects))];
      traces := traces + [TraceOf(c, output.value.trace)];
    }
    assert cs[..|cs|] == cs;
    ComponentsAre(product, spec, gen, components);
    return Some((components, traces)), calls;
  }

  lemma Begin(product: Reference, spec: Spec, gen: Generator)
    ensures Calls(spec.components[..0]) == 0 && Traces(product, spec, gen, 0) == []
  {
  }

  lemma StepAt(product: Reference, spec: Spec, gen: Generator, i: nat)
    requires i < |spec.components|
    ensures var c, answer := spec.components[i], AnswerAt(product, spec, gen, i);
            && answer == gen(Calls(spec.components[..i]), GenerateInput(product, spec.category, spec.class_, c))
            && (DeliversAt(product, spec, gen, i) <==> answer.Some? && answer.value.objects != [])
            && Rewritten(c, answer) == (if Backed(c) && answer.Some? then c.(source := InlineSource(answer.value.objects)) else c)
            && Traces(product, spec, gen, i + 1)
            == Traces(product, spec, gen, i) + (if Backed(c) && answer.Some? then [TraceOf(c, answer.value.trace)] else [])
  {
    hide Backed, InlineSource, TraceOf, Calls;
  }

  lemma ComponentsAre(product: Reference, spec: Spec, gen: Generator, cs: seq<Component>)
    requires |cs| == |spec.components|
    requires forall k :: 0 <= k < |cs| ==> cs[k] == Rewritten(spec.components[k], AnswerAt(product, spec, gen, k))
    ensures cs == Materialized(product, spec, gen).components
  {
    hide Rewritten, AnswerAt;
  }

  lemma CallsSnoc(cs: seq<Component>, i: nat)
    requires i < |cs|
    ensures Calls(cs[..i + 1]) == Calls(cs[..i]) + (if Backed(cs[i]) then 1 else 0)
  {
    hide Backed;
    assert cs[..i + 1][..i] == cs[..i];
  }

  lemma {:induction false} CallsMonotone(cs: seq<Component>, i: nat)
    requires i <= |cs|
    ensures Calls(cs[..i]) <= Calls(cs)
    decreases |cs| - i
  {
    if i == |cs| {
      assert cs[..i] == cs;
    } else {
      CallsSnoc(cs, i);
      CallsMonotone(cs, i + 1);
    }
  }

  /** MaterializeProductSpec; no generator is an error.  A valid product is materialized exactly when the
      generator delivers objects with an apiVersion and a kind for every backed component. */
  method MaterializeProductSpec(product: Reference, spec: Spec, generator: Option<Generator>)
    returns (r: Option<(Spec, seq<Trace>)>, calls: nat)
    ensures generator.None? ==> r.None? && calls == 0
    ensures generator.Some? ==>
              var gen := generator.value;
              && (r.Some? <==> Delivers(product, spec, gen) && ProductValid(Materialized(product, spec, gen)))
              && (ProductValid(spec) ==> (r.Some? <==> DeliversValid(product, spec, gen)))
              && (r.Some? ==> && r.value == (Materialized(product, spec, gen), Traces(product, spec, gen, |spec.components|))
                              && calls == Calls(spec.components))
    ensures r.Some? ==> ProductValid(r.value.0) && SourcesOnly(spec, r.value.0) && NoneBacked(r.value.0.components)
  {
    hide Delivers, DeliversValid, ProductValid, Traces, Calls, SourcesOnly, NoneBacked;
    if generator.None? {
      return None, 0;
    }
    var gen := generator.value;
    if ProductValid(spec) {
      ValidStays(product, spec, gen);
    }
    var rewritten, n := RewriteComponents(product, spec, gen);
    if rewritten.None? {
      return None, n;
    }
    var result := spec.(components := rewritten.value.0);
    assert result == Materialized(product, spec, gen);
    NothingBackedLeft(product, spec, gen);
    MaterializedSources(product, spec, gen);
    hide Materialized;
    var valid := ValidateProductSpec(result);
    if !valid {
      return None, n;
    }
    return Some((result, rewritten.value.1)), n;
  }

  // ---- Why validation passes ----------------------------------------------------------

  lemma InlineIsNormal()
    ensures Normalize("inline") == "inline"
  {
    assert Trimmed("inline");
    hide Trim;
    assert Trim("inline") == "inline";
    assert forall i :: 0 <= i < |"inline"| ==> LowerChar("inline"[i]) == "inline"[i];
  }

  /** Generated objects make a valid inline source exactly when each has an apiVersion and a kind. */
  lemma InlineSourceValid(objects: seq<Object>)
    ensures Normalize(InlineSource(objects).kind) == "inline"
    ensures SourceValid(InlineSource(objects)) <==> ObjectsValid(objects)
  {
    InlineIsNormal();
    hide Normalize, ObjectsValid;
  }

  /** An integration source only admits the renderer an inline source admits. */
  lemma RewrittenValid(c: Component, answer: Option<GenerateOutput>)
    requires ComponentValid(c) && Backed(c) && answer.Some?
    ensures ComponentValid(Rewritten(c, answer)) <==> ObjectsValid(answer.value.objects)
  {
    InlineSourceValid(answer.value.objects);
    hide Normalize, SourceValid, FrameValid, ObjectsValid, InlineSource;
  }

  lemma SameDependencies(product: Reference, spec: Spec, gen: Generator)
    ensures ComponentNames(Materialized(product, spec, gen).components) == ComponentNames(spec.components)
    ensures HeaderValid(Materialized(product, spec, gen)) <==> HeaderValid(spec)
    ensures DependenciesKnown(Materialized(product, spec, gen).components) <==> DependenciesKnown(spec.components)
  {
    hide HeaderValid, Dependent, Backed, AnswerAt, Normalize, InlineSource;
    var old_, new_ := spec.components, Materialized(product, spec, gen).components;
    assert forall i :: 0 <= i < |old_| ==> new_[i].name == old_[i].name && new_[i].dependsOn == old_[i].dependsOn;
    hide Materialized;
    assert ComponentNames(new_) == ComponentNames(old_);
    HeaderSame(product, spec, gen);
  }

  lemma HeaderSame(product: Reference, spec: Spec, gen: Generator)
    ensures HeaderValid(Materialized(product, spec, gen)) <==> HeaderValid(spec)
  {
  }

  /** A valid product stays valid exactly when what the generator delivers is valid. */
  lemma ValidStays(product: Reference, spec: Spec, gen: Generator)
    requires ProductValid(spec)
    ensures Delivers(product, spec, gen) && ProductValid(Materialized(product, spec, gen)) <==> DeliversValid(product, spec, gen)
  {
    var out := Materialized(product, spec, gen);
    SameDependencies(product, spec, gen);
    hide HeaderValid, DependenciesKnown, ComponentNames, DistinctNames, AnswerAt;
    forall i | 0 <= i < |spec.components| && Backed(spec.components[i])
      ensures DeliversAt(product, spec, gen, i) && ComponentValid(out.components[i]) <==> DeliversValidAt(product, spec, gen, i)
    {
      hide ComponentValid, Backed, Rewritten;
      if AnswerAt(product, spec, gen, i).Some? {
        RewrittenValid(spec.components[i], AnswerAt(product, spec, gen, i));
      }
    }
    forall i | 0 <= i < |spec.components| && !Backed(spec.components[i]) ensures ComponentValid(out.components[i]) {
      hide ComponentValid, Backed;
    }
    hide ComponentValid, Backed, DeliversAt, DeliversValidAt, Materialized;
  }

  // ---- What materialization preserves -------------------------------------------------

  /** Order, names, renderers, targets, requirements and dependencies stay; only backed sources change. */
  lemma OnlySourcesChange(product: Reference, spec: Spec, gen: Generator, i: nat)
    requires i < |spec.components|
    ensures |Materialized(product, spec, gen).components| == |spec.components|
    ensures var c := Materialized(product, spec, gen).components[i];
            && c.(source := spec.components[i].source) == spec.components[i]
            && (!Backed(spec.components[i]) ==> c == spec.components[i])
            && (Backed(spec.components[i]) && AnswerAt(product, spec, gen, i).Some? ==>
                  c.source == InlineSource(AnswerAt(product, spec, gen, i).value.objects))
  {
    hide Backed, AnswerAt, InlineSource;
  }

  /** The products differ in the sources of backed components only. */
  ghost predicate SourcesOnly(spec: Spec, out: Spec) {
    && out.(components := spec.components) == spec && |out.components| == |spec.components|
    && forall i :: 0 <= i < |spec.components| ==> SourceOnly(spec.components[i], out.components[i])
  }

  ghost predicate SourceOnly(c: Component, out: Component) {
    out.(source := c.source) == c && (!Backed(c) ==> out == c)
  }

  lemma MaterializedSources(product: Reference, spec: Spec, gen: Generator)
    ensures SourcesOnly(spec, Materialized(product, spec, gen))
  {
    forall i | 0 <= i < |spec.components| ensures SourceOnly(spec.components[i], Materialized(product, spec, gen).components[i]) {
      OnlySourcesChange(product, spec, gen, i);
      hide Backed, AnswerAt, Rewritten;
    }
  }

  /** What becomes of an integration component: the generator is asked about it under the product's category
      and class, and it carries what was generated and nothing else of its old source. */
  lemma RewrittenText(product: Reference, spec: Spec, gen: Generator, i: nat)
    requires i < |spec.components| && Lower(Trim(spec.components[i].source.kind)) == "integration"
    requires Delivers(product, spec, gen)
    ensures exists input: GenerateInput ::
              && input.product == product && input.category == spec.category && input.class_ == spec.class_
              && input.component == spec.components[i]
              && var answer := gen(Calls(spec.components[..i]), input);
                 var source := Materialized(product, spec, gen).components[i].source;
                 && answer.Some? && source.objects == answer.value.objects
                 && source.kind == "inline" && source.instanceRef == None && source.operation == "" && source.capability == ""
                 && source.input == map[] && source.locator == "" && source.revision == "" && source.version == ""
  {
    assert Backed(spec.components[i]);
    assert DeliversAt(product, spec, gen, i);
    OnlySourcesChange(product, spec, gen, i);
    hide Backed, Calls, Delivers, Materialized;
    var input := GenerateInput(product, spec.category, spec.class_, spec.components[i]);
    assert AnswerAt(product, spec, gen, i) == gen(Calls(spec.components[..i]), input);
  }

  /** A trace carries the component's name, and takes from the component only what the generator left blank. */
  lemma TraceText(c: Component, t: Trace)
    requires Lower(Trim(c.source.kind)) == "integration"
    ensures var out := TraceOf(c, t);
            && out.name == c.name
            && (Trim(t.sourceKind) != "" ==> out.sourceKind == t.sourceKind) && (Trim(t.sourceKind) == "" ==> out.sourceKind == "integration")
            && (Trim(t.resolvedSourceKind) != "" ==> out.resolvedSourceKind == t.resolvedSourceKind)
            && (Trim(t.resolvedSourceKind) == "" ==> out.resolvedSourceKind == "inline")
            && var operation := if Trim(c.source.operation) == "" then "generate_installation" else Lower(Trim(c.source.operation));
            && (Trim(t.operation) != "" ==> out.operation == t.operation) && (Trim(t.operation) == "" ==> out.operation == operation)
            && (Trim(t.capability) != "" ==> out.capability == t.capability)
            && (Trim(t.capability) == "" ==>
                  out.capability == if Trim(c.source.capability) == "" then operation else Lower(Trim(c.source.capability)))
            && (|t.input| > 0 ==> out.input == t.input) && (|t.input| == 0 ==> out.input == c.source.input)
            && out.integrationType == t.integrationType && out.integrationInstance == t.integrationInstance && out.metadata == t.metadata
  {
    LowerBlank(c.source.operation);
    LowerBlank(c.source.capability);
    hide Trim, Lower;
  }

  ghost predicate NoneBacked(cs: seq<Component>) {
    forall i :: 0 <= i < |cs| ==> !Backed(cs[i])
  }

  lemma InlineNotBacked(c: Component, objects: seq<Object>)
    ensures !Backed(c.(source := InlineSource(objects)))
  {
    InlineSourceValid(objects);
    hide Normalize, InlineSource;
    assert "inline"[2] != "integration"[2];
  }

  /** No integration source is left. */
  lemma NothingBackedLeft(product: Reference, spec: Spec, gen: Generator)
    requires Delivers(product, spec, gen)
    ensures NoneBacked(Materialized(product, spec, gen).components)
  {
    var out := Materialized(product, spec, gen).components;
    forall i | 0 <= i < |out| ensures !Backed(out[i]) {
      OnlySourcesChange(product, spec, gen, i);
      if Backed(spec.components[i]) {
        assert DeliversAt(product, spec, gen, i);
        InlineNotBacked(spec.components[i], AnswerAt(product, spec, gen, i).value.objects);
      }
      hide Backed, AnswerAt;
    }
  }

  lemma {:induction false} NoCalls(cs: seq<Component>)
    requires NoneBacked(cs)
    ensures Calls(cs) == 0
  {
    hide Backed;
    if cs != [] {
      NoCalls(cs[..|cs| - 1]);
    }
  }

  lemma {:induction false} NoTraces(product: Reference, spec: Spec, gen: Generator, n: nat)
    requires NoneBacked(spec.components) && n <= |spec.components|
    ensures Traces(product, spec, gen, n) == []
  {
    hide Backed, AnswerAt, TraceOf;
    if n > 0 {
      NoTraces(product, spec, gen, n - 1);
    }
  }

  /** Materializing again, with any generator, calls nothing and changes nothing. */
  lemma SecondTimeNothing(product: Reference, spec: Spec, gen: Generator, product': Reference, gen': Generator)
    requires Delivers(product, spec, gen)
    ensures var out := Materialized(product, spec, gen);
            && Calls(out.components) == 0
            && Delivers(product', out, gen')
            && Materialized(product', out, gen') == out
            && Traces(product', out, gen', |out.components|) == []
  {
    hide *;
    var out := Materialized(product, spec, gen);
    NothingBackedLeft(product, spec, gen);
    NoCalls(out.components);
    NoTraces(product', out, gen', |out.components|);
    NothingToDo(product', out, gen');
  }

  lemma NothingToDo(product: Reference, spec: Spec, gen: Generator)
    requires NoneBacked(spec.components)
    ensures Delivers(product, spec, gen) && Materialized(product, spec, gen) == spec
  {
    hide Backed, AnswerAt, DeliversAt;
    assert Materialized(product, spec, gen).components == spec.components;
  }

  lemma TracesSnoc(product: Reference, spec: Spec, gen: Generator, i: nat)
    requires Delivers(product, spec, gen) && i < |spec.components|
    ensures var before, after := Traces(product, spec, gen, i), Traces(product, spec, gen, i + 1);
            if Backed(spec.components[i]) then
              |after| == |before| + 1 && after[..|before|] == before && after[|before|].name == spec.components[i].name
            else after == before
  {
    StepAt(product, spec, gen, i);
    assert Backed(spec.components[i]) ==> DeliversAt(product, spec, gen, i);
    hide Backed, AnswerAt, Traces, DeliversAt, Rewritten, Delivers, InlineSource;
  }

  lemma {:induction false} TracesCount(product: Reference, spec: Spec, gen: Generator, n: nat)
    requires Delivers(product, spec, gen) && n <= |spec.components|
    ensures |Traces(product, spec, gen, n)| == Calls(spec.components[..n])
  {
    hide *;
    if n == 0 {
      Begin(product, spec, gen);
    } else {
      TracesCount(product, spec, gen, n - 1);
      CallsSnoc(spec.components, n - 1);
      TracesSnoc(product, spec, gen, n - 1);
    }
  }

  /** One trace per generator call, under the names of the backed components in order. */
  lemma {:induction false} TraceAt(product: Reference, spec: Spec, gen: Generator, n: nat, i: nat)
    requires Delivers(product, spec, gen) && i < n <= |spec.components| && Backed(spec.components[i])
    ensures |Traces(product, spec, gen, n)| == Calls(spec.components[..n])
    ensures Calls(spec.components[..i]) < Calls(spec.components[..n])
    ensures Traces(product, spec, gen, n)[Calls(spec.components[..i])].name == spec.components[i].name
  {
    hide *;
    TracesCount(product, spec, gen, n);
    TracesCount(product, spec, gen, n - 1);
    CallsSnoc(spec.components, n - 1);
    TracesSnoc(product, spec, gen, n - 1);
    if i < n - 1 {
      TraceAt(product, spec, gen, n - 1, i);
    }
  }

  /** Materializing what materialization gave: with any generator the second call succeeds, calls nothing
      and gives it back. */
  method MaterializeTwice(product: Reference, spec: Spec, generator: Option<Generator>, product': Reference, generator': Generator)
    returns (first: Option<(Spec, seq<Trace>)>, second: Option<(Spec, seq<Trace>)>, calls: nat)
    ensures first.Some? ==> second == Some((first.value.0, [])) && calls == 0
    ensures first.None? ==> second.None?
  {
    hide Delivers, DeliversValid, ProductValid, Materialized, Traces, Calls, SourcesOnly, NoneBacked;
    var n;
    first, n := MaterializeProductSpec(product, spec, generator);
    if first.None? {
      return None, None, 0;
    }
    SecondTimeNothing(product, spec, generator.value, product', generator');
    second, calls := MaterializeProductSpec(product', first.value.0, Some(generator'));
  }
}
