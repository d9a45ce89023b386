/** Compiling a quickstart provider into a workflow: selection, input resolution, steps and schema. */
module Quickstart {
  import opened ExecutionOrder
  import opened Inputs
  import opened QuickstartInputs
  import opened QuickstartSteps
  import opened Values
  import opened Workflow
  import opened Wrappers

  datatype Requirement = Requirement(kind: string, name: string, capability: string)

  datatype Provider = Provider(
    id: string, requirements: seq<Requirement>, inputs: seq<Question>, steps: seq<QuickStep>, smokeTest: Option<SmokeTest>)

  datatype Compiled = Compiled(schema: Schema, defaults: Object, steps: seq<Step>)

  // ---- Validation ---------------------------------------------------------------------

  predicate RequirementValid(r: Requirement) {
    if r.kind == "integration_family" || r.kind == "integration_type" then r.name != ""
    else r.kind == "cluster_capability" && r.capability != ""
  }

  ghost predicate ProviderValid(p: Provider, regex: Regex) {
    && IsQuickstartId(p.id)
    && (forall i :: 0 <= i < |p.requirements| ==> RequirementValid(p.requirements[i]))
    && QuestionsValid(p.inputs, regex)
    && StepsValid(p.steps)
    && (p.smokeTest.Some? ==> p.smokeTest.value.uses != map[])
  }

  ghost predicate SpecValid(providers: seq<Provider>, regex: Regex) {
    && providers != []
    && (forall i :: 0 <= i < |providers| ==> ProviderValid(providers[i], regex))
    && (forall i, j :: 0 <= i < j < |providers| ==> providers[i].id != providers[j].id)
  }

  /** validateRequirements. */
  method ValidateRequirements(rs: seq<Requirement>) returns (ok: bool)
    ensures ok <==> forall i :: 0 <= i < |rs| ==> RequirementValid(rs[i])
  {
    for i := 0 to |rs|
      invariant forall k :: 0 <= k < i ==> RequirementValid(rs[k])
    {
      if !RequirementValid(rs[i]) {
        return false;
      }
    }
    return true;
  }

  /** ValidateIntegrationQuickstartSpec. */
  method ValidateQuickstart(providers: seq<Provider>, regex: Regex) returns (ok: bool)
    ensures ok <==> SpecValid(providers, regex)
  {
    hide IsQuickstartId, RequirementValid, QuestionsValid, StepsValid;
    var seen: set<string> := {};
    for i := 0 to |providers|
      invariant seen == set k | 0 <= k < i :: providers[k].id
      invariant forall k :: 0 <= k < i ==> ProviderValid(providers[k], regex)
      invariant forall k, l :: 0 <= k < l < i ==> providers[k].id != providers[l].id
    {
      var p := providers[i];
      if !IsQuickstartId(p.id) || p.id in seen {
        return false;
      }
      seen := seen + {p.id};
      var requirements := ValidateRequirements(p.requirements);
      var inputs := ValidateQuestions(p.inputs, regex);
      var steps := ValidateSteps(p.steps);
      if !requirements || !inputs || !steps || (p.smokeTest.Some? && p.smokeTest.value.uses == map[]) {
        assert !ProviderValid(providers[i], regex);
        return false;
      }
    }
    return |providers| != 0;
  }

  // ---- Compilation --------------------------------------------------------------------

  /** Provider k is the one the id names; the empty id names the only provider. */
  ghost predicate Named(providers: seq<Provider>, id: string, k: nat) {
    && k < |providers|
    && if id == "" then |providers| == 1
       else providers[k].id == id && forall j :: 0 <= j < k ==> providers[j].id != id
  }

  /** selectProvider. */
  method SelectProvider(providers: seq<Provider>, id: string) returns (k: Option<nat>)
    ensures k.Some? ==> Named(providers, id, k.value)
    ensures k.None? ==> forall j :: !Named(providers, id, j)
  {
    if id == "" {
      if |providers| == 1 {
        return Some(0);
      }
      return None;
    }
    for i := 0 to |providers|
      invariant forall j :: 0 <= j < i ==> providers[j].id != id
    {
      if providers[i].id == id {
        return Some(i);
      }
    }
    return None;
  }

  ghost predicate StepsDecode(p: Provider, decode: Decoder) {
    && (forall i :: 0 <= i < |p.steps| ==> DecodeUses(p.steps[i].uses, decode).Some?)
    && (p.smokeTest.Some? ==> DecodeUses(p.smokeTest.value.uses, decode).Some?)
  }

  /** The workflow a provider compiles to for the supplied inputs. */
  ghost predicate CompiledFrom(p: Provider, supplied: Object, regex: Regex, decode: Decoder, w: Compiled) {
    && SchemaFor(p.inputs, w.schema)
    && Answered(p.inputs, supplied, regex) && Resolved(p.inputs, supplied, regex, w.defaults)
    && Compiles(p.steps, p.smokeTest, decode, w.steps)
  }

  /** CompileQuickstartToWorkflow: it fails exactly when no provider is named, an input is refused or a use
      does not decode. */
  method CompileQuickstart(providers: seq<Provider>, id: string, supplied: Object, regex: Regex, decode: Decoder)
    returns (k: Option<nat>, w: Option<Compiled>)
    ensures k.Some? ==> Named(providers, id, k.value)
    ensures k.None? ==> w.None? && forall j :: !Named(providers, id, j)
    ensures k.Some? ==> (w.Some? <==> Answered(providers[k.value].inputs, supplied, regex) && StepsDecode(providers[k.value], decode))
    ensures k.Some? && w.Some? ==> CompiledFrom(providers[k.value], supplied, regex, decode, w.value)
  {
    hide Answered, Resolved, SchemaFor, Compiles, DecodeUses, StepsValid, DistinctIds;
    k := SelectProvider(providers, id);
    if k.None? {
      return k, None;
    }
    var p := providers[k.value];
    var resolved := ValidateAndDefaultInputs(p.inputs, supplied, regex);
    if resolved.None? {
      return k, None;
    }
    var steps := CompileSteps(p.steps, p.smokeTest, decode);
    if steps.None? {
      return k, None;
    }
    var schema := BuildInputSchema(p.inputs);
    return k, Some(Compiled(schema, resolved.value, steps.value));
  }

  /** What a compiled workflow does when it is started with no inputs of its own: its steps run in the
      declared order with the smoke test last unless a step takes the smoke test's name, and its inputs
      are accepted unless a default of the wrong type was used. */
  method StartCompiled(p: Provider, supplied: Object, regex: Regex, decode: Decoder, w: Compiled)
    returns (order: Result<seq<Step>, Error>, accepted: bool)
    requires ProviderValid(p, regex) && CompiledFrom(p, supplied, regex, decode, w)
    ensures SmokeNameFree(p.steps, p.smokeTest) ==> order == Ok(w.steps)
    ensures !SmokeNameFree(p.steps, p.smokeTest) ==> order == Err(DependencyCycle)
    ensures accepted <==> DefaultsTyped(p.inputs, supplied)
  {
    assert StepsValid(p.steps) && QuestionsValid(p.inputs, regex);
    assert Compiles(p.steps, p.smokeTest, decode, w.steps);
    assert SchemaFor(p.inputs, w.schema) && Answered(p.inputs, supplied, regex) && Resolved(p.inputs, supplied, regex, w.defaults);
    hide *;
    order := WorkflowExecutionOrder(w.steps);
    CompiledOrder(p.steps, p.smokeTest, decode, w.steps, order);
    accepted := ValidateWorkflowInputs(w.defaults, w.schema, map[], regex);
    DefaultsAccepted(p.inputs, supplied, regex, w.defaults, w.schema);
  }

  lemma CollidingProvider(raw: Object, regex: Regex, decode: Decoder, p: Provider)
    requires DecodeUses(raw, decode).Some?
    requires p == Provider("p", [], [], [QuickStep(SMOKE_ID, "", "", raw, map[], None, 0)], Some(SmokeTest("", raw, map[], 0)))
    ensures ProviderValid(p, regex) && Answered(p.inputs, map[], regex) && StepsDecode(p, decode) && !SmokeNameFree(p.steps, p.smokeTest)
  {
    assert raw != map[];
    hide DecodeUses;
    assert IsQuickstartId("p") && IsQuickstartId(SMOKE_ID);
    assert p.steps[0].id == SMOKE_ID;
  }

  /** A validated provider whose compiled workflow cannot be ordered: its one step takes the name of the
      smoke test. */
  method TakenNameFails(raw: Object, regex: Regex, decode: Decoder)
    returns (p: Provider, w: Compiled, order: Result<seq<Step>, Error>)
    requires DecodeUses(raw, decode).Some?
    ensures ProviderValid(p, regex) && CompiledFrom(p, map[], regex, decode, w) && order == Err(DependencyCycle)
  {
    hide ProviderValid, Answered, StepsDecode, CompiledFrom, SmokeNameFree;
    p := Provider("p", [], [], [QuickStep(SMOKE_ID, "", "", raw, map[], None, 0)], Some(SmokeTest("", raw, map[], 0)));
    CollidingProvider(raw, regex, decode, p);
    var k, compiled := CompileQuickstart([p], "", map[], regex, decode);
    assert Named([p], "", 0);
    w := compiled.value;
    var accepted: bool;
    order, accepted := StartCompiled(p, map[], regex, decode, w);
  }
}
