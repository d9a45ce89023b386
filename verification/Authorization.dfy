/** Authorization: an RBAC decision refined by an optional policy. */
module Authorization {
  import opened Inputs
  import opened Policy
  import opened Rbac
  import opened RbacEvaluation
  import opened RbacText
  import opened Text
  import opened Values
  import opened Wrappers

  // ---- The input the policy sees ------------------------------------------------------

  /** The caller's own "subject" object, with the identity filled in where it says nothing. */
  function Filled(m: Object, s: Subject): Object {
    var typed := if "type" !in m && Trim(s.kind) != "" then m["type" := Str(Trim(s.kind))] else m;
    if "id" !in typed && Trim(s.id) != "" then typed["id" := Str(Trim(s.id))] else typed
  }

  predicate OwnSubject(input: Object) {
    "subject" in input && input["subject"].Obj?
  }

  /** The caller's map afterwards: its subject object is completed in place. */
  function Completed(resolved: seq<Subject>, input: Object): Object {
    if resolved != [] && OwnSubject(input) then input["subject" := Obj(Filled(input["subject"].fields, resolved[0]))] else input
  }

  predicate SubjectMissing(input: Object) {
    "subject" !in input || input["subject"] == Null
  }

  /** The fields the policy sees: the caller's, and under "input" all of them again. */
  function Fields(resolved: seq<Subject>, input: Object): Object {
    var completed := Completed(resolved, input);
    var spaced := if "input" in input then completed else completed["input" := Obj(completed)];
    if resolved != [] && SubjectMissing(input) then
      spaced["subject" := Obj(map["type" := Str(Trim(resolved[0].kind)), "id" := Str(Trim(resolved[0].id))])]
    else spaced
  }

  function InputFor(resolved: seq<Subject>, input: Object): PolicyInput {
    PolicyInput(Fields(resolved, input), if "subjects" in input then None else Some(resolved))
  }

  /** authorizationPolicyInput.  The map copied under "input" shares the caller's subject object, so
      completing it shows there and in the caller's map as well. */
  method AuthorizationPolicyInput(resolved: seq<Subject>, input: Object) returns (r: PolicyInput, caller: Object)
    ensures r == InputFor(resolved, input) && caller == Completed(resolved, input)
  {
    hide Trim;
    var normalized, raw := input, input;
    var spaced := "input" !in normalized;
    if spaced {
      normalized := normalized["input" := Obj(raw)];
    }
    caller := input;
    var identities := if "subjects" in normalized then None else Some(resolved);
    assert "subjects" in normalized <==> "subjects" in input;
    assert "subject" in normalized <==> "subject" in input;
    if |resolved| == 0 {
      return PolicyInput(normalized, identities), caller;
    }
    var kind, id := Trim(resolved[0].kind), Trim(resolved[0].id);
    if "subject" !in normalized || normalized["subject"] == Null {
      normalized := normalized["subject" := Obj(map["type" := Str(kind), "id" := Str(id)])];
      return PolicyInput(normalized, identities), caller;
    }
    if !normalized["subject"].Obj? {
      return PolicyInput(normalized, identities), caller;
    }
    var shared := normalized["subject"].fields;
    if "type" !in shared && kind != "" {
      shared := shared["type" := Str(kind)];
    }
    if "id" !in shared && id != "" {
      shared := shared["id" := Str(id)];
    }
    assert shared == Filled(input["subject"].fields, resolved[0]);
    caller := caller["subject" := Obj(shared)];
    raw := raw["subject" := Obj(shared)];
    normalized := normalized["subject" := Obj(shared)];
    if spaced {
      normalized := normalized["input" := Obj(raw)];
    }
    return PolicyInput(normalized, identities), caller;
  }

  lemma LookupField(m: Object, path: seq<string>)
    requires path != []
    ensures Lookup(Obj(m), path) == if path[0] in m then Lookup(m[path[0]], path[1..]) else None
  {
  }

  lemma FieldsKept(resolved: seq<Subject>, input: Object, k: string)
    ensures k != "subject" && k != "input" ==>
              (k in Fields(resolved, input) <==> k in input) && (k in input ==> Fields(resolved, input)[k] == input[k])
    ensures "input" !in input ==> "input" in Fields(resolved, input) && Fields(resolved, input)["input"] == Obj(Completed(resolved, input))
  {
    hide Trim, Filled;
  }

  /** Every path into the caller's input is found again under "input" and - apart from the subject -
      under its flat name. */
  lemma InputNamespace(resolved: seq<Subject>, input: Object, path: seq<string>)
    requires path != []
    ensures "input" !in input ==>
              Lookup(Obj(Fields(resolved, input)), ["input"] + path) == Lookup(Obj(Completed(resolved, input)), path)
    ensures path[0] != "subject" && path[0] != "input" ==>
              Lookup(Obj(Fields(resolved, input)), path) == Lookup(Obj(input), path)
  {
    hide Lookup, Fields, Completed;
    LookupField(Fields(resolved, input), ["input"] + path);
    assert (["input"] + path)[1..] == path;
    LookupField(Fields(resolved, input), path);
    LookupField(input, path);
    FieldsKept(resolved, input, path[0]);
  }

  lemma LowerTrimmed(s: string)
    requires Trimmed(s)
    ensures Trim(Lower(s)) == Lower(s)
  {
    if s != "" {
      assert !IsSpace(LowerChar(s[0])) && !IsSpace(LowerChar(s[|s| - 1]));
      hide LowerChar, IsSpace, Trim;
      assert Lower(s)[0] == LowerChar(s[0]) && Lower(s)[|s| - 1] == LowerChar(s[|s| - 1]);
    }
    assert Trimmed(Lower(s));
  }

  lemma NormalGiven(s: Subject)
    requires Present(s)
    ensures Given(Normal(s))
  {
    LowerTrimmed(Trim(s.kind));
    hide Trim, Lower;
  }

  /** A subject whose parts are there and need no trimming. */
  predicate Given(s: Subject) {
    Trim(s.kind) == s.kind && s.kind != "" && Trim(s.id) == s.id && s.id != ""
  }

  lemma FirstGiven(subjects: seq<Subject>)
    requires Normals(subjects) != []
    ensures Given(Normals(subjects)[0])
  {
    hide Normals, Given, Normal;
    NormalsAreNormal(subjects);
    var n := Normals(subjects)[0];
    assert Normalizes(subjects, n);
    var s :| s in subjects && Present(s) && Normal(s) == n;
    NormalGiven(s);
  }

  /** The subject the policy sees: the caller's own fields stay, and where they give no type or id, those
      of the first resolved subject are seen. */
  lemma SubjectSeen(subjects: seq<Subject>, input: Object, k: string)
    requires Normals(subjects) != [] && (SubjectMissing(input) || OwnSubject(input))
    ensures SeesSubject(Normals(subjects)[0], Fields(Normals(subjects), input), input, k)
  {
    hide Normals, Fields;
    FirstGiven(subjects);
    FieldsSeen(Normals(subjects), input, k);
  }

  ghost predicate SeesSubject(first: Subject, fields: Object, input: Object, k: string) {
    && "subject" in fields && fields["subject"].Obj?
    && var seen := fields["subject"].fields;
       if OwnSubject(input) && k in input["subject"].fields then k in seen && seen[k] == input["subject"].fields[k]
       else if k == "type" then k in seen && seen[k] == Str(first.kind)
       else if k == "id" then k in seen && seen[k] == Str(first.id)
       else k !in seen
  }

  lemma FieldsSeen(resolved: seq<Subject>, input: Object, k: string)
    requires resolved != [] && Given(resolved[0]) && (SubjectMissing(input) || OwnSubject(input))
    ensures SeesSubject(resolved[0], Fields(resolved, input), input, k)
  {
    hide Trim;
  }

  // ---- The decision -------------------------------------------------------------------

  datatype Response = Response(
    allowed: bool, decision: string, resolved: seq<Subject>, rbac: Verdict, policy: Option<PolicyVerdict>)

  /** Some bound RBAC rule allows, none denies, and no applicable policy rule denies. */
  ghost predicate Permitted(spec: Spec, policy: Option<seq<PolicyRule>>, subjects: seq<Subject>, q: Query, input: Object, op: Operator) {
    && Allows(spec, subjects, Asked(q))
    && (policy.Some? ==> !PolicyFires(policy.value, Asked(q), InputFor(Normals(subjects), input), op, "deny"))
  }

  /** When there is a decision: the RBAC request is well formed, and so is the policy if it is reached. */
  ghost predicate Decidable(spec: Spec, policy: Option<seq<PolicyRule>>, subjects: seq<Subject>, q: Query, input: Object, op: Operator) {
    && Answerable(spec, subjects, q.resource, q.action)
    && (Allows(spec, subjects, Asked(q)) && policy.Some? ==>
          PolicyAnswers(policy.value, q, InputFor(Normals(subjects), input), op))
  }

  /** EvaluateAuthorizationSubjects. */
  method EvaluateAuthorizationSubjects(
    spec: Spec, policy: Option<seq<PolicyRule>>, subjects: seq<Subject>, q: Query, input: Object, op: Operator)
    returns (r: Option<Response>)
    ensures r.Some? <==> Decidable(spec, policy, subjects, q, input, op)
    ensures r.Some? ==> (r.value.allowed <==> Permitted(spec, policy, subjects, q, input, op))
    ensures r.Some? ==>
              var asked := q.(resource := Trim(q.resource), action := Trim(q.action));
              r.value.allowed <==>
                && Reached(spec, subjects, asked, {"", "allow"}) && !Reached(spec, subjects, asked, {"deny"})
                && (policy.Some? ==> !PolicyReached(policy.value, asked, InputFor(Normals(subjects), input), op, {"deny"}))
    ensures r.Some? ==> r.value.decision == if r.value.allowed then "allow" else "deny"
    ensures r.Some? ==> r.value.resolved == Normals(subjects) && Explains(r.value.rbac, spec, subjects, Asked(q))
    ensures r.Some? ==> (r.value.policy.Some? <==> policy.Some? && Allows(spec, subjects, Asked(q)))
    ensures r.Some? && r.value.policy.Some? ==>
              r.value.policy.value.decision == Decision(policy.value, Asked(q), InputFor(Normals(subjects), input), op)
  {
    hide Answerable, Allows, Explains, PolicyAnswers, PolicyFires, InputFor, Normals, Asked, Reached, PolicyReached, Trim;
    var rbac := EvaluateRbacSubjects(spec, subjects, q);
    if rbac.None? {
      return None;
    }
    var resolved := NormalSubjects(subjects);
    var response := Response(false, "deny", resolved, rbac.value, None);
    if !rbac.value.allowed {
      return Some(response);
    }
    response := response.(allowed := true, decision := "allow");
    if policy.None? {
      return Some(response);
    }
    var seen, _ := AuthorizationPolicyInput(resolved, input);
    var decided := EvaluatePolicy(policy.value, q, seen, op);
    if decided.None? {
      return None;
    }
    response := response.(policy := decided);
    if decided.value.decision == "deny" {
      response := response.(allowed := false, decision := "deny");
    }
    return Some(response);
  }

  // ---- A policy only narrows ----------------------------------------------------------

  ghost predicate DenyRulesWithin(a: seq<PolicyRule>, b: seq<PolicyRule>) {
    forall i :: 0 <= i < |a| && Effect(a[i].effect) == "deny" ==> a[i] in b
  }

  lemma DenialCarries(a: seq<PolicyRule>, b: seq<PolicyRule>, q: Query, input: PolicyInput, op: Operator)
    requires DenyRulesWithin(a, b) && PolicyFires(a, q, input, op, "deny")
    ensures PolicyFires(b, q, input, op, "deny")
  {
    hide Applies, Effect;
    var i :| 0 <= i < |a| && Applies(a[i], q, input, op) && Effect(a[i].effect) == "deny";
    var k :| 0 <= k < |b| && b[k] == a[i];
  }

  /** What a policy with more deny rules permits, one with fewer permits too, and RBAC alone. */
  lemma PolicyNarrows(spec: Spec, a: seq<PolicyRule>, b: seq<PolicyRule>, subjects: seq<Subject>, q: Query, input: Object, op: Operator)
    requires DenyRulesWithin(a, b) && Permitted(spec, Some(b), subjects, q, input, op)
    ensures Permitted(spec, Some(a), subjects, q, input, op)
    ensures Permitted(spec, None, subjects, q, input, op)
  {
    hide Allows, PolicyFires, DenyRulesWithin, InputFor, Normals, Asked;
    var seen := InputFor(Normals(subjects), input);
    if PolicyFires(a, Asked(q), seen, op, "deny") {
      DenialCarries(a, b, Asked(q), seen, op);
    }
  }

  /** The list the policy finds under "subjects": the caller's own, or the resolved subjects. */
  lemma SubjectsSeen(resolved: seq<Subject>, input: Object)
    ensures Find(InputFor(resolved, input), "subjects") ==
            if "subjects" in input then Some(Json(input["subjects"])) else Some(Identities(resolved))
  {
    FieldsKept(resolved, input, "subjects");
    assert Trimmed("subjects");
    hide Find, Fields, Trimmed;
    FindField(InputFor(resolved, input), "subjects");
  }
}
