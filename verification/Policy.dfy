/** Policy manifests: conditions over the runtime input, and the decision of a set of rules. */
module Policy {
  import opened Inputs
  import opened Rbac
  import opened RbacText
  import opened Text
  import opened Values
  import opened Wrappers

  /** The condition's value Null stands for none. */
  datatype Condition = Condition(key: string, operator: string, value: Value)

  datatype PolicyRule = PolicyRule(
    name: string, description: string, effect: string, resources: seq<string>, actions: seq<string>, conditions: seq<Condition>)

  /** What a condition compares: a JSON value, or the list of subjects the authorizer adds, which a path
      cannot enter. */
  datatype Operand = Json(value: Value) | Identities(subjects: seq<Subject>)

  /** The runtime input: JSON fields, and under "subjects" the added list if there is one. */
  datatype PolicyInput = PolicyInput(fields: Object, identities: Option<seq<Subject>>)

  /** The operators, from the normalized name, the value found, whether it was found, and the expected
      value; None is an error. */
  type Operator = (string, Operand, bool, Operand) -> Option<bool>

  const OPERATORS := {"eq", "neq", "gt", "gte", "lt", "lte", "in", "not_in", "contains", "exists", "matches"}

  // ---- Validation ---------------------------------------------------------------------

  predicate ConditionValid(c: Condition) {
    && Trim(c.key) != "" && Normalize(c.operator) in OPERATORS
    && (Normalize(c.operator) != "exists" ==> c.value != Null)
  }

  predicate PolicyRuleValid(rule: PolicyRule) {
    && Trim(rule.name) != "" && (Effect(rule.effect) == "allow" || Effect(rule.effect) == "deny")
    && rule.resources != [] && rule.actions != [] && NoneBlank(rule.resources) && NoneBlank(rule.actions)
    && forall i :: 0 <= i < |rule.conditions| ==> ConditionValid(rule.conditions[i])
  }

  ghost predicate RulesValid(rules: seq<PolicyRule>) {
    && rules != [] && (forall i :: 0 <= i < |rules| ==> PolicyRuleValid(rules[i]))
    && (forall i, j :: 0 <= i < j < |rules| ==> Trim(rules[i].name) != Trim(rules[j].name))
  }

  /** ValidatePolicySpec. */
  method ValidatePolicySpec(rules: seq<PolicyRule>) returns (ok: bool)
    ensures ok <==> RulesValid(rules)
  {
    hide PolicyRuleValid, Trim;
    var names: set<string> := {};
    for i := 0 to |rules|
      invariant names == set k | 0 <= k < i :: Trim(rules[k].name)
      invariant forall k :: 0 <= k < i ==> PolicyRuleValid(rules[k])
      invariant forall k, l :: 0 <= k < l < i ==> Trim(rules[k].name) != Trim(rules[l].name)
    {
      if Trim(rules[i].name) in names || !PolicyRuleValid(rules[i]) {
        return false;
      }
      names := names + {Trim(rules[i].name)};
    }
    return |rules| != 0;
  }

  ghost predicate ConditionWritten(c: Condition) {
    && Trim(c.key) != ""
    && Lower(Trim(c.operator)) in {"eq", "neq", "gt", "gte", "lt", "lte", "in", "not_in", "contains", "exists", "matches"}
    && (c.value == Null ==> Lower(Trim(c.operator)) == "exists")
  }

  ghost predicate PolicyRuleWritten(rule: PolicyRule) {
    && Trim(rule.name) != "" && Lower(Trim(rule.effect)) in {"", "allow", "deny"}
    && Written(rule.resources) && Written(rule.actions)
    && forall c :: c in rule.conditions ==> ConditionWritten(c)
  }

  lemma ConditionWrittenText(c: Condition)
    ensures ConditionWritten(c) <==> ConditionValid(c)
  {
    hide Lower, Trim;
  }

  lemma PolicyRuleWrittenText(rule: PolicyRule)
    ensures PolicyRuleWritten(rule) <==> PolicyRuleValid(rule)
  {
    WrittenText(rule.resources);
    WrittenText(rule.actions);
    EffectValidText(rule.effect);
    hide Lower, Trim, Effect, Written, NoneBlank, ConditionWritten, ConditionValid;
    forall i | 0 <= i < |rule.conditions| ensures ConditionWritten(rule.conditions[i]) <==> ConditionValid(rule.conditions[i]) {
      ConditionWrittenText(rule.conditions[i]);
    }
    if PolicyRuleValid(rule) {
      forall c | c in rule.conditions ensures ConditionWritten(c) {
        var i :| 0 <= i < |rule.conditions| && rule.conditions[i] == c;
      }
    }
  }

  lemma EffectValidText(effect: string)
    ensures Effect(effect) == "allow" || Effect(effect) == "deny" <==> Lower(Trim(effect)) in {"", "allow", "deny"}
  {
    hide Lower, Trim;
  }

  /** Validity of a policy, in terms of what is written in it. */
  lemma RulesText(rules: seq<PolicyRule>)
    ensures RulesValid(rules) <==>
            && |rules| > 0 && (forall rule :: rule in rules ==> PolicyRuleWritten(rule))
            && (forall i, j :: 0 <= i < j < |rules| ==> Trim(rules[i].name) != Trim(rules[j].name))
  {
    hide PolicyRuleWritten, PolicyRuleValid, Trim;
    forall i | 0 <= i < |rules| ensures PolicyRuleWritten(rules[i]) <==> PolicyRuleValid(rules[i]) {
      PolicyRuleWrittenText(rules[i]);
    }
    if RulesValid(rules) {
      forall rule | rule in rules ensures PolicyRuleWritten(rule) {
        var i :| 0 <= i < |rules| && rules[i] == rule;
      }
    }
  }

  // ---- Conditions ---------------------------------------------------------------------

  function Find(input: PolicyInput, path: string): Option<Operand> {
    var parts := SplitOn(Trim(path), '.');
    if "" in parts then None
    else if input.identities.Some? && parts[0] == "subjects" then
      if |parts| == 1 then Some(Identities(input.identities.value)) else None
    else match Lookup(Obj(input.fields), parts)
      case Some(v) => Some(Json(v))
      case None => None
  }

  /** lookupPath. */
  method LookupPath(input: PolicyInput, path: string) returns (r: Option<Operand>)
    ensures r == Find(input, path)
  {
    var parts := SplitOn(Trim(path), '.');
    if input.identities.Some? && parts[0] == "subjects" {
      if "" !in parts && |parts| == 1 {
        return Some(Identities(input.identities.value));
      }
      return None;
    }
    var found := Walk(Obj(input.fields), parts);
    match found
    case Some(v) => return Some(Json(v));
    case None => return None;
  }

  /** A path of untrimmed, dot-free segments is followed field by field. */
  lemma FindPath(input: PolicyInput, parts: seq<string>)
    requires parts != [] && (forall i :: 0 <= i < |parts| ==> parts[i] != "" && '.' !in parts[i]) && Trimmed(Joined(parts, '.'))
    ensures Find(input, Joined(parts, '.')) ==
            if input.identities.Some? && parts[0] == "subjects" then
              if |parts| == 1 then Some(Identities(input.identities.value)) else None
            else match Lookup(Obj(input.fields), parts)
              case Some(v) => Some(Json(v))
              case None => None
  {
    SplitJoined(parts, '.');
    hide SplitOn, Joined, Trim, Lookup;
    assert "" !in parts;
  }

  /** A single name is a field of the input. */
  lemma FindField(input: PolicyInput, k: string)
    requires k != "" && '.' !in k && Trimmed(k)
    ensures Find(input, k) ==
            if input.identities.Some? && k == "subjects" then Some(Identities(input.identities.value))
            else if k in input.fields then Some(Json(input.fields[k]))
            else None
  {
    assert Joined([k], '.') == k;
    FindPath(input, [k]);
    LookupName(input.fields, k, []);
    assert [k] + [] == [k];
    hide Find;
  }

  /** resolvePolicyValue: an object with a text under "$ref" stands for what that path finds. */
  function Expected(input: PolicyInput, v: Value): Operand {
    if v.Obj? && "$ref" in v.fields && v.fields["$ref"].Str? then
      match Find(input, v.fields["$ref"].text)
      case Some(found) => found
      case None => Json(Null)
    else Json(v)
  }

  /** One condition: true, false or an error. */
  function Outcome(c: Condition, input: PolicyInput, op: Operator): Option<bool> {
    var found := Find(input, c.key);
    op(Normalize(c.operator), if found.Some? then found.value else Json(Null), found.Some?, Expected(input, c.value))
  }

  /** A condition on a field that is there hands the operator, in normal form, the field and the expected
      value; a reference stands for the field it names, or for null. */
  lemma ConditionReads(c: Condition, input: PolicyInput, op: Operator, ref: string)
    requires c.key != "" && '.' !in c.key && Trimmed(c.key) && c.key in input.fields && c.key != "subjects"
    requires ref != "" && '.' !in ref && Trimmed(ref) && ref != "subjects"
    ensures !c.value.Obj? ==> Outcome(c, input, op) == op(Lower(Trim(c.operator)), Json(input.fields[c.key]), true, Json(c.value))
    ensures c.value == Obj(map["$ref" := Str(ref)]) ==>
              Outcome(c, input, op) == op(Lower(Trim(c.operator)), Json(input.fields[c.key]), true,
                                          Json(if ref in input.fields then input.fields[ref] else Null))
  {
    FindField(input, c.key);
    FindField(input, ref);
    hide Find, Trim, Lower;
  }

  /** A condition on a field that is not there. */
  lemma ConditionMisses(c: Condition, input: PolicyInput, op: Operator)
    requires c.key != "" && '.' !in c.key && Trimmed(c.key) && c.key !in input.fields && c.key != "subjects" && !c.value.Obj?
    ensures Outcome(c, input, op) == op(Lower(Trim(c.operator)), Json(Null), false, Json(c.value))
  {
    FindField(input, c.key);
    hide Find, Trim, Lower;
  }

  ghost predicate Holds(conditions: seq<Condition>, input: PolicyInput, op: Operator) {
    forall i :: 0 <= i < |conditions| ==> Outcome(conditions[i], input, op) == Some(true)
  }

  /** Condition i is the first that does not hold. */
  ghost predicate Stops(conditions: seq<Condition>, i: nat, input: PolicyInput, op: Operator) {
    && i < |conditions| && Outcome(conditions[i], input, op) != Some(true)
    && forall k :: 0 <= k < i ==> Outcome(conditions[k], input, op) == Some(true)
  }

  /** The conditions run into an error: every one before it holds. */
  ghost predicate Breaks(conditions: seq<Condition>, input: PolicyInput, op: Operator) {
    exists i: nat :: Stops(conditions, i, input, op) && Outcome(conditions[i], input, op).None?
  }

  datatype ConditionMatch = ConditionMatch(key: string, operator: string, expected: Operand, actual: Operand)

  function MatchCondition(c: Condition, input: PolicyInput): ConditionMatch {
    var found := Find(input, c.key);
    ConditionMatch(Trim(c.key), Normalize(c.operator), Expected(input, c.value), if found.Some? then found.value else Json(Null))
  }

  function MatchConditions(conditions: seq<Condition>, input: PolicyInput): seq<ConditionMatch> {
    seq(|conditions|, i requires 0 <= i < |conditions| => MatchCondition(conditions[i], input))
  }

  /** evaluatePolicyConditions: an error only when every earlier condition holds. */
  method EvaluatePolicyConditions(conditions: seq<Condition>, input: PolicyInput, op: Operator)
    returns (matched: Option<bool>, matches: seq<ConditionMatch>)
    ensures matched.None? <==> Breaks(conditions, input, op)
    ensures matched == Some(true) <==> Holds(conditions, input, op)
    ensures matched == Some(true) ==> matches == MatchConditions(conditions, input)
  {
    hide Outcome, MatchCondition;
    matches := [];
    for i := 0 to |conditions|
      invariant |matches| == i
      invariant forall k :: 0 <= k < i ==> Outcome(conditions[k], input, op) == Some(true)
      invariant forall k :: 0 <= k < i ==> matches[k] == MatchCondition(conditions[k], input)
    {
      var outcome := Outcome(conditions[i], input, op);
      assert outcome != Some(true) ==> forall k: nat :: Stops(conditions, k, input, op) ==> k == i;
      if outcome.None? {
        assert Stops(conditions, i, input, op);
        return None, [];
      }
      if !outcome.value {
        return Some(false), [];
      }
      matches := matches + [MatchCondition(conditions[i], input)];
    }
    return Some(true), matches;
  }

  // ---- Decision -----------------------------------------------------------------------

  predicate Targets(rule: PolicyRule, q: Query) {
    AnyFits(q, rule.resources, q.resource) && AnyFits(q, rule.actions, q.action)
  }

  ghost predicate Applies(rule: PolicyRule, q: Query, input: PolicyInput, op: Operator) {
    Targets(rule, q) && Holds(rule.conditions, input, op)
  }

  ghost predicate Erring(rule: PolicyRule, q: Query, input: PolicyInput, op: Operator) {
    Targets(rule, q) && Breaks(rule.conditions, input, op)
  }

  ghost predicate AnyErring(rules: seq<PolicyRule>, q: Query, input: PolicyInput, op: Operator) {
    exists i :: 0 <= i < |rules| && Erring(rules[i], q, input, op)
  }

  /** An applicable rule has that effect. */
  ghost predicate PolicyFires(rules: seq<PolicyRule>, q: Query, input: PolicyInput, op: Operator, effect: string) {
    exists i :: 0 <= i < |rules| && Applies(rules[i], q, input, op) && Effect(rules[i].effect) == effect
  }

  /** A rule with one of these effect texts, lower-cased and trimmed, covers what is asked for and has all its
      conditions met. */
  ghost predicate PolicyReached(rules: seq<PolicyRule>, q: Query, input: PolicyInput, op: Operator, texts: set<string>) {
    exists rule :: rule in rules && Lower(Trim(rule.effect)) in texts && PolicyReaches(rule, q, input, op)
  }

  ghost predicate PolicyReaches(rule: PolicyRule, q: Query, input: PolicyInput, op: Operator) {
    && (exists p :: p in rule.resources && Covers(q, p, q.resource))
    && (exists p :: p in rule.actions && Covers(q, p, q.action))
    && forall c :: c in rule.conditions ==> Outcome(c, input, op) == Some(true)
  }

  lemma AppliesText(rule: PolicyRule, q: Query, input: PolicyInput, op: Operator)
    ensures Applies(rule, q, input, op) <==> PolicyReaches(rule, q, input, op)
  {
    AnySame(q, rule.resources, q.resource);
    AnySame(q, rule.actions, q.action);
    hide AnyFits, Covers, Outcome;
  }

  lemma PolicyEffectText(rule: PolicyRule)
    requires PolicyRuleValid(rule)
    ensures Effect(rule.effect) == "deny" <==> Lower(Trim(rule.effect)) in {"deny"}
    ensures Effect(rule.effect) == "allow" <==> Lower(Trim(rule.effect)) in {"", "allow"}
  {
    hide Trim, Lower, NoneBlank, ConditionValid;
    assert "deny"[0] != "allow"[0];
  }

  /** Which effects fire, in terms of the text of the rules. */
  lemma PolicyFiresText(rules: seq<PolicyRule>, q: Query, input: PolicyInput, op: Operator)
    requires RulesValid(rules)
    ensures PolicyFires(rules, q, input, op, "deny") <==> PolicyReached(rules, q, input, op, {"deny"})
    ensures PolicyFires(rules, q, input, op, "allow") <==> PolicyReached(rules, q, input, op, {"", "allow"})
  {
    hide *;
    PolicyFiresOne(rules, q, input, op, "deny", {"deny"});
    PolicyFiresOne(rules, q, input, op, "allow", {"", "allow"});
  }

  lemma ValidAt(rules: seq<PolicyRule>, i: nat)
    requires RulesValid(rules) && i < |rules|
    ensures PolicyRuleValid(rules[i])
  {
    hide PolicyRuleValid, Trim;
  }

  lemma PolicyFiresOne(rules: seq<PolicyRule>, q: Query, input: PolicyInput, op: Operator, effect: string, texts: set<string>)
    requires RulesValid(rules) && ((texts == {"deny"} && effect == "deny") || (texts == {"", "allow"} && effect == "allow"))
    ensures PolicyFires(rules, q, input, op, effect) <==> PolicyReached(rules, q, input, op, texts)
  {
    hide *;
    forall i | 0 <= i < |rules|
      ensures Applies(rules[i], q, input, op) <==> PolicyReaches(rules[i], q, input, op)
      ensures Effect(rules[i].effect) == effect <==> Lower(Trim(rules[i].effect)) in texts
    {
      AppliesText(rules[i], q, input, op);
      ValidAt(rules, i);
      PolicyEffectText(rules[i]);
    }
    FiresIsReached(rules, q, input, op, effect, texts);
  }

  lemma FiresIsReached(rules: seq<PolicyRule>, q: Query, input: PolicyInput, op: Operator, effect: string, texts: set<string>)
    requires forall i :: 0 <= i < |rules| ==>
               (Applies(rules[i], q, input, op) <==> PolicyReaches(rules[i], q, input, op)) &&
               (Effect(rules[i].effect) == effect <==> Lower(Trim(rules[i].effect)) in texts)
    ensures PolicyFires(rules, q, input, op, effect) <==> PolicyReached(rules, q, input, op, texts)
  {
    hide Applies, PolicyReaches, Effect, Trim, Lower;
    if PolicyFires(rules, q, input, op, effect) {
      var i :| 0 <= i < |rules| && Applies(rules[i], q, input, op) && Effect(rules[i].effect) == effect;
      assert rules[i] in rules;
    }
    if PolicyReached(rules, q, input, op, texts) {
      var rule :| rule in rules && Lower(Trim(rule.effect)) in texts && PolicyReaches(rule, q, input, op);
      var i :| 0 <= i < |rules| && rules[i] == rule;
    }
  }

  datatype PolicyMatch = PolicyMatch(
    name: string, effect: string, description: string, resources: seq<string>, actions: seq<string>, conditions: seq<ConditionMatch>)

  function MatchRule(rule: PolicyRule, input: PolicyInput): PolicyMatch {
    PolicyMatch(Trim(rule.name), Effect(rule.effect), Trim(rule.description), rule.resources, rule.actions,
                MatchConditions(rule.conditions, input))
  }

  /** The applicable rules in declared order. */
  ghost function Matched(rules: seq<PolicyRule>, q: Query, input: PolicyInput, op: Operator): seq<PolicyMatch> {
    if rules == [] then []
    else
      var rule := rules[|rules| - 1];
      Matched(rules[..|rules| - 1], q, input, op) + (if Applies(rule, q, input, op) then [MatchRule(rule, input)] else [])
  }

  /** The match is that of the rule, field by field. */
  ghost predicate PolicyCites(rule: PolicyRule, m: PolicyMatch) {
    && m.name == Trim(rule.name) && m.description == Trim(rule.description)
    && m.effect == (if Lower(Trim(rule.effect)) == "" then "allow" else Lower(Trim(rule.effect)))
    && m.resources == rule.resources && m.actions == rule.actions && |m.conditions| == |rule.conditions|
    && forall i :: 0 <= i < |rule.conditions| ==>
         m.conditions[i].key == Trim(rule.conditions[i].key) && m.conditions[i].operator == Lower(Trim(rule.conditions[i].operator))
  }

  lemma MatchRuleCites(rule: PolicyRule, input: PolicyInput)
    ensures PolicyCites(rule, MatchRule(rule, input))
  {
    hide Lower, Trim, Find, Expected;
  }

  ghost predicate CitedIn(matches: seq<PolicyMatch>, rule: PolicyRule) {
    exists m :: m in matches && PolicyCites(rule, m)
  }

  ghost predicate CitesOne(rules: seq<PolicyRule>, q: Query, input: PolicyInput, op: Operator, m: PolicyMatch) {
    exists rule :: rule in rules && PolicyReaches(rule, q, input, op) && PolicyCites(rule, m)
  }

  /** Exactly the rules that reach are reported. */
  lemma {:induction false} MatchedText(rules: seq<PolicyRule>, q: Query, input: PolicyInput, op: Operator)
    ensures forall m :: m in Matched(rules, q, input, op) ==> CitesOne(rules, q, input, op, m)
    ensures forall rule :: rule in rules && PolicyReaches(rule, q, input, op) ==> CitedIn(Matched(rules, q, input, op), rule)
  {
    hide Applies, PolicyReaches, PolicyCites, MatchRule;
    if rules != [] {
      var front, last := rules[..|rules| - 1], rules[|rules| - 1];
      MatchedText(front, q, input, op);
      assert rules == front + [last];
      AppliesText(last, q, input, op);
      MatchRuleCites(last, input);
      var before, all := Matched(front, q, input, op), Matched(rules, q, input, op);
      forall m | m in all ensures CitesOne(rules, q, input, op, m) {
        if m in before {
          assert CitesOne(front, q, input, op, m);
          var rule :| rule in front && PolicyReaches(rule, q, input, op) && PolicyCites(rule, m);
          assert rule in rules;
        } else {
          assert last in rules;
        }
      }
      forall rule | rule in rules && PolicyReaches(rule, q, input, op) ensures CitedIn(all, rule) {
        if rule in front {
          assert CitedIn(before, rule);
        } else {
          assert MatchRule(last, input) in all;
        }
      }
    }
  }

  datatype PolicyVerdict = PolicyVerdict(allowed: bool, decision: string, rules: seq<PolicyMatch>)

  ghost function Decision(rules: seq<PolicyRule>, q: Query, input: PolicyInput, op: Operator): string {
    if PolicyFires(rules, q, input, op, "deny") then "deny"
    else if PolicyFires(rules, q, input, op, "allow") then "allow"
    else "not_applicable"
  }

  lemma MatchedSnoc(rules: seq<PolicyRule>, i: nat, q: Query, input: PolicyInput, op: Operator)
    requires i < |rules|
    ensures Matched(rules[..i + 1], q, input, op)
         == Matched(rules[..i], q, input, op) + (if Applies(rules[i], q, input, op) then [MatchRule(rules[i], input)] else [])
  {
    hide Applies, MatchRule;
    assert rules[..i + 1][..i] == rules[..i];
  }

  lemma FiresSnoc(rules: seq<PolicyRule>, i: nat, q: Query, input: PolicyInput, op: Operator, effect: string)
    requires i < |rules|
    ensures PolicyFires(rules[..i + 1], q, input, op, effect) <==>
            PolicyFires(rules[..i], q, input, op, effect) || (Applies(rules[i], q, input, op) && Effect(rules[i].effect) == effect)
  {
    hide Applies, Effect;
    assert rules[..i + 1] == rules[..i] + [rules[i]];
    assert rules[..i + 1][i] == rules[i];
    if PolicyFires(rules[..i], q, input, op, effect) {
      var k :| 0 <= k < i && Applies(rules[..i][k], q, input, op) && Effect(rules[..i][k].effect) == effect;
      assert rules[..i + 1][k] == rules[..i][k];
    }
    if PolicyFires(rules[..i + 1], q, input, op, effect) {
      var k :| 0 <= k < i + 1 && Applies(rules[..i + 1][k], q, input, op) && Effect(rules[..i + 1][k].effect) == effect;
      if k < i {
        assert rules[..i][k] == rules[..i + 1][k];
      }
    }
  }

  /** Whether one rule applies, and the conditions it matched; None for an error. */
  method EvaluateRule(rule: PolicyRule, q: Query, input: PolicyInput, op: Operator) returns (r: Option<Option<PolicyMatch>>)
    ensures r.None? <==> Erring(rule, q, input, op)
    ensures r.Some? ==> r.value == if Applies(rule, q, input, op) then Some(MatchRule(rule, input)) else None
  {
    hide AnyFits, Holds, Breaks, MatchConditions, Trim, Effect;
    var onResource := AnyPatternMatch(q, rule.resources, q.resource);
    var onAction := AnyPatternMatch(q, rule.actions, q.action);
    if !onResource || !onAction {
      return Some(None);
    }
    var matched, conditions := EvaluatePolicyConditions(rule.conditions, input, op);
    if matched.None? {
      return None;
    }
    if !matched.value {
      return Some(None);
    }
    return Some(Some(PolicyMatch(Trim(rule.name), Effect(rule.effect), Trim(rule.description), rule.resources, rule.actions, conditions)));
  }

  /** The loop of EvaluatePolicy over the rules. */
  method ScanRules(rules: seq<PolicyRule>, q: Query, input: PolicyInput, op: Operator)
    returns (failed: bool, matches: seq<PolicyMatch>, allow: bool, deny: bool)
    ensures failed <==> AnyErring(rules, q, input, op)
    ensures !failed ==> matches == Matched(rules, q, input, op)
    ensures !failed ==> (allow <==> PolicyFires(rules, q, input, op, "allow")) && (deny <==> PolicyFires(rules, q, input, op, "deny"))
  {
    hide Erring, Applies, MatchRule, Effect, PolicyFires, Matched;
    matches, allow, deny := [], false, false;
    NoRules(rules, q, input, op);
    for i := 0 to |rules|
      invariant forall k :: 0 <= k < i ==> !Erring(rules[k], q, input, op)
      invariant matches == Matched(rules[..i], q, input, op)
      invariant allow <==> PolicyFires(rules[..i], q, input, op, "allow")
      invariant deny <==> PolicyFires(rules[..i], q, input, op, "deny")
    {
      FiresSnoc(rules, i, q, input, op, "allow");
      FiresSnoc(rules, i, q, input, op, "deny");
      MatchedSnoc(rules, i, q, input, op);
      var r := EvaluateRule(rules[i], q, input, op);
      if r.None? {
        return true, [], false, false;
      }
      if r.value.None? {
        continue;
      }
      matches := matches + [r.value.value];
      var effect := Effect(rules[i].effect);
      if effect == "deny" {
        deny := true;
      }
      if effect == "allow" {
        allow := true;
      }
    }
    assert rules[..|rules|] == rules;
    return false, matches, allow, deny;
  }

  lemma NoRules(rules: seq<PolicyRule>, q: Query, input: PolicyInput, op: Operator)
    ensures Matched(rules[..0], q, input, op) == []
    ensures forall effect :: !PolicyFires(rules[..0], q, input, op, effect)
  {
  }

  /** EvaluatePolicy: an error exactly for invalid rules, a blank resource or action, or conditions of a
      targeted rule that run into an error; otherwise deny overrides allow. */
  method EvaluatePolicy(rules: seq<PolicyRule>, q: Query, input: PolicyInput, op: Operator) returns (r: Option<PolicyVerdict>)
    ensures r.Some? <==> PolicyAnswers(rules, q, input, op)
    ensures r.Some? ==> r.value.decision == Decision(rules, Asked(q), input, op)
    ensures r.Some? ==> (r.value.allowed <==> r.value.decision == "allow")
    ensures r.Some? ==>
              var asked := q.(resource := Trim(q.resource), action := Trim(q.action));
              r.value.decision == if PolicyReached(rules, asked, input, op, {"deny"}) then "deny"
                                  else if PolicyReached(rules, asked, input, op, {"", "allow"}) then "allow"
                                  else "not_applicable"
    ensures r.Some? ==> r.value.rules == Matched(rules, Asked(q), input, op)
    ensures r.Some? ==>
              var asked := q.(resource := Trim(q.resource), action := Trim(q.action));
              && (forall m :: m in r.value.rules ==> CitesOne(rules, asked, input, op, m))
              && (forall rule :: rule in rules && PolicyReaches(rule, asked, input, op) ==> CitedIn(r.value.rules, rule))
  {
    hide RulesValid, AnyErring, Matched, PolicyFires, PolicyReached, Trim;
    var valid := ValidatePolicySpec(rules);
    if !valid {
      return None;
    }
    var asked := Asked(q);
    if asked.resource == "" || asked.action == "" {
      return None;
    }
    var failed, matches, allow, deny := ScanRules(rules, asked, input, op);
    if failed {
      return None;
    }
    PolicyFiresText(rules, asked, input, op);
    MatchedText(rules, asked, input, op);
    hide CitesOne, CitedIn, PolicyReaches;
    if deny {
      return Some(PolicyVerdict(false, "deny", matches));
    }
    if allow {
      return Some(PolicyVerdict(true, "allow", matches));
    }
    return Some(PolicyVerdict(false, "not_applicable", matches));
  }

  ghost predicate PolicyAnswers(rules: seq<PolicyRule>, q: Query, input: PolicyInput, op: Operator) {
    && RulesValid(rules) && Trim(q.resource) != "" && Trim(q.action) != ""
    && !AnyErring(rules, Asked(q), input, op)
  }
}
