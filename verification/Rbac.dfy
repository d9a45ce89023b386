/** RBAC manifests: validation and the evaluation of a request against roles and bindings. */
module Rbac {
  import opened Text
  import opened Wrappers

  datatype Subject = Subject(kind: string, id: string)

  datatype Rule = Rule(description: string, effect: string, resources: seq<string>, actions: seq<string>)

  datatype Role = Role(name: string, description: string, rules: seq<Rule>)

  datatype Binding = Binding(name: string, subjects: seq<Subject>, roles: seq<string>)

  datatype Spec = Spec(roles: seq<Role>, bindings: seq<Binding>)

  /** What a request asks for, with the library's path.Match (None: malformed pattern) and EqualFold. */
  datatype Query = Query(
    resource: string, action: string, glob: (string, string) -> Option<bool>, fold: (string, string) -> bool)

  /** The request with its resource and action trimmed. */
  function Asked(q: Query): Query {
    q.(resource := Trim(q.resource), action := Trim(q.action))
  }

  // ---- Matching -----------------------------------------------------------------------

  predicate PatternFits(q: Query, pattern: string, value: string) {
    var p := Trim(pattern);
    p != "" && (q.glob(p, value) == Some(true) || q.fold(p, value))
  }

  predicate AnyFits(q: Query, patterns: seq<string>, value: string) {
    exists i :: 0 <= i < |patterns| && PatternFits(q, patterns[i], value)
  }

  /** anyPatternMatch. */
  method AnyPatternMatch(q: Query, patterns: seq<string>, value: string) returns (fits: bool)
    ensures fits <==> AnyFits(q, patterns, value)
  {
    for i := 0 to |patterns|
      invariant forall k :: 0 <= k < i ==> !PatternFits(q, patterns[k], value)
    {
      var pattern := Trim(patterns[i]);
      if pattern == "" {
        continue;
      }
      if q.glob(pattern, value) == Some(true) || q.fold(pattern, value) {
        return true;
      }
    }
    return false;
  }

  predicate RuleMatches(rule: Rule, q: Query) {
    AnyFits(q, rule.resources, q.resource) && AnyFits(q, rule.actions, q.action)
  }

  /** normalizeSubject. */
  function Normal(s: Subject): Subject {
    Subject(Normalize(s.kind), Trim(s.id))
  }

  /** A subject that counts: both parts are there. */
  predicate Present(s: Subject) {
    Normal(s).kind != "" && Normal(s).id != ""
  }

  predicate PartFits(q: Query, pattern: string, value: string) {
    pattern == "*" || PatternFits(q, pattern, value)
  }

  /** A binding's subject covers a normalized one. */
  predicate SubjectFits(q: Query, candidate: Subject, s: Subject) {
    PartFits(q, Normal(candidate).kind, s.kind) && PartFits(q, Normal(candidate).id, s.id)
  }

  predicate Binds(q: Query, b: Binding, s: Subject) {
    exists i :: 0 <= i < |b.subjects| && SubjectFits(q, b.subjects[i], s)
  }

  /** bindingMatchesSubject. */
  method BindingMatchesSubject(q: Query, b: Binding, s: Subject) returns (binds: bool)
    ensures binds <==> Binds(q, b, s)
  {
    hide SubjectFits;
    for i := 0 to |b.subjects|
      invariant forall k :: 0 <= k < i ==> !SubjectFits(q, b.subjects[k], s)
    {
      if SubjectFits(q, b.subjects[i], s) {
        return true;
      }
    }
    return false;
  }

  /** normalizeEffect. */
  function Effect(effect: string): string {
    if Normalize(effect) == "" then "allow" else Normalize(effect)
  }

  // ---- Validation ---------------------------------------------------------------------

  predicate NoneBlank(texts: seq<string>) {
    forall i :: 0 <= i < |texts| ==> Trim(texts[i]) != ""
  }

  predicate RuleValid(rule: Rule) {
    && (Effect(rule.effect) == "allow" || Effect(rule.effect) == "deny")
    && rule.resources != [] && rule.actions != [] && NoneBlank(rule.resources) && NoneBlank(rule.actions)
  }

  predicate RoleValid(role: Role) {
    Trim(role.name) != "" && role.rules != [] && forall i :: 0 <= i < |role.rules| ==> RuleValid(role.rules[i])
  }

  predicate SubjectGiven(s: Subject) {
    Trim(s.kind) != "" && Trim(s.id) != ""
  }

  ghost predicate RoleKnown(roles: seq<Role>, name: string) {
    exists i :: 0 <= i < |roles| && Trim(roles[i].name) == Trim(name)
  }

  ghost predicate BindingValid(b: Binding, roles: seq<Role>) {
    && Trim(b.name) != "" && b.subjects != [] && b.roles != []
    && (forall i :: 0 <= i < |b.subjects| ==> SubjectGiven(b.subjects[i]))
    && (forall i :: 0 <= i < |b.roles| ==> RoleKnown(roles, b.roles[i]))
  }

  ghost predicate UniqueRoles(roles: seq<Role>) {
    forall i, j :: 0 <= i < j < |roles| ==> Trim(roles[i].name) != Trim(roles[j].name)
  }

  ghost predicate SpecValid(spec: Spec) {
    && spec.roles != [] && UniqueRoles(spec.roles)
    && (forall i :: 0 <= i < |spec.roles| ==> RoleValid(spec.roles[i]))
    && (forall i :: 0 <= i < |spec.bindings| ==> BindingValid(spec.bindings[i], spec.roles))
  }

  method ValidateRoles(roles: seq<Role>) returns (ok: bool, names: set<string>)
    ensures ok <==> UniqueRoles(roles) && forall i :: 0 <= i < |roles| ==> RoleValid(roles[i])
    ensures ok ==> names == set i | 0 <= i < |roles| :: Trim(roles[i].name)
  {
    hide RoleValid, Trim;
    names := {};
    for i := 0 to |roles|
      invariant names == set k | 0 <= k < i :: Trim(roles[k].name)
      invariant forall k :: 0 <= k < i ==> RoleValid(roles[k])
      invariant forall k, l :: 0 <= k < l < i ==> Trim(roles[k].name) != Trim(roles[l].name)
    {
      if Trim(roles[i].name) in names || !RoleValid(roles[i]) {
        return false, names;
      }
      names := names + {Trim(roles[i].name)};
    }
    return true, names;
  }

  method ValidateBinding(b: Binding, roles: seq<Role>, names: set<string>) returns (ok: bool)
    requires names == set i | 0 <= i < |roles| :: Trim(roles[i].name)
    ensures ok <==> BindingValid(b, roles)
  {
    hide Trim, SubjectGiven;
    if Trim(b.name) == "" || |b.subjects| == 0 || |b.roles| == 0 {
      return false;
    }
    for i := 0 to |b.subjects|
      invariant forall k :: 0 <= k < i ==> SubjectGiven(b.subjects[k])
    {
      if !SubjectGiven(b.subjects[i]) {
        return false;
      }
    }
    for i := 0 to |b.roles|
      invariant forall k :: 0 <= k < i ==> RoleKnown(roles, b.roles[k])
    {
      if Trim(b.roles[i]) !in names {
        assert !RoleKnown(roles, b.roles[i]);
        return false;
      }
    }
    return true;
  }

  /** ValidateRBACSpec. */
  method ValidateRbacSpec(spec: Spec) returns (ok: bool)
    ensures ok <==> SpecValid(spec)
  {
    hide UniqueRoles, RoleValid, BindingValid, Trim;
    if |spec.roles| == 0 {
      return false;
    }
    var rolesOk, names := ValidateRoles(spec.roles);
    if !rolesOk {
      return false;
    }
    for i := 0 to |spec.bindings|
      invariant forall k :: 0 <= k < i ==> BindingValid(spec.bindings[k], spec.roles)
    {
      var bindingOk := ValidateBinding(spec.bindings[i], spec.roles, names);
      if !bindingOk {
        return false;
      }
    }
    return true;
  }

  // ---- The verdict, declaratively -----------------------------------------------------

  /** A rule used in a decision. */
  datatype Match = Match(role: string, effect: string, description: string, resources: seq<string>, actions: seq<string>)

  function MatchOf(role: string, rule: Rule): Match {
    Match(role, Effect(rule.effect), Trim(rule.description), rule.resources, rule.actions)
  }

  /** What an evaluation meets: a role bound to a subject, and a rule that matches in such a role. */
  datatype Event = Bound(role: string) | Hit(use: Match)

  ghost predicate RuleMeets(role: string, rule: Rule, q: Query, e: Event) {
    RuleMatches(rule, q) && e == Hit(MatchOf(role, rule))
  }

  ghost predicate RulesMeet(role: string, rules: seq<Rule>, q: Query, e: Event) {
    exists rule :: rule in rules && RuleMeets(role, rule, q, e)
  }

  ghost predicate RoleMeets(roles: seq<Role>, name: string, q: Query, e: Event) {
    exists role :: role in roles && Trim(role.name) == name && RulesMeet(name, role.rules, q, e)
  }

  ghost predicate NameMeets(roles: seq<Role>, name: string, q: Query, e: Event) {
    e == Bound(Trim(name)) || RoleMeets(roles, Trim(name), q, e)
  }

  ghost predicate NamesMeet(roles: seq<Role>, names: seq<string>, q: Query, e: Event) {
    exists name :: name in names && NameMeets(roles, name, q, e)
  }

  ghost predicate BindingMeets(roles: seq<Role>, b: Binding, s: Subject, q: Query, e: Event) {
    Binds(q, b, s) && NamesMeet(roles, b.roles, q, e)
  }

  ghost predicate BindingsMeet(roles: seq<Role>, bindings: seq<Binding>, s: Subject, q: Query, e: Event) {
    exists b :: b in bindings && BindingMeets(roles, b, s, q, e)
  }

  /** One of the subjects is bound to the event's role. */
  ghost predicate Meets(spec: Spec, subjects: seq<Subject>, q: Query, e: Event) {
    exists s :: s in subjects && Present(s) && BindingsMeet(spec.roles, spec.bindings, Normal(s), q, e)
  }

  /** Some rule of that effect matches the query in a role bound to one of the subjects. */
  ghost predicate Fires(spec: Spec, subjects: seq<Subject>, q: Query, effect: string) {
    exists use: Match :: use.effect == effect && Meets(spec, subjects, q, Hit(use))
  }

  /** Deny overrides allow, and nothing is allowed by default. */
  ghost predicate Allows(spec: Spec, subjects: seq<Subject>, q: Query) {
    Fires(spec, subjects, q, "allow") && !Fires(spec, subjects, q, "deny")
  }

  ghost predicate Answerable(spec: Spec, subjects: seq<Subject>, resource: string, action: string) {
    && SpecValid(spec) && Trim(resource) != "" && Trim(action) != ""
    && exists s :: s in subjects && Present(s)
  }

  // ---- Rearranging a specification ----------------------------------------------------

  ghost predicate Within<T>(a: seq<T>, b: seq<T>) {
    forall x :: x in a ==> x in b
  }

  ghost predicate BindingWithin(b: Binding, c: Binding) {
    b.name == c.name && Within(b.subjects, c.subjects) && Within(b.roles, c.roles)
  }

  ghost predicate RoleWithin(r: Role, t: Role) {
    Trim(r.name) == Trim(t.name) && Within(r.rules, t.rules)
  }

  ghost predicate BindingCovered(b: Binding, bindings: seq<Binding>) {
    exists c :: c in bindings && BindingWithin(b, c) && BindingWithin(c, b)
  }

  ghost predicate RoleCovered(r: Role, roles: seq<Role>) {
    exists t :: t in roles && RoleWithin(r, t) && RoleWithin(t, r)
  }

  /** Every role and binding of `a` has one in `b` with the same members, whatever their order and
      number of occurrences. */
  ghost predicate Covered(a: Spec, b: Spec) {
    && (forall r :: r in a.roles ==> RoleCovered(r, b.roles))
    && (forall c :: c in a.bindings ==> BindingCovered(c, b.bindings))
  }

  ghost predicate SubjectCovered(s: Subject, subjects: seq<Subject>) {
    exists t :: t in subjects && Normal(t) == Normal(s)
  }

  ghost predicate SubjectsCovered(a: seq<Subject>, b: seq<Subject>) {
    forall s :: s in a && Present(s) ==> SubjectCovered(s, b)
  }

  lemma RoleMeetsCovered(a: Spec, b: Spec, name: string, q: Query, e: Event)
    requires Covered(a, b) && RoleMeets(a.roles, name, q, e)
    ensures RoleMeets(b.roles, name, q, e)
  {
    hide RuleMeets, Trim, BindingCovered;
    var r :| r in a.roles && Trim(r.name) == name && RulesMeet(name, r.rules, q, e);
    assert RoleCovered(r, b.roles);
    var t :| t in b.roles && RoleWithin(r, t) && RoleWithin(t, r);
    assert RulesMeet(name, t.rules, q, e);
  }

  lemma BindsWithin(b: Binding, c: Binding, q: Query, s: Subject)
    requires BindingWithin(b, c) && Binds(q, b, s)
    ensures Binds(q, c, s)
  {
    hide SubjectFits;
    var i :| 0 <= i < |b.subjects| && SubjectFits(q, b.subjects[i], s);
    assert b.subjects[i] in b.subjects;
  }

  lemma NamesMeetCovered(a: Spec, b: Spec, c: Binding, d: Binding, q: Query, e: Event)
    requires Covered(a, b) && BindingWithin(c, d) && NamesMeet(a.roles, c.roles, q, e)
    ensures NamesMeet(b.roles, d.roles, q, e)
  {
    hide RoleMeets, Covered, Trim;
    var name :| name in c.roles && NameMeets(a.roles, name, q, e);
    if e != Bound(Trim(name)) {
      RoleMeetsCovered(a, b, Trim(name), q, e);
    }
    assert NameMeets(b.roles, name, q, e);
  }

  lemma BindingsMeetCovered(a: Spec, b: Spec, s: Subject, q: Query, e: Event)
    requires Covered(a, b) && BindingsMeet(a.roles, a.bindings, s, q, e)
    ensures BindingsMeet(b.roles, b.bindings, s, q, e)
  {
    hide NamesMeet, Binds, RoleCovered;
    var c :| c in a.bindings && BindingMeets(a.roles, c, s, q, e);
    assert BindingCovered(c, b.bindings);
    var d :| d in b.bindings && BindingWithin(c, d) && BindingWithin(d, c);
    BindsWithin(c, d, q, s);
    NamesMeetCovered(a, b, c, d, q, e);
    assert BindingMeets(b.roles, d, s, q, e);
  }

  /** Whatever is met in a specification is met in one that covers it. */
  lemma MeetsCovered(a: Spec, b: Spec, ss: seq<Subject>, ts: seq<Subject>, q: Query, e: Event)
    requires Covered(a, b) && SubjectsCovered(ss, ts) && Meets(a, ss, q, e)
    ensures Meets(b, ts, q, e)
  {
    hide Covered, BindingsMeet, Normal;
    var s :| s in ss && Present(s) && BindingsMeet(a.roles, a.bindings, Normal(s), q, e);
    assert SubjectCovered(s, ts);
    var t :| t in ts && Normal(t) == Normal(s);
    BindingsMeetCovered(a, b, Normal(s), q, e);
  }

  /** Reordering or repeating subjects, bindings, a binding's subjects and role names, rules and roles
      changes neither what an evaluation meets nor its verdict. */
  lemma Rearranged(a: Spec, b: Spec, ss: seq<Subject>, ts: seq<Subject>, q: Query)
    requires Covered(a, b) && Covered(b, a) && SubjectsCovered(ss, ts) && SubjectsCovered(ts, ss)
    ensures forall e :: Meets(a, ss, q, e) <==> Meets(b, ts, q, e)
    ensures Allows(a, ss, q) <==> Allows(b, ts, q)
  {
    hide Covered, SubjectsCovered, Meets;
    forall e ensures Meets(a, ss, q, e) <==> Meets(b, ts, q, e) {
      if Meets(a, ss, q, e) { MeetsCovered(a, b, ss, ts, q, e); }
      if Meets(b, ts, q, e) { MeetsCovered(b, a, ts, ss, q, e); }
    }
  }

  lemma RoleValidCovered(r: Role, t: Role)
    requires RoleWithin(r, t) && RoleWithin(t, r) && RoleValid(r)
    ensures RoleValid(t)
  {
    hide RuleValid, Trim;
    assert r.rules[0] in t.rules;
    forall i | 0 <= i < |t.rules| ensures RuleValid(t.rules[i]) {
      assert t.rules[i] in r.rules;
    }
  }

  lemma RoleKnownCovered(a: Spec, b: Spec, name: string)
    requires Covered(a, b) && RoleKnown(a.roles, name)
    ensures RoleKnown(b.roles, name)
  {
    hide Trim, BindingCovered, Within;
    var i :| 0 <= i < |a.roles| && Trim(a.roles[i].name) == Trim(name);
    assert a.roles[i] in a.roles;
    assert RoleCovered(a.roles[i], b.roles);
  }

  lemma BindingValidCovered(a: Spec, b: Spec, c: Binding, d: Binding)
    requires Covered(a, b) && BindingWithin(c, d) && BindingWithin(d, c) && BindingValid(c, a.roles)
    ensures BindingValid(d, b.roles)
  {
    hide Trim, Covered, RoleKnown, SubjectGiven;
    assert c.subjects[0] in d.subjects && c.roles[0] in d.roles;
    forall i | 0 <= i < |d.subjects| ensures SubjectGiven(d.subjects[i]) {
      assert d.subjects[i] in c.subjects;
    }
    forall i | 0 <= i < |d.roles| ensures RoleKnown(b.roles, d.roles[i]) {
      assert d.roles[i] in c.roles;
      RoleKnownCovered(a, b, d.roles[i]);
    }
  }

  /** A rearranged specification is valid with the other as long as its roles stay unique. */
  lemma ValidRearranged(a: Spec, b: Spec)
    requires Covered(a, b) && Covered(b, a) && SpecValid(a) && UniqueRoles(b.roles)
    ensures SpecValid(b)
  {
    hide RoleValid, BindingValid, RoleWithin, BindingWithin, UniqueRoles;
    assert a.roles[0] in a.roles && RoleCovered(a.roles[0], b.roles);
    forall i | 0 <= i < |b.roles| ensures RoleValid(b.roles[i]) {
      assert b.roles[i] in b.roles && RoleCovered(b.roles[i], a.roles);
      var r :| r in a.roles && RoleWithin(b.roles[i], r) && RoleWithin(r, b.roles[i]);
      RoleValidCovered(r, b.roles[i]);
    }
    forall i | 0 <= i < |b.bindings| ensures BindingValid(b.bindings[i], b.roles) {
      assert b.bindings[i] in b.bindings && BindingCovered(b.bindings[i], a.bindings);
      var c :| c in a.bindings && BindingWithin(b.bindings[i], c) && BindingWithin(c, b.bindings[i]);
      BindingValidCovered(a, b, c, b.bindings[i]);
    }
  }

  /** A rearranged request is answered with the other. */
  lemma AnswerableRearranged(a: Spec, b: Spec, ss: seq<Subject>, ts: seq<Subject>, resource: string, action: string)
    requires Covered(a, b) && Covered(b, a) && SubjectsCovered(ss, ts) && UniqueRoles(b.roles)
    requires Answerable(a, ss, resource, action)
    ensures Answerable(b, ts, resource, action)
  {
    ValidRearranged(a, b);
    hide SpecValid, Covered, Normal, Trim, UniqueRoles;
    var s :| s in ss && Present(s);
    assert SubjectCovered(s, ts);
    var t :| t in ts && Normal(t) == Normal(s);
    assert Present(t);
  }
}
