/** The RBAC verdict read off the manifest's own text, independently of how the evaluation is put together. */
module RbacText {
  import opened Rbac
  import opened Text
  import opened Wrappers

  /** A pattern as written covers a value: as a glob, or up to case. */
  predicate Covers(q: Query, pattern: string, value: string) {
    Trim(pattern) != "" && (q.glob(Trim(pattern), value) == Some(true) || q.fold(Trim(pattern), value))
  }

  /** The rule reaches the subject: the binding lists a candidate that covers the subject and a name of the
      rule's role, and the rule covers what is asked for. */
  ghost predicate Reaches(q: Query, s: Subject, b: Binding, c: Subject, name: string, role: Role, rule: Rule) {
    && c in b.subjects && name in b.roles && rule in role.rules && Trim(role.name) == Trim(name)
    && Trim(s.kind) != "" && Trim(s.id) != ""
    && (Lower(Trim(c.kind)) == "*" || Covers(q, Lower(Trim(c.kind)), Lower(Trim(s.kind))))
    && (Trim(c.id) == "*" || Covers(q, Trim(c.id), Trim(s.id)))
    && (exists p :: p in rule.resources && Covers(q, p, q.resource))
    && (exists p :: p in rule.actions && Covers(q, p, q.action))
  }

  /** A rule with one of these effect texts, lower-cased and trimmed, reaches one of the subjects. */
  ghost predicate Reached(spec: Spec, subjects: seq<Subject>, q: Query, texts: set<string>) {
    exists s, b, c, name, role, rule ::
      s in subjects && b in spec.bindings && role in spec.roles && Reaches(q, s, b, c, name, role, rule) &&
      Lower(Trim(rule.effect)) in texts
  }

  lemma SamePattern(q: Query, pattern: string, value: string)
    ensures PatternFits(q, pattern, value) <==> Covers(q, pattern, value)
  {
    hide Trim;
  }

  lemma AnySame(q: Query, patterns: seq<string>, value: string)
    ensures AnyFits(q, patterns, value) <==> exists p :: p in patterns && Covers(q, p, value)
  {
    hide PatternFits, Covers;
    if AnyFits(q, patterns, value) {
      var i :| 0 <= i < |patterns| && PatternFits(q, patterns[i], value);
      SamePattern(q, patterns[i], value);
      assert patterns[i] in patterns;
    }
    if exists p :: p in patterns && Covers(q, p, value) {
      var p :| p in patterns && Covers(q, p, value);
      SamePattern(q, p, value);
    }
  }

  lemma PresentText(s: Subject)
    ensures Present(s) <==> Trim(s.kind) != "" && Trim(s.id) != ""
  {
    hide Trim;
    assert |Lower(Trim(s.kind))| == |Trim(s.kind)|;
  }

  lemma FitsText(q: Query, c: Subject, s: Subject)
    ensures SubjectFits(q, c, Normal(s)) <==>
            && (Lower(Trim(c.kind)) == "*" || Covers(q, Lower(Trim(c.kind)), Lower(Trim(s.kind))))
            && (Trim(c.id) == "*" || Covers(q, Trim(c.id), Trim(s.id)))
  {
    SamePattern(q, Lower(Trim(c.kind)), Lower(Trim(s.kind)));
    SamePattern(q, Trim(c.id), Trim(s.id));
    hide Trim, Lower, PatternFits, Covers;
  }

  /** The effect of a valid rule is the text it carries, an absent one meaning allow. */
  lemma EffectText(rule: Rule)
    requires RuleValid(rule)
    ensures Effect(rule.effect) == "deny" <==> Lower(Trim(rule.effect)) == "deny"
    ensures Effect(rule.effect) == "allow" <==> Lower(Trim(rule.effect)) == "" || Lower(Trim(rule.effect)) == "allow"
    ensures Lower(Trim(rule.effect)) in {"", "allow", "deny"}
  {
    hide Trim, Lower, NoneBlank;
    assert "deny"[0] != "allow"[0];
  }

  lemma ReachesIsMet(q: Query, s: Subject, b: Binding, c: Subject, name: string, role: Role, rule: Rule, roles: seq<Role>)
    requires Reaches(q, s, b, c, name, role, rule) && role in roles
    ensures Present(s) && BindingMeets(roles, b, Normal(s), q, Hit(MatchOf(Trim(name), rule)))
  {
    PresentText(s);
    FitsText(q, c, s);
    AnySame(q, rule.resources, q.resource);
    AnySame(q, rule.actions, q.action);
    hide Trim, Lower, SubjectFits, AnyFits, Covers, MatchOf, Normal;
    var i :| 0 <= i < |b.subjects| && b.subjects[i] == c;
    assert Binds(q, b, Normal(s));
    var e := Hit(MatchOf(Trim(name), rule));
    assert RuleMeets(Trim(name), rule, q, e);
    assert RulesMeet(Trim(name), role.rules, q, e);
    assert RoleMeets(roles, Trim(name), q, e);
    assert NameMeets(roles, name, q, e);
  }

  lemma MetReaches(roles: seq<Role>, b: Binding, s: Subject, q: Query, use: Match)
    returns (c: Subject, name: string, role: Role, rule: Rule)
    requires Present(s) && BindingMeets(roles, b, Normal(s), q, Hit(use))
    ensures role in roles && Reaches(q, s, b, c, name, role, rule) && use == MatchOf(Trim(name), rule)
  {
    hide Trim, Lower, SubjectFits, AnyFits, Covers, MatchOf, Normal;
    PresentText(s);
    var i :| 0 <= i < |b.subjects| && SubjectFits(q, b.subjects[i], Normal(s));
    c := b.subjects[i];
    FitsText(q, c, s);
    name :| name in b.roles && NameMeets(roles, name, q, Hit(use));
    assert RoleMeets(roles, Trim(name), q, Hit(use));
    role :| role in roles && Trim(role.name) == Trim(name) && RulesMeet(Trim(name), role.rules, q, Hit(use));
    rule :| rule in role.rules && RuleMeets(Trim(name), rule, q, Hit(use));
    AnySame(q, rule.resources, q.resource);
    AnySame(q, rule.actions, q.action);
  }

  lemma ValidRule(spec: Spec, role: Role, rule: Rule)
    requires SpecValid(spec) && role in spec.roles && rule in role.rules
    ensures RuleValid(rule)
  {
    hide RuleValid, UniqueRoles, BindingValid;
    var i :| 0 <= i < |spec.roles| && spec.roles[i] == role;
    assert RoleValid(spec.roles[i]);
  }

  lemma EffectOfMatch(name: string, rule: Rule)
    ensures MatchOf(name, rule).effect == Effect(rule.effect)
  {
  }

  lemma ReachedFires(spec: Spec, subjects: seq<Subject>, q: Query, texts: set<string>, effect: string)
    requires SpecValid(spec) && ((texts == {"deny"} && effect == "deny") || (texts == {"", "allow"} && effect == "allow"))
    requires Reached(spec, subjects, q, texts)
    ensures Fires(spec, subjects, q, effect)
  {
    hide SpecValid, Trim, Lower, BindingMeets, MatchOf, Normal;
    var s, b, c, name, role, rule :|
      s in subjects && b in spec.bindings && role in spec.roles && Reaches(q, s, b, c, name, role, rule) &&
      Lower(Trim(rule.effect)) in texts;
    ReachesIsMet(q, s, b, c, name, role, rule, spec.roles);
    ValidRule(spec, role, rule);
    EffectText(rule);
    EffectOfMatch(Trim(name), rule);
    hide Effect, RuleValid, Reaches;
    var use := MatchOf(Trim(name), rule);
    assert BindingsMeet(spec.roles, spec.bindings, Normal(s), q, Hit(use));
    assert Meets(spec, subjects, q, Hit(use));
  }

  lemma FiresReached(spec: Spec, subjects: seq<Subject>, q: Query, texts: set<string>, effect: string)
    requires SpecValid(spec) && ((texts == {"deny"} && effect == "deny") || (texts == {"", "allow"} && effect == "allow"))
    requires Fires(spec, subjects, q, effect)
    ensures Reached(spec, subjects, q, texts)
  {
    hide SpecValid, Trim, Lower, BindingMeets, MatchOf, Normal;
    var use: Match :| use.effect == effect && Meets(spec, subjects, q, Hit(use));
    var s :| s in subjects && Present(s) && BindingsMeet(spec.roles, spec.bindings, Normal(s), q, Hit(use));
    var b :| b in spec.bindings && BindingMeets(spec.roles, b, Normal(s), q, Hit(use));
    var c, name, role, rule := MetReaches(spec.roles, b, s, q, use);
    assert rule in role.rules;
    hide Reaches;
    ValidRule(spec, role, rule);
    EffectText(rule);
    EffectOfMatch(Trim(name), rule);
  }

  /** The verdict in terms of the text: some rule without effect or with allow reaches a subject, and none
      with deny does. */
  lemma VerdictText(spec: Spec, subjects: seq<Subject>, q: Query)
    requires SpecValid(spec)
    ensures Allows(spec, subjects, q) <==> Reached(spec, subjects, q, {"", "allow"}) && !Reached(spec, subjects, q, {"deny"})
  {
    hide SpecValid, Reached, Fires;
    if Reached(spec, subjects, q, {"", "allow"}) { ReachedFires(spec, subjects, q, {"", "allow"}, "allow"); }
    if Fires(spec, subjects, q, "allow") { FiresReached(spec, subjects, q, {"", "allow"}, "allow"); }
    if Reached(spec, subjects, q, {"deny"}) { ReachedFires(spec, subjects, q, {"deny"}, "deny"); }
    if Fires(spec, subjects, q, "deny") { FiresReached(spec, subjects, q, {"deny"}, "deny"); }
  }

  // ---- What is reported ---------------------------------------------------------------

  /** The match is that of a rule that reaches a subject, field by field. */
  ghost predicate Cited(spec: Spec, subjects: seq<Subject>, q: Query, m: Match) {
    exists s, b, c, name, role, rule ::
      s in subjects && b in spec.bindings && role in spec.roles && Reaches(q, s, b, c, name, role, rule) && Cites(name, rule, m)
  }

  ghost predicate Cites(name: string, rule: Rule, m: Match) {
    && m.role == Trim(name) && m.description == Trim(rule.description)
    && m.resources == rule.resources && m.actions == rule.actions
    && m.effect == if Lower(Trim(rule.effect)) == "" then "allow" else Lower(Trim(rule.effect))
  }

  lemma MetIsCited(spec: Spec, subjects: seq<Subject>, q: Query, m: Match)
    requires Meets(spec, subjects, q, Hit(m))
    ensures Cited(spec, subjects, q, m)
  {
    hide BindingMeets, Normal, Trim, Lower;
    var s :| s in subjects && Present(s) && BindingsMeet(spec.roles, spec.bindings, Normal(s), q, Hit(m));
    var b :| b in spec.bindings && BindingMeets(spec.roles, b, Normal(s), q, Hit(m));
    var c, name, role, rule := MetReaches(spec.roles, b, s, q, m);
    assert Cites(name, rule, m);
    hide Reaches, Cites;
  }

  lemma CitedIsMet(spec: Spec, subjects: seq<Subject>, q: Query, m: Match)
    requires Cited(spec, subjects, q, m)
    ensures Meets(spec, subjects, q, Hit(m))
  {
    hide BindingMeets, Normal, Trim, Lower, Reaches;
    var s, b, c, name, role, rule :|
      s in subjects && b in spec.bindings && role in spec.roles && Reaches(q, s, b, c, name, role, rule) && Cites(name, rule, m);
    ReachesIsMet(q, s, b, c, name, role, rule, spec.roles);
    assert m == MatchOf(Trim(name), rule);
    assert BindingsMeet(spec.roles, spec.bindings, Normal(s), q, Hit(m));
  }

  /** The role name is bound to one of the subjects. */
  ghost predicate BoundTo(subjects: seq<Subject>, bindings: seq<Binding>, q: Query, role: string) {
    exists s, b, c, name ::
      s in subjects && b in bindings && c in b.subjects && name in b.roles && Trim(name) == role && Lists(q, s, c)
  }

  ghost predicate Lists(q: Query, s: Subject, c: Subject) {
    && Trim(s.kind) != "" && Trim(s.id) != ""
    && (Lower(Trim(c.kind)) == "*" || Covers(q, Lower(Trim(c.kind)), Lower(Trim(s.kind))))
    && (Trim(c.id) == "*" || Covers(q, Trim(c.id), Trim(s.id)))
  }

  lemma ListsText(q: Query, s: Subject, c: Subject)
    ensures Lists(q, s, c) <==> Present(s) && SubjectFits(q, c, Normal(s))
  {
    PresentText(s);
    FitsText(q, c, s);
    hide Trim, Lower, Covers, SubjectFits, Normal, Present;
  }

  lemma BoundMet(spec: Spec, subjects: seq<Subject>, q: Query, role: string)
    ensures BoundTo(subjects, spec.bindings, q, role) <==> Meets(spec, subjects, q, Bound(role))
  {
    hide Lists, Present, SubjectFits, Normal, Trim, MatchOf, RuleMatches;
    if BoundTo(subjects, spec.bindings, q, role) {
      var s, b, c, name :|
        s in subjects && b in spec.bindings && c in b.subjects && name in b.roles && Trim(name) == role && Lists(q, s, c);
      ListsText(q, s, c);
      var i :| 0 <= i < |b.subjects| && b.subjects[i] == c;
      assert Binds(q, b, Normal(s));
      assert NameMeets(spec.roles, name, q, Bound(role));
      assert NamesMeet(spec.roles, b.roles, q, Bound(role));
      assert BindingMeets(spec.roles, b, Normal(s), q, Bound(role));
    }
    if Meets(spec, subjects, q, Bound(role)) {
      var s :| s in subjects && Present(s) && BindingsMeet(spec.roles, spec.bindings, Normal(s), q, Bound(role));
      var b :| b in spec.bindings && BindingMeets(spec.roles, b, Normal(s), q, Bound(role));
      var i :| 0 <= i < |b.subjects| && SubjectFits(q, b.subjects[i], Normal(s));
      ListsText(q, s, b.subjects[i]);
      var name :| name in b.roles && NameMeets(spec.roles, name, q, Bound(role));
      assert b.subjects[i] in b.subjects;
    }
  }

  // ---- What is valid ------------------------------------------------------------------

  predicate Written(texts: seq<string>) {
    |texts| > 0 && forall t :: t in texts ==> Trim(t) != ""
  }

  ghost predicate RuleWritten(rule: Rule) {
    Lower(Trim(rule.effect)) in {"", "allow", "deny"} && Written(rule.resources) && Written(rule.actions)
  }

  ghost predicate BindingWritten(b: Binding, roles: seq<Role>) {
    && Trim(b.name) != "" && |b.subjects| > 0 && |b.roles| > 0
    && (forall s :: s in b.subjects ==> Trim(s.kind) != "" && Trim(s.id) != "")
    && (forall n :: n in b.roles ==> exists role :: role in roles && Trim(role.name) == Trim(n))
  }

  lemma WrittenText(texts: seq<string>)
    ensures Written(texts) <==> texts != [] && NoneBlank(texts)
  {
    hide Trim;
    if NoneBlank(texts) {
      forall t | t in texts ensures Trim(t) != "" {
        var i :| 0 <= i < |texts| && texts[i] == t;
      }
    }
  }

  lemma RuleWrittenText(rule: Rule)
    ensures RuleWritten(rule) <==> RuleValid(rule)
  {
    WrittenText(rule.resources);
    WrittenText(rule.actions);
    hide Trim, Lower, NoneBlank, Written;
    if RuleValid(rule) {
      EffectText(rule);
    }
  }

  lemma BindingWrittenText(b: Binding, roles: seq<Role>)
    ensures BindingWritten(b, roles) <==> BindingValid(b, roles)
  {
    hide Trim;
    if BindingValid(b, roles) {
      forall s | s in b.subjects ensures Trim(s.kind) != "" && Trim(s.id) != "" {
        var i :| 0 <= i < |b.subjects| && b.subjects[i] == s;
        assert SubjectGiven(b.subjects[i]);
      }
      forall n | n in b.roles ensures exists role :: role in roles && Trim(role.name) == Trim(n) {
        var i :| 0 <= i < |b.roles| && b.roles[i] == n;
        assert RoleKnown(roles, b.roles[i]);
        var j :| 0 <= j < |roles| && Trim(roles[j].name) == Trim(n);
        assert roles[j] in roles;
      }
    }
    if BindingWritten(b, roles) {
      forall i | 0 <= i < |b.roles| ensures RoleKnown(roles, b.roles[i]) {
        assert b.roles[i] in b.roles;
        var role :| role in roles && Trim(role.name) == Trim(b.roles[i]);
        var j :| 0 <= j < |roles| && roles[j] == role;
      }
    }
  }

  ghost predicate RoleWritten(role: Role) {
    Trim(role.name) != "" && |role.rules| > 0 && forall rule :: rule in role.rules ==> RuleWritten(rule)
  }

  lemma RoleWrittenText(role: Role)
    ensures RoleWritten(role) <==> RoleValid(role)
  {
    hide RuleWritten, RuleValid, Trim;
    if RoleValid(role) {
      forall rule | rule in role.rules ensures RuleWritten(rule) {
        var i :| 0 <= i < |role.rules| && role.rules[i] == rule;
        RuleWrittenText(rule);
      }
    }
    if RoleWritten(role) {
      forall i | 0 <= i < |role.rules| ensures RuleValid(role.rules[i]) {
        assert role.rules[i] in role.rules;
        RuleWrittenText(role.rules[i]);
      }
    }
  }

  /** Validity of a specification, in terms of what is written in it. */
  lemma SpecText(spec: Spec)
    ensures SpecValid(spec) <==>
            && |spec.roles| > 0
            && (forall i, j :: 0 <= i < j < |spec.roles| ==> Trim(spec.roles[i].name) != Trim(spec.roles[j].name))
            && (forall role :: role in spec.roles ==> RoleWritten(role))
            && (forall b :: b in spec.bindings ==> BindingWritten(b, spec.roles))
  {
    hide RoleWritten, RoleValid, BindingWritten, BindingValid, Trim;
    forall i | 0 <= i < |spec.roles| ensures RoleWritten(spec.roles[i]) <==> RoleValid(spec.roles[i]) {
      RoleWrittenText(spec.roles[i]);
    }
    forall i | 0 <= i < |spec.bindings| ensures BindingWritten(spec.bindings[i], spec.roles) <==> BindingValid(spec.bindings[i], spec.roles) {
      BindingWrittenText(spec.bindings[i], spec.roles);
    }
    if SpecValid(spec) {
      forall role | role in spec.roles ensures RoleWritten(role) {
        var i :| 0 <= i < |spec.roles| && spec.roles[i] == role;
      }
      forall b | b in spec.bindings ensures BindingWritten(b, spec.roles) {
        var i :| 0 <= i < |spec.bindings| && spec.bindings[i] == b;
      }
    }
  }
}
