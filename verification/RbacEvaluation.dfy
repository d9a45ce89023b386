/** Evaluating an RBAC request: the nested loops over subjects, bindings, role names and rules, and the
    proof that the flags they accumulate are the declarative verdict. */
module RbacEvaluation {
  import opened Rbac
  import opened RbacText
  import opened Text
  import opened Wrappers

  datatype Verdict = Verdict(allowed: bool, roles: seq<string>, rules: seq<Match>)

  // ---- What the loops meet ------------------------------------------------------------

  ghost function RulesEvents(role: string, rules: seq<Rule>, q: Query): seq<Event> {
    if rules == [] then []
    else
      var rule := rules[|rules| - 1];
      RulesEvents(role, rules[..|rules| - 1], q) + (if RuleMatches(rule, q) then [Hit(MatchOf(role, rule))] else [])
  }

  /** The rules the role index holds for a name: those of the last role of that name. */
  ghost function RulesOf(roles: seq<Role>, name: string): seq<Rule> {
    if roles == [] then []
    else if Trim(roles[|roles| - 1].name) == name then roles[|roles| - 1].rules
    else RulesOf(roles[..|roles| - 1], name)
  }

  ghost function NamesEvents(roles: seq<Role>, names: seq<string>, q: Query): seq<Event> {
    if names == [] then []
    else
      var name := Trim(names[|names| - 1]);
      NamesEvents(roles, names[..|names| - 1], q) + ([Bound(name)] + RulesEvents(name, RulesOf(roles, name), q))
  }

  ghost function BindingsEvents(roles: seq<Role>, bindings: seq<Binding>, s: Subject, q: Query): seq<Event> {
    if bindings == [] then []
    else
      var b := bindings[|bindings| - 1];
      BindingsEvents(roles, bindings[..|bindings| - 1], s, q) + (if Binds(q, b, s) then NamesEvents(roles, b.roles, q) else [])
  }

  ghost function Events(spec: Spec, normals: seq<Subject>, q: Query): seq<Event> {
    if normals == [] then []
    else
      Events(spec, normals[..|normals| - 1], q) + BindingsEvents(spec.roles, spec.bindings, normals[|normals| - 1], q)
  }

  // ---- What is kept of it -------------------------------------------------------------

  function Join(texts: seq<string>, sep: string): string {
    if texts == [] then "" else if |texts| == 1 then texts[0] else Join(texts[..|texts| - 1], sep) + sep + texts[|texts| - 1]
  }

  /** rbacRuleMatchKey. */
  function Key(m: Match): string {
    Join([m.role, m.effect, m.description, Join(m.resources, ","), Join(m.actions, ",")], "|")
  }

  /** Two matches that count as the same: equal role, effect and description, and lists equal once joined. */
  ghost predicate SameEntry(m: Match, n: Match) {
    m.role + "|" + m.effect + "|" + m.description + "|" + Joined(m.resources, ',') + "|" + Joined(m.actions, ',') ==
    n.role + "|" + n.effect + "|" + n.description + "|" + Joined(n.resources, ',') + "|" + Joined(n.actions, ',')
  }

  lemma {:induction false} JoinedSnoc(texts: seq<string>, last: string)
    requires texts != []
    ensures Joined(texts + [last], ',') == Joined(texts, ',') + [','] + last
  {
    var all := texts + [last];
    if |texts| == 1 {
      assert all[1..] == [last];
    } else {
      JoinedSnoc(texts[1..], last);
      assert all[1..] == texts[1..] + [last];
      var rest := Joined(texts[1..], ',');
      assert texts[0] + [','] + (rest + [','] + last) == texts[0] + [','] + rest + [','] + last;
    }
  }

  lemma {:induction false} JoinIsJoined(texts: seq<string>)
    ensures Join(texts, ",") == Joined(texts, ',')
  {
    if |texts| > 1 {
      var front, last := texts[..|texts| - 1], texts[|texts| - 1];
      assert texts == front + [last];
      JoinIsJoined(front);
      JoinedSnoc(front, last);
    }
  }

  lemma JoinFive(a: string, b: string, c: string, d: string, e: string)
    ensures Join([a, b, c, d, e], "|") == a + "|" + b + "|" + c + "|" + d + "|" + e
  {
    assert [a, b][..1] == [a] && [a, b, c][..2] == [a, b] && [a, b, c, d][..3] == [a, b, c] && [a, b, c, d, e][..4] == [a, b, c, d];
    assert Join([a, b], "|") == a + "|" + b;
    assert Join([a, b, c], "|") == a + "|" + b + "|" + c;
    assert Join([a, b, c, d], "|") == a + "|" + b + "|" + c + "|" + d;
  }

  lemma KeyIs(m: Match, n: Match)
    ensures Key(m) == Key(n) <==> SameEntry(m, n)
  {
    JoinIsJoined(m.resources);
    JoinIsJoined(m.actions);
    JoinIsJoined(n.resources);
    JoinIsJoined(n.actions);
    JoinFive(m.role, m.effect, m.description, Join(m.resources, ","), Join(m.actions, ","));
    JoinFive(n.role, n.effect, n.description, Join(n.resources, ","), Join(n.actions, ","));
    hide Join, Joined;
  }

  /** The accumulated state: names and rules in order of first use, and the two flags. */
  datatype Trace = Trace(roles: seq<string>, rules: seq<Match>, keys: set<string>, allow: bool, deny: bool)

  const START := Trace([], [], {}, false, false)

  function Note(t: Trace, e: Event): Trace {
    match e
    case Bound(role) => if role in t.roles then t else t.(roles := t.roles + [role])
    case Hit(m) =>
      var noted := if Key(m) in t.keys then t else t.(rules := t.rules + [m], keys := t.keys + {Key(m)});
      noted.(allow := t.allow || m.effect == "allow", deny := t.deny || m.effect == "deny")
  }

  ghost function Noted(events: seq<Event>): Trace {
    if events == [] then START else Note(Noted(events[..|events| - 1]), events[|events| - 1])
  }

  lemma NotedSnoc(events: seq<Event>, e: Event)
    ensures Noted(events + [e]) == Note(Noted(events), e)
  {
    assert (events + [e])[..|events|] == events;
  }

  ghost predicate HitsEffect(events: seq<Event>, effect: string) {
    exists i :: 0 <= i < |events| && events[i].Hit? && events[i].use.effect == effect
  }

  ghost predicate Listed(rules: seq<Match>, key: string) {
    exists i :: 0 <= i < |rules| && Key(rules[i]) == key
  }

  lemma ListedSnoc(rules: seq<Match>, m: Match, key: string)
    ensures Listed(rules + [m], key) <==> Listed(rules, key) || Key(m) == key
  {
    hide Key;
    assert (rules + [m])[|rules|] == m;
    if Listed(rules, key) {
      var i :| 0 <= i < |rules| && Key(rules[i]) == key;
      assert (rules + [m])[i] == rules[i];
    }
  }

  /** What a trace says about the events behind it: its flags, its role names and its rules. */
  ghost predicate Reports(t: Trace, events: seq<Event>) {
    ReportsFlags(t, events) && ReportsRoles(t.roles, events) && ReportsRules(t.rules, t.keys, events)
  }

  ghost predicate ReportsFlags(t: Trace, events: seq<Event>) {
    (t.allow <==> HitsEffect(events, "allow")) && (t.deny <==> HitsEffect(events, "deny"))
  }

  ghost predicate ReportsRoles(roles: seq<string>, events: seq<Event>) {
    && (forall r :: r in roles <==> Bound(r) in events)
    && (forall i, j :: 0 <= i < j < |roles| ==> roles[i] != roles[j])
  }

  ghost predicate ReportsRules(rules: seq<Match>, keys: set<string>, events: seq<Event>) {
    && (forall m :: m in rules ==> Hit(m) in events)
    && (forall m :: Hit(m) in events ==> Listed(rules, Key(m)))
    && (forall k :: k in keys <==> Listed(rules, k))
    && (forall i, j :: 0 <= i < j < |rules| ==> Key(rules[i]) != Key(rules[j]))
  }

  /** The trace names each bound role once, and one rule for every distinct match key. */
  lemma {:induction false} NotedReports(events: seq<Event>)
    ensures Reports(Noted(events), events)
  {
    if events != [] {
      var front, e := events[..|events| - 1], events[|events| - 1];
      NotedReports(front);
      assert events == front + [e];
      hide Key, Noted;
      NoteReports(Noted(front), front, e);
      NotedSnoc(front, e);
    }
  }

  lemma HitsSnoc(events: seq<Event>, e: Event, effect: string)
    ensures HitsEffect(events + [e], effect) <==> HitsEffect(events, effect) || (e.Hit? && e.use.effect == effect)
  {
    var all := events + [e];
    assert all[|events|] == e;
    if HitsEffect(events, effect) {
      var i :| 0 <= i < |events| && events[i].Hit? && events[i].use.effect == effect;
      assert all[i] == events[i];
    }
  }

  lemma NoteReports(t: Trace, events: seq<Event>, e: Event)
    requires Reports(t, events)
    ensures Reports(Note(t, e), events + [e])
  {
    HitsSnoc(events, e, "allow");
    HitsSnoc(events, e, "deny");
    hide HitsEffect, Key, Listed;
    match e
    case Bound(role) =>
    case Hit(m) =>
      NoteRule(t, events, m);
      hide ReportsRules;
  }

  lemma NoteRule(t: Trace, events: seq<Event>, m: Match)
    requires ReportsRules(t.rules, t.keys, events)
    ensures var t' := Note(t, Hit(m)); ReportsRules(t'.rules, t'.keys, events + [Hit(m)])
  {
    hide Key;
    forall k ensures Listed(t.rules + [m], k) <==> Listed(t.rules, k) || Key(m) == k {
      ListedSnoc(t.rules, m, k);
    }
    if Key(m) !in t.keys {
      forall i | 0 <= i < |t.rules| ensures Key(t.rules[i]) != Key(m) {
        assert Listed(t.rules, Key(t.rules[i]));
      }
    }
    hide Listed;
  }

  // ---- The events are the declarative ones --------------------------------------------

  lemma {:induction false} RulesEventsMet(role: string, rules: seq<Rule>, q: Query, e: Event)
    ensures e in RulesEvents(role, rules, q) <==> RulesMeet(role, rules, q, e)
  {
    hide RuleMatches, MatchOf;
    if rules != [] {
      var front, rule := rules[..|rules| - 1], rules[|rules| - 1];
      RulesEventsMet(role, front, q, e);
      assert rules == front + [rule];
      assert RulesMeet(role, rules, q, e) <==> RulesMeet(role, front, q, e) || RuleMeets(role, rule, q, e) by {
        hide RuleMeets;
      }
    }
  }

  lemma {:induction false} RulesOfMet(roles: seq<Role>, name: string, q: Query, e: Event)
    requires UniqueRoles(roles)
    ensures RulesMeet(name, RulesOf(roles, name), q, e) <==> RoleMeets(roles, name, q, e)
  {
    hide RuleMeets, Trim;
    if roles != [] {
      var front, role := roles[..|roles| - 1], roles[|roles| - 1];
      RulesOfMet(front, name, q, e);
      assert roles == front + [role];
      if Trim(role.name) == name {
        assert forall r :: r in front ==> Trim(r.name) != name;
      }
    }
  }

  lemma {:induction false} NamesEventsMet(roles: seq<Role>, names: seq<string>, q: Query, e: Event)
    requires UniqueRoles(roles)
    ensures e in NamesEvents(roles, names, q) <==> NamesMeet(roles, names, q, e)
  {
    hide RulesMeet, RoleMeets, RulesEvents, RulesOf, Trim, UniqueRoles;
    if names != [] {
      var front, name := names[..|names| - 1], names[|names| - 1];
      NamesEventsMet(roles, front, q, e);
      assert names == front + [name];
      RulesEventsMet(Trim(name), RulesOf(roles, Trim(name)), q, e);
      RulesOfMet(roles, Trim(name), q, e);
      assert NamesMeet(roles, names, q, e) <==> NamesMeet(roles, front, q, e) || NameMeets(roles, name, q, e) by {
        hide NameMeets;
      }
    }
  }

  lemma {:induction false} BindingsEventsMet(roles: seq<Role>, bindings: seq<Binding>, s: Subject, q: Query, e: Event)
    requires UniqueRoles(roles)
    ensures e in BindingsEvents(roles, bindings, s, q) <==> BindingsMeet(roles, bindings, s, q, e)
  {
    hide NamesMeet, NamesEvents, Binds, UniqueRoles;
    if bindings != [] {
      var front, b := bindings[..|bindings| - 1], bindings[|bindings| - 1];
      BindingsEventsMet(roles, front, s, q, e);
      assert bindings == front + [b];
      NamesEventsMet(roles, b.roles, q, e);
      assert BindingsMeet(roles, bindings, s, q, e) <==> BindingsMeet(roles, front, s, q, e) || BindingMeets(roles, b, s, q, e) by {
        hide BindingMeets;
      }
    }
  }

  ghost predicate NormalsMeet(spec: Spec, normals: seq<Subject>, q: Query, e: Event) {
    exists n :: n in normals && BindingsMeet(spec.roles, spec.bindings, n, q, e)
  }

  lemma {:induction false} EventsMet(spec: Spec, normals: seq<Subject>, q: Query, e: Event)
    requires UniqueRoles(spec.roles)
    ensures e in Events(spec, normals, q) <==> NormalsMeet(spec, normals, q, e)
  {
    hide BindingsMeet, BindingsEvents, UniqueRoles;
    if normals != [] {
      var front, n := normals[..|normals| - 1], normals[|normals| - 1];
      EventsMet(spec, front, q, e);
      assert normals == front + [n];
      BindingsEventsMet(spec.roles, spec.bindings, n, q, e);
    }
  }

  // ---- Evaluation ---------------------------------------------------------------------

  /** The normalized subjects that count, each once. */
  ghost predicate NormalsOf(subjects: seq<Subject>, normals: seq<Subject>) {
    && (forall s :: s in subjects && Present(s) ==> Normal(s) in normals)
    && (forall n :: n in normals ==> Normalizes(subjects, n))
    && (forall i, j :: 0 <= i < j < |normals| ==> normals[i] != normals[j])
  }

  ghost predicate Normalizes(subjects: seq<Subject>, n: Subject) {
    exists s :: s in subjects && Present(s) && Normal(s) == n
  }

  ghost function Normals(subjects: seq<Subject>): seq<Subject> {
    if subjects == [] then []
    else
      var front, s := Normals(subjects[..|subjects| - 1]), subjects[|subjects| - 1];
      if Present(s) && Normal(s) !in front then front + [Normal(s)] else front
  }

  lemma {:induction false} NormalsAreNormal(subjects: seq<Subject>)
    ensures NormalsOf(subjects, Normals(subjects))
  {
    hide Normal;
    if subjects != [] {
      var front, s := subjects[..|subjects| - 1], subjects[|subjects| - 1];
      NormalsAreNormal(front);
      assert subjects == front + [s];
      forall n | n in Normals(subjects) ensures Normalizes(subjects, n) {
        if n in Normals(front) {
          assert Normalizes(front, n);
        }
      }
    }
  }

  /** normalizeAuthorizationSubjects, and the same loop in EvaluateRBACSubjects. */
  method NormalSubjects(subjects: seq<Subject>) returns (normals: seq<Subject>)
    ensures normals == Normals(subjects)
  {
    hide Normalize, Trim;
    normals := [];
    for i := 0 to |subjects|
      invariant normals == Normals(subjects[..i])
    {
      assert subjects[..i + 1][..i] == subjects[..i];
      var n := Normal(subjects[i]);
      if n.kind == "" || n.id == "" || n in normals {
        continue;
      }
      normals := normals + [n];
    }
    assert subjects[..|subjects|] == subjects;
  }

  lemma NormalsMeetSame(spec: Spec, subjects: seq<Subject>, normals: seq<Subject>, q: Query, e: Event)
    requires NormalsOf(subjects, normals)
    ensures NormalsMeet(spec, normals, q, e) <==> Meets(spec, subjects, q, e)
  {
    hide Normal, BindingsMeet;
  }

  /** The role index: trimmed names to rules. */
  method IndexRoles(roles: seq<Role>) returns (index: map<string, seq<Rule>>)
    ensures forall name :: (if name in index then index[name] else []) == RulesOf(roles, name)
  {
    hide Trim;
    index := map[];
    for i := 0 to |roles|
      invariant forall name :: (if name in index then index[name] else []) == RulesOf(roles[..i], name)
    {
      assert roles[..i + 1][..i] == roles[..i] && roles[..i + 1][i] == roles[i];
      index := index[Trim(roles[i].name) := roles[i].rules];
    }
    assert roles[..|roles|] == roles;
  }

  /** The verdict names exactly the bound roles, and one rule for each key among the matching ones. */
  ghost predicate Explains(v: Verdict, spec: Spec, subjects: seq<Subject>, q: Query) {
    ExplainsRoles(v.roles, spec, subjects, q) && ExplainsRules(v.rules, spec, subjects, q)
  }

  ghost predicate ExplainsRoles(roles: seq<string>, spec: Spec, subjects: seq<Subject>, q: Query) {
    && (forall r :: r in roles <==> Meets(spec, subjects, q, Bound(r)))
    && (forall i, j :: 0 <= i < j < |roles| ==> roles[i] != roles[j])
  }

  ghost predicate ExplainsRules(rules: seq<Match>, spec: Spec, subjects: seq<Subject>, q: Query) {
    && (forall m :: m in rules ==> Meets(spec, subjects, q, Hit(m)))
    && (forall m :: Meets(spec, subjects, q, Hit(m)) ==> Listed(rules, Key(m)))
    && (forall i, j :: 0 <= i < j < |rules| ==> Key(rules[i]) != Key(rules[j]))
  }

  lemma RulesEventsSnoc(role: string, rules: seq<Rule>, i: nat, q: Query)
    requires i < |rules|
    ensures RulesEvents(role, rules[..i + 1], q)
         == RulesEvents(role, rules[..i], q) + (if RuleMatches(rules[i], q) then [Hit(MatchOf(role, rules[i]))] else [])
  {
    hide RuleMatches, MatchOf;
    assert rules[..i + 1][..i] == rules[..i];
  }

  lemma NamesEventsSnoc(roles: seq<Role>, names: seq<string>, i: nat, q: Query)
    requires i < |names|
    ensures NamesEvents(roles, names[..i + 1], q)
         == NamesEvents(roles, names[..i], q) + ([Bound(Trim(names[i]))] + RulesEvents(Trim(names[i]), RulesOf(roles, Trim(names[i])), q))
  {
    hide RulesEvents, RulesOf, Trim;
    assert names[..i + 1][..i] == names[..i];
  }

  lemma BindingsEventsSnoc(roles: seq<Role>, bindings: seq<Binding>, i: nat, s: Subject, q: Query)
    requires i < |bindings|
    ensures BindingsEvents(roles, bindings[..i + 1], s, q)
         == BindingsEvents(roles, bindings[..i], s, q) + (if Binds(q, bindings[i], s) then NamesEvents(roles, bindings[i].roles, q) else [])
  {
    hide NamesEvents, Binds;
    assert bindings[..i + 1][..i] == bindings[..i];
  }

  lemma EventsSnoc(spec: Spec, normals: seq<Subject>, i: nat, q: Query)
    requires i < |normals|
    ensures Events(spec, normals[..i + 1], q)
         == Events(spec, normals[..i], q) + BindingsEvents(spec.roles, spec.bindings, normals[i], q)
  {
    hide BindingsEvents;
    assert normals[..i + 1][..i] == normals[..i];
  }

  lemma Nothing(spec: Spec, normals: seq<Subject>, s: Subject, b: Binding, role: string, rules: seq<Rule>, q: Query)
    ensures Events(spec, normals[..0], q) == [] && Noted([]) == START
    ensures BindingsEvents(spec.roles, spec.bindings[..0], s, q) == []
    ensures NamesEvents(spec.roles, b.roles[..0], q) == []
    ensures RulesEvents(role, rules[..0], q) == []
  {
  }

  /** The nested loops over subjects, bindings, role names and rules. */
  method Accumulate(spec: Spec, normals: seq<Subject>, q: Query) returns (t: Trace)
    ensures t == Noted(Events(spec, normals, q))
  {
    var index := IndexRoles(spec.roles);
    hide *;
    t := START;
    ghost var events := [];
    Nothing(spec, normals, Subject("", ""), Binding("", [], []), "", [], q);
    for i := 0 to |normals|
      invariant t == Noted(events) && events == Events(spec, normals[..i], q)
    {
      ghost var e0 := events;
      var subject := normals[i];
      Nothing(spec, normals, subject, Binding("", [], []), "", [], q);
      for j := 0 to |spec.bindings|
        invariant t == Noted(events) && events == e0 + BindingsEvents(spec.roles, spec.bindings[..j], subject, q)
      {
        ghost var e1 := events;
        var binding := spec.bindings[j];
        BindingsEventsSnoc(spec.roles, spec.bindings, j, subject, q);
        Nothing(spec, normals, subject, binding, "", [], q);
        var binds := BindingMatchesSubject(q, binding, subject);
        if !binds {
          continue;
        }
        for k := 0 to |binding.roles|
          invariant t == Noted(events) && events == e1 + NamesEvents(spec.roles, binding.roles[..k], q)
        {
          var name := Trim(binding.roles[k]);
          var rules := if name in index then index[name] else [];
          NamesEventsSnoc(spec.roles, binding.roles, k, q);
          Nothing(spec, normals, subject, binding, name, rules, q);
          t, events := NoteEvent(t, events, Bound(name));
          ghost var e2 := events;
          for l := 0 to |rules|
            invariant t == Noted(events) && events == e2 + RulesEvents(name, rules[..l], q)
          {
            RulesEventsSnoc(name, rules, l, q);
            if RuleMatches(rules[l], q) {
              t, events := NoteEvent(t, events, Hit(MatchOf(name, rules[l])));
            }
          }
          assert rules[..|rules|] == rules;
        }
        assert binding.roles[..|binding.roles|] == binding.roles;
      }
      assert spec.bindings[..|spec.bindings|] == spec.bindings;
      EventsSnoc(spec, normals, i, q);
    }
    assert normals[..|normals|] == normals;
  }

  /** One update of the lists and flags. */
  method NoteEvent(t: Trace, ghost events: seq<Event>, e: Event) returns (t': Trace, ghost events': seq<Event>)
    requires t == Noted(events)
    ensures events' == events + [e] && t' == Noted(events')
  {
    events' := events + [e];
    NotedSnoc(events, e);
    hide Noted, Key;
    match e
    case Bound(role) =>
      t' := t;
      if role !in t.roles {
        t' := t'.(roles := t'.roles + [role]);
      }
    case Hit(use) =>
      t' := t;
      if Key(use) !in t'.keys {
        t' := t'.(rules := t'.rules + [use], keys := t'.keys + {Key(use)});
      }
      if use.effect == "deny" {
        t' := t'.(deny := true);
      }
      if use.effect == "allow" {
        t' := t'.(allow := true);
      }
  }

  /** EvaluateRBACSubjects: an error exactly for an invalid specification, a blank resource or action or
      no valid subject, and otherwise the deny-overrides verdict with what it rests on. */
  method EvaluateRbacSubjects(spec: Spec, subjects: seq<Subject>, q: Query) returns (r: Option<Verdict>)
    ensures r.Some? <==> Answerable(spec, subjects, q.resource, q.action)
    ensures r.Some? ==> (r.value.allowed <==> Allows(spec, subjects, Asked(q)))
    ensures r.Some? ==>
              var asked := q.(resource := Trim(q.resource), action := Trim(q.action));
              r.value.allowed <==> Reached(spec, subjects, asked, {"", "allow"}) && !Reached(spec, subjects, asked, {"deny"})
    ensures r.Some? ==>
              var asked := q.(resource := Trim(q.resource), action := Trim(q.action));
              && (forall n :: n in r.value.roles <==> BoundTo(subjects, spec.bindings, asked, n))
              && (forall m :: m in r.value.rules ==> Cited(spec, subjects, asked, m))
              && (forall m :: Cited(spec, subjects, asked, m) ==> Mentioned(r.value.rules, m))
    ensures r.Some? ==> Explains(r.value, spec, subjects, Asked(q))
  {
    hide Trim, Normalize, UniqueRoles, RoleValid, BindingValid;
    var valid := ValidateRbacSpec(spec);
    if !valid {
      return None;
    }
    var asked := Asked(q);
    if asked.resource == "" || asked.action == "" {
      return None;
    }
    var normals := NormalSubjects(subjects);
    NormalsAreNormal(subjects);
    hide Normals;
    if |normals| == 0 {
      return None;
    }
    assert Normalizes(subjects, normals[0]);
    var t := Accumulate(spec, normals, asked);
    r := Some(Verdict(!t.deny && t.allow, t.roles, t.rules));
    EvaluationExplained(spec, subjects, normals, asked, t);
    VerdictText(spec, subjects, asked);
    ReportText(spec, subjects, asked, r.value);
    hide Allows, Explains, Reached, BoundTo, Cited, Mentioned;
  }

  /** The list has an entry that counts as the match. */
  ghost predicate Mentioned(rules: seq<Match>, m: Match) {
    exists n :: n in rules && SameEntry(n, m)
  }

  /** The report in terms of the text. */
  lemma ReportText(spec: Spec, subjects: seq<Subject>, q: Query, v: Verdict)
    requires Explains(v, spec, subjects, q)
    ensures forall n :: n in v.roles <==> BoundTo(subjects, spec.bindings, q, n)
    ensures forall m :: m in v.rules ==> Cited(spec, subjects, q, m)
    ensures forall m :: Cited(spec, subjects, q, m) ==> Mentioned(v.rules, m)
  {
    forall m | Cited(spec, subjects, q, m) ensures Mentioned(v.rules, m) {
      hide Meets, Cited, Key, SameEntry;
      CitedIsMet(spec, subjects, q, m);
      assert Listed(v.rules, Key(m));
      var i :| 0 <= i < |v.rules| && Key(v.rules[i]) == Key(m);
      KeyIs(v.rules[i], m);
      assert v.rules[i] in v.rules;
    }
    hide Meets, BoundTo, Cited, Listed, Key, Mentioned;
    forall n ensures n in v.roles <==> BoundTo(subjects, spec.bindings, q, n) {
      BoundMet(spec, subjects, q, n);
    }
    forall m | m in v.rules ensures Cited(spec, subjects, q, m) {
      MetIsCited(spec, subjects, q, m);
    }
  }

  lemma EvaluationExplained(spec: Spec, subjects: seq<Subject>, normals: seq<Subject>, q: Query, t: Trace)
    requires UniqueRoles(spec.roles) && NormalsOf(subjects, normals) && t == Noted(Events(spec, normals, q))
    ensures t.allow && !t.deny <==> Allows(spec, subjects, q)
    ensures Explains(Verdict(!t.deny && t.allow, t.roles, t.rules), spec, subjects, q)
  {
    hide *;
    var events := Events(spec, normals, q);
    NotedReports(events);
    AllMet(spec, subjects, normals, q);
    ReportsExplain(spec, subjects, q, t, events);
  }

  lemma AllMet(spec: Spec, subjects: seq<Subject>, normals: seq<Subject>, q: Query)
    requires UniqueRoles(spec.roles) && NormalsOf(subjects, normals)
    ensures Met(spec, subjects, q, Events(spec, normals, q))
  {
    hide NormalsOf, UniqueRoles, Meets, NormalsMeet, Events;
    forall e ensures e in Events(spec, normals, q) <==> Meets(spec, subjects, q, e) {
      EventsMet(spec, normals, q, e);
      NormalsMeetSame(spec, subjects, normals, q, e);
    }
  }

  ghost predicate Met(spec: Spec, subjects: seq<Subject>, q: Query, events: seq<Event>) {
    forall e :: e in events <==> Meets(spec, subjects, q, e)
  }

  lemma ReportsExplain(spec: Spec, subjects: seq<Subject>, q: Query, t: Trace, events: seq<Event>)
    requires Reports(t, events) && Met(spec, subjects, q, events)
    ensures t.allow && !t.deny <==> Allows(spec, subjects, q)
    ensures Explains(Verdict(!t.deny && t.allow, t.roles, t.rules), spec, subjects, q)
  {
    EffectsMet(spec, subjects, q, events, "allow");
    EffectsMet(spec, subjects, q, events, "deny");
    hide Met, HitsEffect, Fires, ReportsRoles, ReportsRules, ExplainsRoles, ExplainsRules;
    RolesMet(spec, subjects, q, t.roles, events);
    RulesMet(spec, subjects, q, t.rules, t.keys, events);
  }

  lemma RolesMet(spec: Spec, subjects: seq<Subject>, q: Query, roles: seq<string>, events: seq<Event>)
    requires ReportsRoles(roles, events) && Met(spec, subjects, q, events)
    ensures ExplainsRoles(roles, spec, subjects, q)
  {
    hide Meets;
  }

  lemma RulesMet(spec: Spec, subjects: seq<Subject>, q: Query, rules: seq<Match>, keys: set<string>, events: seq<Event>)
    requires ReportsRules(rules, keys, events) && Met(spec, subjects, q, events)
    ensures ExplainsRules(rules, spec, subjects, q)
  {
    hide Meets, Listed, Key;
  }

  lemma EffectsMet(spec: Spec, subjects: seq<Subject>, q: Query, events: seq<Event>, effect: string)
    requires Met(spec, subjects, q, events)
    ensures HitsEffect(events, effect) <==> Fires(spec, subjects, q, effect)
  {
    hide Meets;
    if HitsEffect(events, effect) {
      var i :| 0 <= i < |events| && events[i].Hit? && events[i].use.effect == effect;
      assert events[i] in events && events[i] == Hit(events[i].use);
    }
    if Fires(spec, subjects, q, effect) {
      var use: Match :| use.effect == effect && Meets(spec, subjects, q, Hit(use));
      assert Hit(use) in events;
    }
  }
}
