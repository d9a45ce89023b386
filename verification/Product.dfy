/** Product manifests and their validation. */
module Product {
  import opened Text
  import opened Values
  import opened Wrappers

  datatype Selector = Selector(manifestId: string, namespace: string, name: string, version: Option<int>)

  datatype Source = Source(
    kind: string, instanceRef: Option<Selector>, operation: string, capability: string, input: Object,
    locator: string, revision: string, version: string, objects: seq<Object>)

  datatype Renderer = Renderer(kind: string, path: string, include_: seq<string>, values: Object)

  datatype Target = Target(kind: string, instanceRef: Selector, namespace: string)

  datatype Reconcile = Reconcile(strategy: string, prune: bool, wait: bool)

  datatype Requirement = Requirement(kind: string, selector: Selector, state: string, policy: string, wait: bool)

  datatype Component = Component(
    name: string, description: string, source: Source, renderer: Renderer, target: Target, reconcile: Reconcile,
    needs: seq<Requirement>, dependsOn: seq<string>)

  datatype Spec = Spec(
    category: string, class_: string, owners: seq<string>, tier: string, stage: string, components: seq<Component>,
    dependencies: seq<string>)

  // ---- Fields -------------------------------------------------------------------------

  predicate NameChar(c: char) {
    'a' <= c <= 'z' || '0' <= c <= '9' || c == '.' || c == '_' || c == ':' || c == '-'
  }

  /** A normalized name matching ^[a-z0-9][a-z0-9._:-]*$ */
  predicate IsName(s: string) {
    s != "" && ('a' <= s[0] <= 'z' || '0' <= s[0] <= '9') && forall i :: 0 <= i < |s| ==> NameChar(s[i])
  }

  ghost predicate NamesValid(names: seq<string>) {
    && (forall i :: 0 <= i < |names| ==> IsName(Normalize(names[i])))
    && (forall i, j :: 0 <= i < j < |names| ==> Normalize(names[i]) != Normalize(names[j]))
  }

  /** validateNamedStringList. */
  method ValidateNames(names: seq<string>) returns (ok: bool)
    ensures ok <==> NamesValid(names)
  {
    hide Normalize, IsName;
    var seen: set<string> := {};
    for i := 0 to |names|
      invariant seen == set k | 0 <= k < i :: Normalize(names[k])
      invariant forall k :: 0 <= k < i ==> IsName(Normalize(names[k]))
      invariant forall k, l :: 0 <= k < l < i ==> Normalize(names[k]) != Normalize(names[l])
    {
      var name := Normalize(names[i]);
      if !IsName(name) || name in seen {
        return false;
      }
      seen := seen + {name};
    }
    return true;
  }

  predicate Blank(s: string) {
    Trim(s) == ""
  }

  /** validateManifestSelector. */
  predicate SelectorValid(s: Selector) {
    (!Blank(s.manifestId) || !Blank(s.name)) && (s.version.Some? ==> s.version.value > 0)
  }

  /** validateLooseObject. */
  predicate LooseValid(m: Object) {
    forall k :: k in m ==> Normalize(k) != ""
  }

  predicate LifecycleValid(tier: string, stage: string) {
    && (!Blank(tier) ==> IsName(Normalize(tier)))
    && (!Blank(stage) ==> Normalize(stage) in {"draft", "development", "staging", "production", "retired"})
  }

  // ---- Sources and renderers ----------------------------------------------------------

  predicate HasText(m: Object, k: string) {
    k in m && m[k].Str? && !Blank(m[k].text)
  }

  predicate ObjectsValid(objects: seq<Object>) {
    objects != [] && forall i :: 0 <= i < |objects| ==> HasText(objects[i], "apiVersion") && HasText(objects[i], "kind")
  }

  predicate InlineValid(s: Source) {
    && s.instanceRef.None? && Blank(s.operation) && Blank(s.capability) && s.input == map[]
    && Blank(s.locator) && Blank(s.revision) && Blank(s.version) && ObjectsValid(s.objects)
  }

  predicate RepositoryValid(s: Source) {
    && s.instanceRef.Some? && SelectorValid(s.instanceRef.value)
    && Blank(s.operation) && Blank(s.capability) && s.input == map[] && !Blank(s.locator) && s.objects == []
  }

  /** NormalizeProductSourceOperation. */
  function Operation(s: Source): string {
    if Normalize(s.kind) == "integration" && Normalize(s.operation) == "" then "generate_installation" else Normalize(s.operation)
  }

  /** NormalizeProductSourceCapability. */
  function Capability(s: Source): string {
    if Normalize(s.capability) != "" then Normalize(s.capability) else Operation(s)
  }

  predicate IntegrationValid(s: Source) {
    && s.instanceRef.Some? && SelectorValid(s.instanceRef.value)
    && Operation(s) == "generate_installation"
    && (Normalize(s.capability) != "" ==> IsName(Normalize(s.capability)))
    && LooseValid(s.input) && Blank(s.locator) && Blank(s.revision) && Blank(s.version) && s.objects == []
  }

  /** validateProductSource. */
  predicate SourceValid(s: Source) {
    var kind := Normalize(s.kind);
    if kind == "inline" then InlineValid(s)
    else if kind == "git" then RepositoryValid(s) && !Blank(s.revision) && Blank(s.version)
    else if kind == "oci" then RepositoryValid(s) && !Blank(s.version) && Blank(s.revision)
    else kind == "integration" && IntegrationValid(s)
  }

  /** validateProductRenderer, for a normalized source kind. */
  predicate RendererValid(source: string, r: Renderer) {
    var kind := Normalize(r.kind);
    if kind == "raw_k8s" then
      && r.values == map[]
      && if source == "inline" || source == "integration" then Blank(r.path) && r.include_ == []
         else source == "git" && (!Blank(r.path) || r.include_ != [])
    else if kind == "kustomize" then
      r.include_ == [] && r.values == map[] && source == "git" && !Blank(r.path)
    else
      && kind == "helm" && r.include_ == [] && LooseValid(r.values)
      && if source == "git" then !Blank(r.path) else source == "oci" && Blank(r.path)
  }

  // ---- Requirements -------------------------------------------------------------------

  /** NormalizeProductRequirementPolicy. */
  function PolicyOf(r: Requirement): string {
    if Normalize(r.policy) == "" then "must_exist" else Normalize(r.policy)
  }

  /** NormalizeProductRequirementState. */
  function StateOf(r: Requirement): string {
    if Normalize(r.state) != "" then Normalize(r.state)
    else if Normalize(r.kind) == "product" && PolicyOf(r) == "install_if_missing" then "materialized"
    else if Normalize(r.kind) == "integration_instance" then "active"
    else "declared"
  }

  function RequirementKey(r: Requirement): string {
    Normalize(r.kind) + ":" + r.selector.namespace + ":" + r.selector.name + ":" +
    Show(if r.selector.version.Some? then r.selector.version.value else 0) + ":" + StateOf(r) + ":" + PolicyOf(r)
  }

  predicate RequirementValid(r: Requirement) {
    && Normalize(r.kind) in {"product", "integration_instance", "resource"} && SelectorValid(r.selector)
    && StateOf(r) in {"declared", "active", "materialized"}
    && PolicyOf(r) in {"must_exist", "install_if_missing", "optional"}
  }

  ghost predicate RequirementsValid(rs: seq<Requirement>) {
    && (forall i :: 0 <= i < |rs| ==> RequirementValid(rs[i]))
    && (forall i, j :: 0 <= i < j < |rs| ==> RequirementKey(rs[i]) != RequirementKey(rs[j]))
  }

  /** validateProductRequirements. */
  method ValidateRequirements(rs: seq<Requirement>) returns (ok: bool)
    ensures ok <==> RequirementsValid(rs)
  {
    hide RequirementValid, RequirementKey;
    var seen: set<string> := {};
    for i := 0 to |rs|
      invariant seen == set k | 0 <= k < i :: RequirementKey(rs[k])
      invariant forall k :: 0 <= k < i ==> RequirementValid(rs[k])
      invariant forall k, l :: 0 <= k < l < i ==> RequirementKey(rs[k]) != RequirementKey(rs[l])
    {
      if !RequirementValid(rs[i]) || RequirementKey(rs[i]) in seen {
        return false;
      }
      seen := seen + {RequirementKey(rs[i])};
    }
    return true;
  }

  // ---- Components and the whole product -----------------------------------------------

  /** The checks on a component that do not look at its source. */
  ghost predicate FrameValid(c: Component) {
    && Normalize(c.target.kind) == "kubernetes" && SelectorValid(c.target.instanceRef)
    && (!Blank(c.reconcile.strategy) ==> Normalize(c.reconcile.strategy) in {"apply", "sync"})
    && RequirementsValid(c.needs) && NamesValid(c.dependsOn)
  }

  predicate PayloadValid(c: Component) {
    SourceValid(c.source) && RendererValid(Normalize(c.source.kind), c.renderer)
  }

  ghost predicate ComponentValid(c: Component) {
    Normalize(c.name) != "" && PayloadValid(c) && FrameValid(c)
  }

  function ComponentNames(cs: seq<Component>): seq<string> {
    seq(|cs|, i requires 0 <= i < |cs| => Normalize(cs[i].name))
  }

  predicate Dependent(names: seq<string>, name: string, dependency: string) {
    Normalize(dependency) in names && Normalize(dependency) != name
  }

  ghost predicate DependenciesKnown(cs: seq<Component>) {
    forall i, k :: 0 <= i < |cs| && 0 <= k < |cs[i].dependsOn| ==>
      Dependent(ComponentNames(cs), Normalize(cs[i].name), cs[i].dependsOn[k])
  }

  ghost predicate DistinctNames(names: seq<string>) {
    forall i, j :: 0 <= i < j < |names| ==> names[i] != names[j]
  }

  ghost predicate HeaderValid(spec: Spec) {
    && IsName(Normalize(spec.category)) && IsName(Normalize(spec.class_)) && NamesValid(spec.owners)
    && LifecycleValid(spec.tier, spec.stage) && NamesValid(spec.dependencies)
  }

  ghost predicate ProductValid(spec: Spec) {
    && HeaderValid(spec) && spec.components != []
    && DistinctNames(ComponentNames(spec.components))
    && (forall i :: 0 <= i < |spec.components| ==> ComponentValid(spec.components[i]))
    && DependenciesKnown(spec.components)
  }

  method ValidateComponent(c: Component) returns (ok: bool)
    ensures ok <==> ComponentValid(c)
  {
    hide Normalize, PayloadValid, RequirementsValid, NamesValid;
    if Normalize(c.name) == "" || !PayloadValid(c) {
      return false;
    }
    if Normalize(c.target.kind) != "kubernetes" || !SelectorValid(c.target.instanceRef) {
      return false;
    }
    if !Blank(c.reconcile.strategy) && Normalize(c.reconcile.strategy) !in {"apply", "sync"} {
      return false;
    }
    var needs := ValidateRequirements(c.needs);
    var names := ValidateNames(c.dependsOn);
    return needs && names;
  }

  method ValidateComponents(cs: seq<Component>) returns (ok: bool)
    ensures ok <==> DistinctNames(ComponentNames(cs)) && forall i :: 0 <= i < |cs| ==> ComponentValid(cs[i])
  {
    hide Normalize, ComponentValid;
    var seen: set<string> := {};
    var names := ComponentNames(cs);
    for i := 0 to |cs|
      invariant seen == set k | 0 <= k < i :: names[k]
      invariant forall k :: 0 <= k < i ==> ComponentValid(cs[k])
      invariant forall k, l :: 0 <= k < l < i ==> names[k] != names[l]
    {
      var ok := ValidateComponent(cs[i]);
      if names[i] in seen || !ok {
        return false;
      }
      seen := seen + {names[i]};
    }
    return true;
  }

  method ValidateDependencies(cs: seq<Component>) returns (ok: bool)
    ensures ok <==> DependenciesKnown(cs)
  {
    hide ComponentNames, Dependent, Normalize;
    var names := ComponentNames(cs);
    for i := 0 to |cs|
      invariant forall j, k :: 0 <= j < i && 0 <= k < |cs[j].dependsOn| ==> Dependent(names, Normalize(cs[j].name), cs[j].dependsOn[k])
    {
      for k := 0 to |cs[i].dependsOn|
        invariant forall l :: 0 <= l < k ==> Dependent(names, Normalize(cs[i].name), cs[i].dependsOn[l])
      {
        if !Dependent(names, Normalize(cs[i].name), cs[i].dependsOn[k]) {
          return false;
        }
      }
    }
    return true;
  }

  /** ValidateProductSpec. */
  method ValidateProductSpec(spec: Spec) returns (ok: bool)
    ensures ok <==> ProductValid(spec)
  {
    hide Normalize, IsName, NamesValid, LifecycleValid, ComponentNames, ComponentValid, DependenciesKnown;
    if !IsName(Normalize(spec.category)) || !IsName(Normalize(spec.class_)) {
      return false;
    }
    var owners := ValidateNames(spec.owners);
    var dependencies := ValidateNames(spec.dependencies);
    if !owners || !LifecycleValid(spec.tier, spec.stage) || !dependencies || |spec.components| == 0 {
      return false;
    }
    ok := ValidateComponents(spec.components);
    if ok {
      ok := ValidateDependencies(spec.components);
    }
  }

  // ---- Sources and renderers as tables ------------------------------------------------

  ghost predicate Says(m: Object, k: string) {
    exists text :: k in m && m[k] == Str(text) && Trim(text) != ""
  }

  /** Which fields a source of each kind has and does not have. */
  ghost predicate SourceTable(s: Source) {
    var kind := Lower(Trim(s.kind));
    && kind in {"inline", "git", "oci", "integration"}
    && (kind == "inline" <==> s.instanceRef == None)
    && (kind == "inline" <==> |s.objects| > 0)
    && (s.instanceRef.Some? ==>
          var ref := s.instanceRef.value;
          (Trim(ref.manifestId) != "" || Trim(ref.name) != "") && (ref.version == None || ref.version.value >= 1))
    && (forall m :: m in s.objects ==> Says(m, "apiVersion") && Says(m, "kind"))
    && (kind != "integration" ==> Trim(s.operation) == "" && Trim(s.capability) == "" && |s.input| == 0)
    && (kind == "git" || kind == "oci" <==> Trim(s.locator) != "")
    && (kind == "git" <==> Trim(s.revision) != "")
    && (kind == "oci" <==> Trim(s.version) != "")
    && (kind == "integration" ==>
          && Lower(Trim(s.operation)) in {"", "generate_installation"}
          && (Trim(s.capability) != "" ==> IsName(Lower(Trim(s.capability))))
          && forall k :: k in s.input ==> Trim(k) != "")
  }

  lemma LowerBlank(s: string)
    ensures Normalize(s) == "" <==> Trim(s) == ""
    ensures Normalize(s) == Lower(Trim(s))
  {
    hide Trim;
    assert |Lower(Trim(s))| == |Trim(s)|;
  }

  lemma ObjectsText(objects: seq<Object>)
    ensures ObjectsValid(objects) <==> |objects| > 0 && forall m :: m in objects ==> Says(m, "apiVersion") && Says(m, "kind")
  {
    hide Trim;
    forall m: Object, k: string ensures HasText(m, k) <==> Says(m, k) {
      assert k in m && m[k].Str? ==> m[k] == Str(m[k].text);
    }
    hide HasText, Says;
    if ObjectsValid(objects) {
      forall m | m in objects ensures Says(m, "apiVersion") && Says(m, "kind") {
        var i :| 0 <= i < |objects| && objects[i] == m;
      }
    }
  }

  lemma LooseText(m: Object)
    ensures LooseValid(m) <==> forall k :: k in m ==> Trim(k) != ""
  {
    forall k ensures Normalize(k) == "" <==> Trim(k) == "" {
      LowerBlank(k);
    }
    hide Normalize, Trim;
  }

  lemma KindsDiffer()
    ensures "inline" != "git" && "inline" != "oci" && "inline" != "integration" && "git" != "oci" && "git" != "integration" && "oci" != "integration"
  {
    assert |"inline"| == 6 && |"git"| == 3 && |"oci"| == 3 && |"integration"| == 11 && "git"[0] != "oci"[0];
  }

  lemma InlineTable(s: Source)
    requires Normalize(s.kind) == "inline"
    ensures InlineValid(s) <==> SourceTable(s)
  {
    LowerBlank(s.kind);
    ObjectsText(s.objects);
    KindsDiffer();
    hide Normalize, Lower, Trim, ObjectsValid, IsName, Says;
  }

  lemma RepositoryTable(s: Source)
    requires Normalize(s.kind) == "git" || Normalize(s.kind) == "oci"
    ensures SourceValid(s) <==> SourceTable(s)
  {
    LowerBlank(s.kind);
    KindsDiffer();
    hide Normalize, Lower, Trim, IsName, Says, InlineValid, IntegrationValid;
    assert s.objects == [] <==> |s.objects| == 0;
  }

  lemma IntegrationTable(s: Source)
    requires Normalize(s.kind) == "integration"
    ensures IntegrationValid(s) <==> SourceTable(s)
  {
    LowerBlank(s.kind);
    LowerBlank(s.operation);
    LowerBlank(s.capability);
    LooseText(s.input);
    KindsDiffer();
    hide Normalize, Lower, Trim, LooseValid, IsName, Says;
    assert s.objects == [] <==> |s.objects| == 0;
  }

  /** A source is valid exactly when it fits the table. */
  lemma SourceTableText(s: Source)
    ensures SourceValid(s) <==> SourceTable(s)
  {
    KindsDiffer();
    LowerBlank(s.kind);
    var kind := Normalize(s.kind);
    if kind == "inline" {
      InlineTable(s);
      hide SourceTable, InlineValid;
    } else if kind == "integration" {
      IntegrationTable(s);
      hide SourceTable, IntegrationValid;
    } else if kind == "git" || kind == "oci" {
      RepositoryTable(s);
      hide *;
    } else {
      hide Normalize, Lower, Trim, IsName, Says;
    }
  }

  /** Which renderers go with which sources. */
  predicate GoesWith(kind: string, source: string) {
    || (kind == "raw_k8s" && source in {"inline", "git", "integration"})
    || (kind == "kustomize" && source == "git")
    || (kind == "helm" && source in {"git", "oci"})
  }

  /** What a renderer may carry: values for helm, includes for plain objects from git, a path from git. */
  ghost predicate RendererTable(source: string, r: Renderer) {
    var kind := Lower(Trim(r.kind));
    && GoesWith(kind, source)
    && (|r.values| > 0 ==> kind == "helm") && (forall k :: k in r.values ==> Trim(k) != "")
    && (|r.include_| > 0 ==> kind == "raw_k8s" && source == "git")
    && (Trim(r.path) != "" ==> source == "git")
    && (source == "git" && Trim(r.path) == "" ==> |r.include_| > 0)
  }

  lemma RenderersDiffer()
    ensures "raw_k8s" != "kustomize" && "raw_k8s" != "helm" && "kustomize" != "helm"
  {
    assert |"raw_k8s"| == 7 && |"kustomize"| == 9 && |"helm"| == 4;
  }

  lemma OneRenderer(kind: string, source: string, r: Renderer)
    requires Normalize(r.kind) == Lower(Trim(r.kind)) == kind && (kind == "raw_k8s" || kind == "kustomize" || kind == "helm")
    requires LooseValid(r.values) <==> forall k :: k in r.values ==> Trim(k) != ""
    ensures RendererValid(source, r) <==> RendererTable(source, r)
  {
    KindsDiffer();
    RenderersDiffer();
    hide Normalize, Lower, Trim, LooseValid;
    assert r.values == map[] <==> |r.values| == 0;
    assert r.include_ == [] <==> |r.include_| == 0;
  }

  /** A renderer is valid for a source exactly when it fits the table. */
  lemma RendererTableText(source: string, r: Renderer)
    ensures RendererValid(source, r) <==> RendererTable(source, r)
  {
    LowerBlank(r.kind);
    LooseText(r.values);
    var kind := Normalize(r.kind);
    if kind == "raw_k8s" || kind == "kustomize" || kind == "helm" {
      hide RendererValid, RendererTable, Normalize, Lower, Trim, LooseValid;
      OneRenderer(kind, source, r);
    } else {
      hide Normalize, Lower, Trim, LooseValid;
    }
  }

  /** The state a requirement without one has. */
  lemma StateDefault(r: Requirement)
    requires Trim(r.state) == ""
    ensures StateOf(r) == if Lower(Trim(r.kind)) == "integration_instance" then "active"
                          else if Lower(Trim(r.kind)) == "product" && Lower(Trim(r.policy)) == "install_if_missing" then "materialized"
                          else "declared"
  {
    LowerBlank(r.state);
    LowerBlank(r.kind);
    LowerBlank(r.policy);
    assert "integration_instance"[0] != "product"[0] && "must_exist"[0] != "install_if_missing"[0];
    hide Normalize, Lower, Trim;
  }

  // ---- Names and dependencies ---------------------------------------------------------

  /** Names start with a letter or digit and go on with letters, digits, dots, underscores, colons and dashes. */
  lemma NameText(s: string)
    ensures IsName(s) <==>
            && s != "" && s[0] != '.' && s[0] != '_' && s[0] != ':' && s[0] != '-'
            && forall c :: c in s ==> 'a' <= c <= 'z' || '0' <= c <= '9' || c in {'.', '_', ':', '-'}
  {
    if IsName(s) {
      forall c | c in s ensures 'a' <= c <= 'z' || '0' <= c <= '9' || c in {'.', '_', ':', '-'} {
        var i :| 0 <= i < |s| && s[i] == c;
        assert NameChar(s[i]);
      }
    }
    if s != "" && s[0] != '.' && s[0] != '_' && s[0] != ':' && s[0] != '-' &&
       forall c :: c in s ==> 'a' <= c <= 'z' || '0' <= c <= '9' || c in {'.', '_', ':', '-'} {
      forall i | 0 <= i < |s| ensures NameChar(s[i]) {
        assert s[i] in s;
      }
      assert s[0] in s;
    }
  }

  ghost predicate DependsOnOther(cs: seq<Component>, c: Component, dependency: string) {
    exists other :: other in cs && Lower(Trim(other.name)) == Lower(Trim(dependency)) && Lower(Trim(other.name)) != Lower(Trim(c.name))
  }

  /** Every depends_on names another component. */
  lemma DependenciesText(cs: seq<Component>)
    ensures DependenciesKnown(cs) <==> forall c, d :: c in cs && d in c.dependsOn ==> DependsOnOther(cs, c, d)
  {
    forall i, k | 0 <= i < |cs| && 0 <= k < |cs[i].dependsOn|
      ensures Dependent(ComponentNames(cs), Normalize(cs[i].name), cs[i].dependsOn[k]) <==> DependsOnOther(cs, cs[i], cs[i].dependsOn[k])
    {
      DependentText(cs, cs[i], cs[i].dependsOn[k]);
    }
    hide Dependent, DependsOnOther, ComponentNames, Normalize;
    if DependenciesKnown(cs) {
      forall c, d | c in cs && d in c.dependsOn ensures DependsOnOther(cs, c, d) {
        var i :| 0 <= i < |cs| && cs[i] == c;
        var k :| 0 <= k < |cs[i].dependsOn| && cs[i].dependsOn[k] == d;
      }
    }
    if forall c, d :: c in cs && d in c.dependsOn ==> DependsOnOther(cs, c, d) {
      forall i, k | 0 <= i < |cs| && 0 <= k < |cs[i].dependsOn|
        ensures Dependent(ComponentNames(cs), Normalize(cs[i].name), cs[i].dependsOn[k])
      {
        assert cs[i] in cs && cs[i].dependsOn[k] in cs[i].dependsOn;
      }
    }
  }

  lemma DependentText(cs: seq<Component>, c: Component, d: string)
    ensures Dependent(ComponentNames(cs), Normalize(c.name), d) <==> DependsOnOther(cs, c, d)
  {
    hide Lower, Trim;
    var names := ComponentNames(cs);
    if Normalize(d) in names {
      var j :| 0 <= j < |names| && names[j] == Normalize(d);
      assert cs[j] in cs;
    }
    if DependsOnOther(cs, c, d) {
      var other :| other in cs && Lower(Trim(other.name)) == Lower(Trim(d)) && Lower(Trim(other.name)) != Lower(Trim(c.name));
      var j :| 0 <= j < |cs| && cs[j] == other;
      assert names[j] == Normalize(d);
    }
  }
}
