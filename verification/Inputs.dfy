/** Workflow inputs: dotted lookup, the recursive merge of defaults and runtime values, and
    validation against the input schema.  Go clones what it merges; values here are immutable,
    so a clone is the value itself. */
module Inputs {
  import opened Text
  import opened Values
  import opened Wrappers

  // ---- Dotted lookup ------------------------------------------------------------------

  /** One step into a value: a field of an object or an index of an array. */
  function Child(v: Value, part: string): Option<Value> {
    match v
    case Obj(fields) => if part in fields then Some(fields[part]) else None
    case Arr(items) =>
      (match Atoi(part)
       case Some(i) => if 0 <= i < |items| then Some(items[i]) else None
       case None => None)
    case _ => None
  }

  /** Follow a path of already trimmed parts. */
  function Lookup(v: Value, path: seq<string>): Option<Value> {
    if path == [] then Some(v)
    else match Child(v, path[0])
      case Some(next) => Lookup(next, path[1..])
      case None => None
  }

  /** A decimal number steps into an array at that index. */
  lemma LookupIndex(items: seq<Value>, i: nat, rest: seq<string>)
    requires i <= MAX_INT
    ensures Lookup(Arr(items), [Show(i)] + rest) == if i < |items| then Lookup(items[i], rest) else None
  {
    AtoiShow(i);
    hide Atoi, Show;
    assert ([Show(i)] + rest)[1..] == rest;
  }

  /** A name steps into an object at that field. */
  lemma LookupName(fields: Object, k: string, rest: seq<string>)
    ensures Lookup(Obj(fields), [k] + rest) == if k in fields then Lookup(fields[k], rest) else None
  {
    assert ([k] + rest)[1..] == rest;
  }

  function TrimAll(raw: seq<string>): (r: seq<string>)
    ensures |r| == |raw|
    ensures forall i :: 0 <= i < |raw| ==> r[i] == Trim(raw[i])
  {
    seq(|raw|, i requires 0 <= i < |raw| => Trim(raw[i]))
  }

  /** The trimmed parts of a dotted path, none of which may be empty. */
  function Parts(path: string): Option<seq<string>> {
    var parts := TrimAll(SplitOn(path, '.'));
    if "" in parts then None else Some(parts)
  }

  /** lookupWorkflowPath: an empty path or part finds nothing. */
  method LookupWorkflowPath(root: Object, path: string) returns (r: Option<Value>)
    ensures r == match Parts(path) case Some(parts) => Lookup(Obj(root), parts) case None => None
  {
    if path == "" {
      assert TrimAll(SplitOn(path, '.'))[0] == "";
      return None;
    }
    r := Walk(Obj(root), TrimAll(SplitOn(path, '.')));
  }

  method Walk(root: Value, parts: seq<string>) returns (r: Option<Value>)
    ensures r == if "" in parts then None else Lookup(root, parts)
  {
    hide Child;
    var current := root;
    for i := 0 to |parts|
      invariant "" !in parts[..i]
      invariant Lookup(root, parts) == Lookup(current, parts[i..])
    {
      if parts[i] == "" {
        return None;
      }
      assert parts[..i + 1] == parts[..i] + [parts[i]];
      assert parts[i..][1..] == parts[i + 1..];
      match Child(current, parts[i])
      case None => return None;
      case Some(next) => current := next;
    }
    assert parts[..|parts|] == parts;
    return Some(current);
  }

  // ---- Merging defaults and runtime values --------------------------------------------

  /** mergeWorkflowMaps: the override wins, except that two objects are merged in turn. */
  function Merge(base: Object, override: Object): Object
    decreases Obj(override)
  {
    map k | k in base.Keys + override.Keys ::
      if k !in override then base[k]
      else if k in base && base[k].Obj? && override[k].Obj? then Obj(Merge(base[k].fields, override[k].fields))
      else override[k]
  }

  method MergeWorkflowMaps(base: Object, override: Object) returns (merged: Object)
    ensures merged == Merge(base, override)
    decreases Obj(override)
  {
    if |base| == 0 && |override| == 0 {
      return map[];
    }
    merged := base;
    var keys := override.Keys;
    while keys != {}
      invariant keys <= override.Keys
      invariant merged.Keys == base.Keys + (override.Keys - keys)
      invariant forall k :: k in merged ==>
                  merged[k] == if k in override && k !in keys then Merge(base, override)[k] else base[k]
    {
      var key :| key in keys;
      keys := keys - {key};
      if key !in merged {
        merged := merged[key := override[key]];
      } else if merged[key].Obj? && override[key].Obj? {
        var inner := MergeWorkflowMaps(merged[key].fields, override[key].fields);
        merged := merged[key := Obj(inner)];
      } else {
        merged := merged[key := override[key]];
      }
    }
  }

  /** MergeWorkflowInputs: with no defaults the inputs are passed through. */
  method MergeWorkflowInputs(defaults: Object, inputs: Object) returns (merged: Object)
    ensures merged == Merge(defaults, inputs)
  {
    if |defaults| == 0 {
      merged := inputs;
    } else {
      merged := MergeWorkflowMaps(defaults, inputs);
    }
  }

  lemma {:induction false} MergeSelf(d: Object)
    ensures Merge(d, d) == d
    decreases Obj(d)
  {
    forall k | k in d && d[k].Obj? ensures Merge(d[k].fields, d[k].fields) == d[k].fields {
      MergeSelf(d[k].fields);
    }
  }

  /** Merging the defaults in a second time changes nothing. */
  lemma {:induction false} MergeIdempotent(d: Object, x: Object)
    ensures Merge(d, Merge(d, x)) == Merge(d, x)
    decreases Obj(x)
  {
    forall k | k in x && k in d && d[k].Obj? && x[k].Obj?
      ensures Merge(d[k].fields, Merge(d[k].fields, x[k].fields)) == Merge(d[k].fields, x[k].fields)
    {
      MergeIdempotent(d[k].fields, x[k].fields);
    }
    forall k | k in d && d[k].Obj? ensures Merge(d[k].fields, d[k].fields) == d[k].fields {
      MergeSelf(d[k].fields);
    }
  }

  /** Both sides hold an object at every prefix of `path`, `path` itself included. */
  ghost predicate BothObjects(d: Object, x: Object, path: seq<string>)
    decreases path
  {
    path == [] ||
    (path[0] in d && path[0] in x && d[path[0]].Obj? && x[path[0]].Obj? &&
     BothObjects(d[path[0]].fields, x[path[0]].fields, path[1..]))
  }

  /** Where both sides are objects and the runtime side lacks the key, the default is found,
      with everything below it. */
  lemma {:induction false} DefaultShows(d: Object, x: Object, path: seq<string>, key: string, rest: seq<string>)
    requires BothObjects(d, x, path)
    requires Lookup(Obj(x), path + [key]).None?
    ensures Lookup(Obj(Merge(d, x)), path + [key] + rest) == Lookup(Obj(d), path + [key] + rest)
    decreases path
  {
    var full := path + [key] + rest;
    if path == [] {
      assert full == [key] + rest && full[0] == key && full[1..] == rest;
      assert Lookup(Obj(x), [key]).None?;
    } else {
      var k := path[0];
      assert (path + [key])[1..] == path[1..] + [key];
      assert full[1..] == path[1..] + [key] + rest;
      DefaultShows(d[k].fields, x[k].fields, path[1..], key, rest);
    }
  }

  /** The merge invents nothing: what it holds at a path, other than an object, was there on
      the runtime side or among the defaults. */
  lemma {:induction false} MergeInventsNothing(d: Object, x: Object, path: seq<string>)
    requires Lookup(Obj(Merge(d, x)), path).Some? && !Lookup(Obj(Merge(d, x)), path).value.Obj?
    ensures Lookup(Obj(Merge(d, x)), path) in {Lookup(Obj(x), path), Lookup(Obj(d), path)}
    decreases path
  {
    var k := path[0];
    if k in x && k in d && d[k].Obj? && x[k].Obj? {
      MergeInventsNothing(d[k].fields, x[k].fields, path[1..]);
    }
  }

  /** A runtime value that is no object wins wherever it sits, and hides every default below it. */
  lemma {:induction false} RuntimeWins(d: Object, x: Object, path: seq<string>, rest: seq<string>)
    requires Lookup(Obj(x), path).Some? && !Lookup(Obj(x), path).value.Obj?
    ensures Lookup(Obj(Merge(d, x)), path + rest) == Lookup(Obj(x), path + rest)
    decreases path
  {
    var k := path[0];
    assert (path + rest)[1..] == path[1..] + rest;
    if k in d && d[k].Obj? && x[k].Obj? {
      RuntimeWins(d[k].fields, x[k].fields, path[1..], rest);
    }
  }

  // ---- Validation against the input schema --------------------------------------------

  datatype Property = Property(
    kind: string, minLength: Option<int>, maxLength: Option<int>, pattern: string, description: string, secret: bool)

  datatype Schema = Schema(required: seq<string>, properties: map<string, Property>, additionalProperties: Option<bool>)

  /** regexp.Compile and MatchString: None when the pattern does not compile. */
  type Regex = (string, string) -> Option<bool>

  predicate IsNumber(v: Value) {
    v.Int? || v.Float?
  }

  /** validateWorkflowInputValue. */
  predicate ValueFits(property: Property, v: Value, regex: Regex) {
    var kind := Normalize(property.kind);
    if kind == "" || kind == "string" then
      && v.Str?
      && (property.minLength.Some? ==> ByteLength(Trim(v.text)) >= property.minLength.value)
      && (property.maxLength.Some? ==> 0 <= property.maxLength.value && |v.text| <= property.maxLength.value)
      && (property.pattern != "" ==> regex(property.pattern, v.text) == Some(true))
    else if kind == "boolean" then v.Bool?
    else if kind == "integer" || kind == "number" then IsNumber(v)
    else if kind == "object" then v.Obj?
    else if kind == "array" then v.Arr?
    else true
  }

  /** The merged inputs satisfy the schema: nothing undeclared where that is closed, everything
      required present, every declared value of its type. */
  ghost predicate Satisfies(schema: Schema, inputs: Object, regex: Regex) {
    && (schema.additionalProperties == Some(false) ==> inputs.Keys <= schema.properties.Keys)
    && (forall i :: 0 <= i < |schema.required| ==> Normalize(schema.required[i]) in inputs)
    && (forall name :: name in schema.properties && name in inputs ==> ValueFits(schema.properties[name], inputs[name], regex))
  }

  /** What each kind, trimmed and lower-cased, asks of a value; a kind that is not named asks nothing. */
  ghost predicate KindAsks(property: Property, v: Value, regex: Regex) {
    var kind := Lower(Trim(property.kind));
    && (kind in {"", "string"} ==> exists text :: v == Str(text) && TextAsked(property, text, regex))
    && (kind == "boolean" ==> v == Bool(true) || v == Bool(false))
    && (kind in {"integer", "number"} ==> (exists n :: v == Int(n)) || (exists r :: v == Float(r)))
    && (kind == "object" ==> exists fields :: v == Obj(fields))
    && (kind == "array" ==> exists items :: v == Arr(items))
  }

  /** At least minLength bytes without the white space around it, at most maxLength runes, and a match. */
  ghost predicate TextAsked(property: Property, text: string, regex: Regex) {
    && (property.minLength == None || property.minLength.value <= ByteLength(Trim(text)))
    && (property.maxLength == None || (property.maxLength.value >= 0 && |text| <= property.maxLength.value))
    && (property.pattern == "" || regex(property.pattern, text) == Some(true))
  }

  lemma FitsKind(property: Property, v: Value, regex: Regex)
    ensures ValueFits(property, v, regex) <==> KindAsks(property, v, regex)
  {
    hide Lower, Trim, ByteLength;
    assert v.Int? ==> v == Int(v.number);
    assert v.Float? ==> v == Float(v.decimal);
    assert v.Obj? ==> v == Obj(v.fields);
    assert v.Arr? ==> v == Arr(v.items);
    assert v.Bool? ==> v == Bool(true) || v == Bool(false);
    assert v.Str? ==> v == Str(v.text);
  }

  /** Satisfying a schema, in terms of what is written in it. */
  lemma SatisfiesText(schema: Schema, inputs: Object, regex: Regex)
    ensures Satisfies(schema, inputs, regex) <==>
            && (schema.additionalProperties == Some(false) ==> forall name :: name in inputs ==> name in schema.properties)
            && (forall name :: name in schema.required ==> Lower(Trim(name)) in inputs)
            && (forall name :: name in schema.properties && name in inputs ==> KindAsks(schema.properties[name], inputs[name], regex))
  {
    RequiredText(schema.required, inputs);
    forall name | name in schema.properties && name in inputs
      ensures ValueFits(schema.properties[name], inputs[name], regex) <==> KindAsks(schema.properties[name], inputs[name], regex)
    {
      hide ValueFits, KindAsks, Satisfies;
      FitsKind(schema.properties[name], inputs[name], regex);
    }
    hide ValueFits, KindAsks, Normalize, Lower, Trim;
  }

  lemma RequiredText(required: seq<string>, inputs: Object)
    ensures (forall i :: 0 <= i < |required| ==> Normalize(required[i]) in inputs) <==>
            (forall name :: name in required ==> Lower(Trim(name)) in inputs)
  {
    assert forall name :: Normalize(name) == Lower(Trim(name));
    hide Normalize, Lower, Trim;
    if forall i :: 0 <= i < |required| ==> Normalize(required[i]) in inputs {
      forall name | name in required ensures Normalize(name) in inputs {
        var i :| 0 <= i < |required| && required[i] == name;
      }
    }
    if forall name :: name in required ==> Lower(Trim(name)) in inputs {
      forall i | 0 <= i < |required| ensures Normalize(required[i]) in inputs {
        assert required[i] in required;
      }
    }
  }

  /** ValidateWorkflowInputs, as a verdict. */
  method ValidateWorkflowInputs(defaults: Object, schema: Schema, inputs: Object, regex: Regex) returns (ok: bool)
    ensures ok <==> Satisfies(schema, Merge(defaults, inputs), regex)
  {
    hide ValueFits, Merge, Normalize;
    var merged := MergeWorkflowInputs(defaults, inputs);
    if schema.additionalProperties == Some(false) {
      var undeclared := set name | name in merged && name !in schema.properties;
      if undeclared != {} {
        return false;
      }
    }
    for i := 0 to |schema.required|
      invariant forall k :: 0 <= k < i ==> Normalize(schema.required[k]) in merged
    {
      if Normalize(schema.required[i]) !in merged {
        return false;
      }
    }
    var names := schema.properties.Keys;
    while names != {}
      invariant names <= schema.properties.Keys
      invariant forall name :: name in schema.properties && name !in names && name in merged ==>
                  ValueFits(schema.properties[name], merged[name], regex)
    {
      var name :| name in names;
      names := names - {name};
      if name in merged && !ValueFits(schema.properties[name], merged[name], regex) {
        return false;
      }
    }
    return true;
  }

  /** Validating inputs that were already merged gives the same verdict. */
  lemma ValidateMerged(defaults: Object, schema: Schema, inputs: Object, regex: Regex)
    ensures Satisfies(schema, Merge(defaults, Merge(defaults, inputs)), regex) <==> Satisfies(schema, Merge(defaults, inputs), regex)
  {
    MergeIdempotent(defaults, inputs);
  }
}
