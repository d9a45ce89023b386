/** Quickstart inputs: resolving what the user supplies against the declared questions, and the input
    schema of the compiled workflow. */
module QuickstartInputs {
  import opened Inputs
  import opened QuickstartSteps
  import opened Text
  import opened Values
  import opened Wrappers

  datatype Constraint = Constraint(regex: string, min: Option<int>, max: Option<int>)

  /** A declared question; the default Null stands for none. */
  datatype Question = Question(
    id: string, caption: string, description: string, kind: string, default: Value, required: bool, sensitive: bool,
    choices: seq<string>, validate: Option<Constraint>)

  // ---- Validation ---------------------------------------------------------------------

  /** ^[a-z][a-z0-9_]*$ */
  predicate IsInputId(s: string) {
    IsQuickstartId(s) && '-' !in s
  }

  /** normalizeInputType. */
  function Kind(t: string): string {
    if Normalize(t) == "" then "string" else Normalize(t)
  }

  predicate KnownKind(kind: string) {
    kind == "string" || kind == "integer" || kind == "boolean" || kind == "select"
  }

  predicate QuestionValid(q: Question, regex: Regex) {
    && IsInputId(q.id) && q.caption != "" && KnownKind(Kind(q.kind))
    && (Kind(q.kind) == "select" ==> q.choices != [])
    && (q.validate.Some? && q.validate.value.regex != "" ==> regex(q.validate.value.regex, "").Some?)
  }

  ghost predicate DistinctIds(qs: seq<Question>) {
    forall i, j :: 0 <= i < j < |qs| ==> qs[i].id != qs[j].id
  }

  ghost predicate QuestionsValid(qs: seq<Question>, regex: Regex) {
    DistinctIds(qs) && forall i :: 0 <= i < |qs| ==> QuestionValid(qs[i], regex)
  }

  /** validateInputs. */
  method ValidateQuestions(qs: seq<Question>, regex: Regex) returns (ok: bool)
    ensures ok <==> QuestionsValid(qs, regex)
  {
    hide QuestionValid;
    var seen: set<string> := {};
    for i := 0 to |qs|
      invariant seen == set k | 0 <= k < i :: qs[k].id
      invariant forall k :: 0 <= k < i ==> QuestionValid(qs[k], regex)
      invariant forall k, l :: 0 <= k < l < i ==> qs[k].id != qs[l].id
    {
      if qs[i].id in seen || !QuestionValid(qs[i], regex) {
        return false;
      }
      seen := seen + {qs[i].id};
    }
    return true;
  }

  // ---- Coercion and constraints -------------------------------------------------------

  /** strconv.ParseBool. */
  function ParseBool(s: string): Option<bool> {
    if s in {"1", "t", "T", "TRUE", "true", "True"} then Some(true)
    else if s in {"0", "f", "F", "FALSE", "false", "False"} then Some(false)
    else None
  }

  /** coerceInputValue: the result has the declared type, and coercing it again changes nothing. */
  function Coerce(kind: string, raw: Value): (r: Option<Value>)
    ensures r.Some? && KnownKind(kind) ==> Typed(kind, r.value) && !r.value.Float?
  {
    if kind == "string" || kind == "select" then
      if raw.Str? then Some(raw) else None
    else if kind == "integer" then
      match raw
      case Int(n) => Some(raw)
      case Float(r) => if r.Floor as real == r && MIN_INT <= r.Floor <= MAX_INT then Some(Int(r.Floor)) else None
      case Str(s) => if Atoi(s).Some? then Some(Int(Atoi(s).value)) else None
      case _ => None
    else if kind == "boolean" then
      match raw
      case Bool(b) => Some(raw)
      case Str(s) => if ParseBool(s).Some? then Some(Bool(ParseBool(s).value)) else None
      case _ => None
    else Some(raw)
  }

  /** An integer may be supplied as a number, as a float or as decimal text: it comes out the same. */
  lemma CoerceInteger(n: int)
    requires MIN_INT <= n <= MAX_INT
    ensures Coerce("integer", Int(n)) == Coerce("integer", Float(n as real)) == Coerce("integer", Str(Show(n))) == Some(Int(n))
  {
    AtoiShow(n);
    hide Atoi, Show;
    assert (n as real).Floor == n;
  }

  /** What coercion accepts, it accepts as the value it stands for, and nothing else becomes that value. */
  lemma CoerceMeans(kind: string, raw: Value, v: Value)
    requires KnownKind(kind)
    ensures Coerce(kind, raw) == Some(v) <==>
            || (raw == v && Typed(kind, v) && !v.Float?)
            || (kind == "integer" && v.Int? && MIN_INT <= v.number <= MAX_INT &&
                (raw == Float(v.number as real) || (raw.Str? && Atoi(raw.text) == Some(v.number))))
            || (kind == "boolean" && v.Bool? && raw.Str? && ParseBool(raw.text) == Some(v.flag))
  {
    hide Atoi, ParseBool;
    if kind == "integer" && raw.Float? {
      assert raw.decimal.Floor as real == raw.decimal ==> raw == Float(raw.decimal.Floor as real);
      assert v.Int? ==> (v.number as real).Floor == v.number;
    }
  }

  /** The compiled schema accepts the value for the declared type. */
  predicate Typed(kind: string, v: Value) {
    if kind == "string" || kind == "select" then v.Str?
    else if kind == "integer" then IsNumber(v)
    else if kind == "boolean" then v.Bool?
    else true
  }

  /** enforceInputConstraints. */
  predicate Allowed(q: Question, kind: string, v: Value, regex: Regex) {
    if kind == "select" then v.Str? && v.text in q.choices
    else if q.validate.None? then true
    else
      var c := q.validate.value;
      && (c.regex != "" ==> v.Str? && regex(c.regex, v.text) == Some(true))
      && (kind == "integer" && v.Int? ==> (c.min.Some? ==> c.min.value <= v.number) && (c.max.Some? ==> v.number <= c.max.value))
  }

  /** The words for the two truth values. */
  lemma BooleanWords(s: string)
    ensures ParseBool(s) == Some(true) <==> s == "1" || s == "t" || s == "T" || s == "true" || s == "TRUE" || s == "True"
    ensures ParseBool(s) == Some(false) <==> s == "0" || s == "f" || s == "F" || s == "false" || s == "FALSE" || s == "False"
  {
    assert "1"[0] == '1' && "t"[0] == 't' && "T"[0] == 'T' && "true"[0] == 't' && "TRUE"[0] == 'T' && "True"[0] == 'T';
    assert "0"[0] == '0' && "f"[0] == 'f' && "F"[0] == 'F' && "false"[0] == 'f' && "FALSE"[0] == 'F' && "False"[0] == 'F';
  }

  /** What the constraints ask of an answer: one of the choices, a match, a number within the bounds. */
  lemma ConstraintsText(q: Question, v: Value, regex: Regex)
    ensures Allowed(q, "select", v, regex) <==> exists choice :: choice in q.choices && v == Str(choice)
    ensures forall n :: Allowed(q, "integer", Int(n), regex) <==>
              (q.validate == None ||
               (var c := q.validate.value;
                c.regex == "" && (c.min == None || c.min.value <= n) && (c.max == None || n <= c.max.value)))
    ensures forall text :: Allowed(q, "string", Str(text), regex) <==>
              (q.validate == None || q.validate.value.regex == "" || regex(q.validate.value.regex, text) == Some(true))
    ensures forall flag :: Allowed(q, "boolean", Bool(flag), regex) <==> (q.validate == None || q.validate.value.regex == "")
  {
    assert v.Str? ==> v == Str(v.text);
  }

  /** Which ids and kinds a valid question has. */
  lemma QuestionText(q: Question, regex: Regex)
    ensures QuestionValid(q, regex) <==>
            && q.id != "" && 'a' <= q.id[0] <= 'z'
            && (forall c :: c in q.id ==> 'a' <= c <= 'z' || '0' <= c <= '9' || c == '_')
            && q.caption != "" && Lower(Trim(q.kind)) in {"", "string", "integer", "boolean", "select"}
            && (Lower(Trim(q.kind)) == "select" ==> |q.choices| > 0)
            && (q.validate.Some? && q.validate.value.regex != "" ==> regex(q.validate.value.regex, "").Some?)
  {
    hide Lower, Trim;
    IdText(q.id);
    hide IsInputId;
  }

  lemma IdText(s: string)
    ensures IsInputId(s) <==> s != "" && 'a' <= s[0] <= 'z' && forall c :: c in s ==> 'a' <= c <= 'z' || '0' <= c <= '9' || c == '_'
  {
    if IsInputId(s) {
      forall c | c in s ensures 'a' <= c <= 'z' || '0' <= c <= '9' || c == '_' {
        var i :| 0 <= i < |s| && s[i] == c;
        assert IdChar(s[i]);
      }
    }
    if s != "" && 'a' <= s[0] <= 'z' && forall c :: c in s ==> 'a' <= c <= 'z' || '0' <= c <= '9' || c == '_' {
      forall i | 0 <= i < |s| ensures IdChar(s[i]) {
        assert s[i] in s;
      }
    }
  }

  // ---- Resolution ---------------------------------------------------------------------

  /** What one question contributes: None for an error, Some(None) for no entry. */
  function Answer(q: Question, supplied: Object, regex: Regex): Option<Option<Value>> {
    if q.id !in supplied then
      if q.required then None else if q.default == Null then Some(None) else Some(Some(q.default))
    else
      match Coerce(Kind(q.kind), supplied[q.id])
      case Some(v) => if Allowed(q, Kind(q.kind), v, regex) then Some(Some(v)) else None
      case None => None
  }

  /** Every question has an answer, and nothing undeclared was supplied. */
  ghost predicate Answered(qs: seq<Question>, supplied: Object, regex: Regex) {
    && (forall i :: 0 <= i < |qs| ==> Answer(qs[i], supplied, regex).Some?)
    && (forall k :: k in supplied ==> Declared(qs, k))
  }

  ghost predicate Declared(qs: seq<Question>, k: string) {
    exists i :: 0 <= i < |qs| && qs[i].id == k
  }

  /** The entry a question leaves in the resolved inputs. */
  ghost predicate Entered(q: Question, supplied: Object, regex: Regex, resolved: Object) {
    match Answer(q, supplied, regex)
    case Some(Some(v)) => q.id in resolved && resolved[q.id] == v
    case _ => q.id !in resolved
  }

  /** The question has a value to contribute. */
  ghost predicate Gives(q: Question, supplied: Object, regex: Regex) {
    Answer(q, supplied, regex).Some? && Answer(q, supplied, regex).value.Some?
  }

  /** Question i gives the value, and none of the first n questions after it overrides that. */
  ghost predicate Prevails(qs: seq<Question>, i: nat, n: nat, supplied: Object, regex: Regex)
    requires i < n <= |qs|
  {
    Gives(qs[i], supplied, regex) && forall j :: i < j < n && qs[j].id == qs[i].id ==> !Gives(qs[j], supplied, regex)
  }

  ghost predicate GivenBy(qs: seq<Question>, n: nat, k: string, supplied: Object, regex: Regex)
    requires n <= |qs|
  {
    exists i :: 0 <= i < n && qs[i].id == k && Gives(qs[i], supplied, regex)
  }

  ghost predicate ResolvedTo(qs: seq<Question>, n: nat, supplied: Object, regex: Regex, resolved: Object)
    requires n <= |qs|
  {
    && (forall i :: 0 <= i < n && Prevails(qs, i, n, supplied, regex) ==>
          qs[i].id in resolved && resolved[qs[i].id] == Answer(qs[i], supplied, regex).value.value)
    && (forall k :: k in resolved ==> GivenBy(qs, n, k, supplied, regex))
  }

  /** `resolved` holds the answers and nothing else; of several under one id, the last. */
  ghost predicate Resolved(qs: seq<Question>, supplied: Object, regex: Regex, resolved: Object) {
    ResolvedTo(qs, |qs|, supplied, regex, resolved)
  }

  lemma ResolveOne(qs: seq<Question>, n: nat, supplied: Object, regex: Regex, resolved: Object)
    requires n < |qs| && ResolvedTo(qs, n, supplied, regex, resolved) && Answer(qs[n], supplied, regex).Some?
    ensures var answer := Answer(qs[n], supplied, regex).value;
            ResolvedTo(qs, n + 1, supplied, regex, if answer.Some? then resolved[qs[n].id := answer.value] else resolved)
  {
    hide Answer;
    var answer := Answer(qs[n], supplied, regex).value;
    var resolved' := if answer.Some? then resolved[qs[n].id := answer.value] else resolved;
    forall i | 0 <= i < n + 1 && Prevails(qs, i, n + 1, supplied, regex)
      ensures qs[i].id in resolved' && resolved'[qs[i].id] == Answer(qs[i], supplied, regex).value.value
    {
      assert i < n ==> Prevails(qs, i, n, supplied, regex);
    }
    forall k | k in resolved' ensures GivenBy(qs, n + 1, k, supplied, regex) {
      if k in resolved {
        assert GivenBy(qs, n, k, supplied, regex);
      } else {
        assert Gives(qs[n], supplied, regex);
      }
    }
  }

  ghost predicate AllEntered(qs: seq<Question>, supplied: Object, regex: Regex, resolved: Object) {
    && (forall i :: 0 <= i < |qs| ==> Entered(qs[i], supplied, regex, resolved))
    && (forall k :: k in resolved ==> Declared(qs, k))
  }

  lemma ResolvedIsEntered(qs: seq<Question>, supplied: Object, regex: Regex, resolved: Object)
    requires DistinctIds(qs) && Resolved(qs, supplied, regex, resolved)
    ensures AllEntered(qs, supplied, regex, resolved)
  {
    hide Answer;
    forall i | 0 <= i < |qs| ensures Entered(qs[i], supplied, regex, resolved) {
      assert Gives(qs[i], supplied, regex) ==> Prevails(qs, i, |qs|, supplied, regex);
      if qs[i].id in resolved {
        assert GivenBy(qs, |qs|, qs[i].id, supplied, regex);
      }
    }
    forall k | k in resolved ensures Declared(qs, k) {
      assert GivenBy(qs, |qs|, k, supplied, regex);
    }
  }

  lemma EnteredIsResolved(qs: seq<Question>, supplied: Object, regex: Regex, resolved: Object)
    requires AllEntered(qs, supplied, regex, resolved)
    ensures Resolved(qs, supplied, regex, resolved)
  {
    hide Answer;
    forall k | k in resolved ensures GivenBy(qs, |qs|, k, supplied, regex) {
      assert Declared(qs, k);
      var i :| 0 <= i < |qs| && qs[i].id == k;
      assert Entered(qs[i], supplied, regex, resolved);
    }
    forall i | 0 <= i < |qs| && Prevails(qs, i, |qs|, supplied, regex)
      ensures qs[i].id in resolved && resolved[qs[i].id] == Answer(qs[i], supplied, regex).value.value
    {
      assert Entered(qs[i], supplied, regex, resolved);
    }
  }

  /** With distinct ids every question's answer is entered, and only those. */
  lemma ResolvedDistinct(qs: seq<Question>, supplied: Object, regex: Regex, resolved: Object)
    requires DistinctIds(qs)
    ensures Resolved(qs, supplied, regex, resolved) <==> AllEntered(qs, supplied, regex, resolved)
  {
    hide *;
    if Resolved(qs, supplied, regex, resolved) {
      ResolvedIsEntered(qs, supplied, regex, resolved);
    }
    if AllEntered(qs, supplied, regex, resolved) {
      EnteredIsResolved(qs, supplied, regex, resolved);
    }
  }

  /** validateAndDefaultInputs. */
  method ValidateAndDefaultInputs(qs: seq<Question>, supplied: Object, regex: Regex) returns (r: Option<Object>)
    ensures r.Some? <==> Answered(qs, supplied, regex)
    ensures r.Some? ==> Resolved(qs, supplied, regex, r.value)
  {
    hide Answer, ResolvedTo;
    var resolved: Object := map[];
    assert ResolvedTo(qs, 0, supplied, regex, resolved) by { ResolveNone(qs, supplied, regex); }
    var ids: set<string> := {};
    for i := 0 to |qs|
      invariant ids == set k | 0 <= k < i :: qs[k].id
      invariant forall k :: 0 <= k < i ==> Answer(qs[k], supplied, regex).Some?
      invariant ResolvedTo(qs, i, supplied, regex, resolved)
    {
      var q := qs[i];
      ids := ids + {q.id};
      var answer := Answer(q, supplied, regex);
      if answer.None? {
        return None;
      }
      ResolveOne(qs, i, supplied, regex, resolved);
      if answer.value.Some? {
        resolved := resolved[q.id := answer.value.value];
      }
    }
    var names := supplied.Keys - ids;
    if names != {} {
      var name :| name in names;
      assert name in supplied && !Declared(qs, name);
      return None;
    }
    forall k | k in supplied ensures Declared(qs, k) {
      assert k in ids;
    }
    return Some(resolved);
  }

  lemma ResolveNone(qs: seq<Question>, supplied: Object, regex: Regex)
    ensures ResolvedTo(qs, 0, supplied, regex, map[])
  {
  }

  // ---- The compiled schema ------------------------------------------------------------

  function PropertyOf(q: Question): Property {
    Property(if Kind(q.kind) == "select" then "string" else Kind(q.kind), None, None, "", Trim(q.description), q.sensitive)
  }

  ghost predicate Demanded(qs: seq<Question>, id: string) {
    exists i :: 0 <= i < |qs| && qs[i].required && qs[i].id == id
  }

  /** None of the first n questions after question i has its id. */
  ghost predicate LastOfId(qs: seq<Question>, i: nat, n: nat)
    requires i < n <= |qs|
  {
    forall j :: i < j < n ==> qs[j].id != qs[i].id
  }

  ghost predicate PropertiesTo(qs: seq<Question>, n: nat, properties: map<string, Property>)
    requires n <= |qs|
  {
    && (forall i :: 0 <= i < n ==> qs[i].id in properties)
    && (forall i :: 0 <= i < n && LastOfId(qs, i, n) ==> qs[i].id in properties && properties[qs[i].id] == PropertyOf(qs[i]))
    && (forall k :: k in properties ==> Declared(qs, k))
  }

  /** One property per id, that of its last question, and the required ids listed. */
  ghost predicate SchemaFor(qs: seq<Question>, schema: Schema) {
    && schema.additionalProperties.None?
    && PropertiesTo(qs, |qs|, schema.properties)
    && (forall i :: 0 <= i < |qs| && qs[i].required ==> qs[i].id in schema.required)
    && (forall i :: 0 <= i < |schema.required| ==> Demanded(qs, schema.required[i]))
  }

  lemma PropertyOne(qs: seq<Question>, n: nat, properties: map<string, Property>)
    requires n < |qs| && PropertiesTo(qs, n, properties)
    ensures PropertiesTo(qs, n + 1, properties[qs[n].id := PropertyOf(qs[n])])
  {
    hide PropertyOf, Declared;
    var longer := properties[qs[n].id := PropertyOf(qs[n])];
    forall i | 0 <= i < n + 1 ensures qs[i].id in longer {
      assert i < n ==> qs[i].id in properties;
    }
    forall i | 0 <= i < n + 1 && LastOfId(qs, i, n + 1) ensures longer[qs[i].id] == PropertyOf(qs[i]) {
      if i < n {
        assert LastOfId(qs, i, n) && qs[n].id != qs[i].id;
      }
    }
    forall k | k in longer ensures Declared(qs, k) {
      DeclaredHere(qs, n);
    }
  }

  lemma DeclaredHere(qs: seq<Question>, n: nat)
    requires n < |qs|
    ensures Declared(qs, qs[n].id)
  {
  }

  /** The compiled property, field by field. */
  lemma PropertyText(q: Question)
    ensures var p := PropertyOf(q);
            && p.kind == (if Lower(Trim(q.kind)) == "" || Lower(Trim(q.kind)) == "select" then "string" else Lower(Trim(q.kind)))
            && p.description == Trim(q.description) && p.secret == q.sensitive
            && p.minLength == None && p.maxLength == None && p.pattern == ""
  {
    hide Lower, Trim;
    assert "string"[1] != "select"[1];
  }

  lemma PropertyNone(qs: seq<Question>)
    ensures PropertiesTo(qs, 0, map[])
  {
  }

  /** buildInputSchema. */
  method BuildInputSchema(qs: seq<Question>) returns (schema: Schema)
    ensures SchemaFor(qs, schema)
  {
    hide PropertyOf, PropertiesTo;
    var properties: map<string, Property>, required: seq<string> := map[], [];
    PropertyNone(qs);
    for i := 0 to |qs|
      invariant PropertiesTo(qs, i, properties)
      invariant forall k :: 0 <= k < i && qs[k].required ==> qs[k].id in required
      invariant forall j :: 0 <= j < |required| ==> Demanded(qs, required[j])
    {
      PropertyOne(qs, i, properties);
      properties := properties[qs[i].id := PropertyOf(qs[i])];
      if qs[i].required {
        required := required + [qs[i].id];
      }
    }
    return Schema(required, properties, None);
  }

  lemma PropertiesDistinct(qs: seq<Question>, schema: Schema, i: nat)
    requires DistinctIds(qs) && SchemaFor(qs, schema) && i < |qs|
    ensures qs[i].id in schema.properties && schema.properties[qs[i].id] == PropertyOf(qs[i])
  {
    hide PropertyOf;
    assert LastOfId(qs, i, |qs|);
  }

  lemma KindIsNormal(kind: string)
    requires KnownKind(kind)
    ensures Normalize(kind) == kind
  {
    assert forall i :: 0 <= i < |kind| ==> IdChar(kind[i]);
    IdIsNormal(kind);
  }

  /** A property with nothing but a type accepts the values of that type. */
  lemma PlainFits(property: Property, v: Value, regex: Regex)
    requires KnownKind(property.kind) && property.kind != "select" && Normalize(property.kind) == property.kind
    requires property.minLength.None? && property.maxLength.None? && property.pattern == ""
    ensures ValueFits(property, v, regex) <==> Typed(property.kind, v)
  {
    hide Normalize, ByteLength, Trim;
  }

  /** The compiled property checks the type and nothing else. */
  lemma FitsIsTyped(q: Question, v: Value, regex: Regex)
    requires KnownKind(Kind(q.kind))
    ensures ValueFits(PropertyOf(q), v, regex) <==> Typed(Kind(q.kind), v)
  {
    hide Normalize, Kind, Trim, ValueFits;
    KindIsNormal(PropertyOf(q).kind);
    PlainFits(PropertyOf(q), v, regex);
  }

  /** Inputs left out whose default the schema would accept. */
  ghost predicate DefaultsTyped(qs: seq<Question>, supplied: Object) {
    forall i :: 0 <= i < |qs| && qs[i].id !in supplied && qs[i].default != Null ==> Typed(Kind(qs[i].kind), qs[i].default)
  }

  lemma MergeNothing(d: Object)
    ensures Merge(d, map[]) == d
  {
  }

  /** The value resolved for a question is of its type, unless it is a default of another type. */
  lemma AnswerTyped(q: Question, supplied: Object, regex: Regex, resolved: Object)
    requires KnownKind(Kind(q.kind)) && Answer(q, supplied, regex).Some? && Entered(q, supplied, regex, resolved)
    ensures q.required ==> q.id in resolved
    ensures q.id in resolved ==> (Typed(Kind(q.kind), resolved[q.id]) <==>
                                  (q.id !in supplied && q.default != Null ==> Typed(Kind(q.kind), q.default)))
    ensures q.id !in resolved ==> q.id !in supplied && q.default == Null
  {
    hide Kind, Allowed;
  }

  /** Inputs the compiler accepts become defaults; run without further inputs, the compiled workflow
      accepts them exactly when every default used for an omitted input has its declared type. */
  lemma DefaultsAccepted(qs: seq<Question>, supplied: Object, regex: Regex, resolved: Object, schema: Schema)
    requires QuestionsValid(qs, regex) && Answered(qs, supplied, regex) && Resolved(qs, supplied, regex, resolved)
    requires SchemaFor(qs, schema)
    ensures Satisfies(schema, Merge(resolved, map[]), regex) <==> DefaultsTyped(qs, supplied)
  {
    MergeNothing(resolved);
    ResolvedDistinct(qs, supplied, regex, resolved);
    hide Merge, ValueFits, Answer, Entered, Typed, PropertyOf;
    forall i | 0 <= i < |qs|
      ensures qs[i].id in resolved ==> (ValueFits(PropertyOf(qs[i]), resolved[qs[i].id], regex) <==>
                (qs[i].id !in supplied && qs[i].default != Null ==> Typed(Kind(qs[i].kind), qs[i].default)))
      ensures qs[i].id !in resolved ==> qs[i].id !in supplied && qs[i].default == Null
      ensures qs[i].required ==> Normalize(qs[i].id) in resolved && Normalize(qs[i].id) == qs[i].id
    {
      hide IsInputId, Kind;
      assert QuestionValid(qs[i], regex);
      assert Entered(qs[i], supplied, regex, resolved) && Answer(qs[i], supplied, regex).Some?;
      AnswerTyped(qs[i], supplied, regex, resolved);
      if qs[i].id in resolved {
        FitsIsTyped(qs[i], resolved[qs[i].id], regex);
      }
      IdNormal(qs[i].id);
    }
    hide QuestionValid, Normalize, Kind;
    if DefaultsTyped(qs, supplied) {
      AllFit(qs, supplied, regex, resolved, schema);
    } else {
      var i :| 0 <= i < |qs| && qs[i].id !in supplied && qs[i].default != Null && !Typed(Kind(qs[i].kind), qs[i].default);
      PropertiesDistinct(qs, schema, i);
      assert !ValueFits(schema.properties[qs[i].id], resolved[qs[i].id], regex);
    }
  }

  lemma IdNormal(id: string)
    ensures IsInputId(id) ==> Normalize(id) == id
  {
    if IsInputId(id) {
      IdIsNormal(id);
    }
  }

  lemma AllFit(qs: seq<Question>, supplied: Object, regex: Regex, resolved: Object, schema: Schema)
    requires DistinctIds(qs) && SchemaFor(qs, schema)
    requires forall i :: 0 <= i < |qs| && qs[i].id in resolved ==> ValueFits(PropertyOf(qs[i]), resolved[qs[i].id], regex)
    requires forall i :: 0 <= i < |qs| && qs[i].required ==> Normalize(qs[i].id) in resolved
    ensures Satisfies(schema, resolved, regex)
  {
    hide ValueFits, PropertyOf, Normalize;
    forall name | name in schema.properties && name in resolved ensures ValueFits(schema.properties[name], resolved[name], regex) {
      assert Declared(qs, name);
      var i :| 0 <= i < |qs| && qs[i].id == name;
      PropertiesDistinct(qs, schema, i);
    }
    forall j | 0 <= j < |schema.required| ensures Normalize(schema.required[j]) in resolved {
      assert Demanded(qs, schema.required[j]);
      var k :| 0 <= k < |qs| && qs[k].required && qs[k].id == schema.required[j];
    }
  }

  // ---- Resolving twice ----------------------------------------------------------------

  /** A default that would be used is one that coercion leaves alone and the constraints allow. */
  ghost predicate Canonical(q: Question, supplied: Object, regex: Regex) {
    q.id !in supplied && q.default != Null ==>
      Coerce(Kind(q.kind), q.default) == Some(q.default) && Allowed(q, Kind(q.kind), q.default, regex)
  }

  ghost predicate DefaultsCanonical(qs: seq<Question>, supplied: Object, regex: Regex) {
    forall i :: 0 <= i < |qs| ==> Canonical(qs[i], supplied, regex)
  }

  lemma CoerceTwice(kind: string, raw: Value)
    requires Coerce(kind, raw).Some?
    ensures Coerce(kind, Coerce(kind, raw).value) == Coerce(kind, raw)
  {
  }

  /** Asking one question again with the resolved inputs. */
  lemma AnswerAgain(q: Question, supplied: Object, regex: Regex, resolved: Object)
    requires Answer(q, supplied, regex).Some? && Entered(q, supplied, regex, resolved)
    ensures Answer(q, resolved, regex).Some? && Entered(q, resolved, regex, resolved) <==> Canonical(q, supplied, regex)
  {
    hide Kind, Allowed;
    if q.id in supplied {
      CoerceTwice(Kind(q.kind), supplied[q.id]);
    }
    hide Coerce;
  }

  /** Resolving the resolved inputs again gives them back exactly when the defaults that were used are
      in coerced form and within their constraints. */
  lemma ResolutionIsFixedPoint(qs: seq<Question>, supplied: Object, regex: Regex, resolved: Object)
    requires DistinctIds(qs) && Answered(qs, supplied, regex) && Resolved(qs, supplied, regex, resolved)
    ensures Answered(qs, resolved, regex) && Resolved(qs, resolved, regex, resolved) <==> DefaultsCanonical(qs, supplied, regex)
  {
    ResolvedDistinct(qs, supplied, regex, resolved);
    ResolvedDistinct(qs, resolved, regex, resolved);
    hide Answer, Entered, Canonical, Declared, Resolved, DistinctIds;
    forall i | 0 <= i < |qs|
      ensures Answer(qs[i], resolved, regex).Some? && Entered(qs[i], resolved, regex, resolved) <==> Canonical(qs[i], supplied, regex)
    {
      AnswerAgain(qs[i], supplied, regex, resolved);
    }
  }

  lemma NoNumber(s: string)
    requires s != "" && s[0] != '+' && s[0] != '-' && !IsDigit(s[0])
    ensures Atoi(s).None?
  {
    assert !Decimal(s);
  }

  lemma PortQuestion(q: Question, regex: Regex)
    requires q == Question("port", "Port", "", "integer", Str("eighty"), false, false, [], None)
    ensures Kind(q.kind) == "integer" && QuestionValid(q, regex)
    ensures !Typed("integer", q.default) && Coerce("integer", q.default).None?
  {
    KindIsNormal("integer");
    assert IsInputId("port") by { assert forall i :: 0 <= i < 4 ==> IdChar("port"[i]); }
    NoNumber("eighty");
    hide Normalize, Atoi;
  }

  /** A default of another type is taken over unchecked: accepted here, rejected by the workflow, and
      rejected when the resolved inputs are resolved again. */
  lemma UntypedDefaultRejected(regex: Regex) returns (qs: seq<Question>, resolved: Object, schema: Schema)
    ensures QuestionsValid(qs, regex) && Answered(qs, map[], regex) && Resolved(qs, map[], regex, resolved) && SchemaFor(qs, schema)
    ensures !Satisfies(schema, Merge(resolved, map[]), regex)
    ensures !Answered(qs, resolved, regex)
  {
    hide *;
    var q := Question("port", "Port", "", "integer", Str("eighty"), false, false, [], None);
    qs, resolved := [q], map["port" := q.default];
    schema := Schema([], map["port" := PropertyOf(q)], None);
    PortQuestion(q, regex);
    OneQuestion(q, regex);
    DefaultsAccepted(qs, map[], regex, resolved, schema);
  }

  lemma OneQuestion(q: Question, regex: Regex)
    requires QuestionValid(q, regex) && !q.required && q.default != Null
    requires !Typed(Kind(q.kind), q.default) && Coerce(Kind(q.kind), q.default).None?
    ensures QuestionsValid([q], regex) && Answered([q], map[], regex) && !DefaultsTyped([q], map[])
    ensures Resolved([q], map[], regex, map[q.id := q.default]) && !Answered([q], map[q.id := q.default], regex)
    ensures SchemaFor([q], Schema([], map[q.id := PropertyOf(q)], None))
  {
    hide QuestionValid, Typed, Kind, PropertyOf, Coerce;
    assert [q][0] == q;
    assert Declared([q], q.id);
    assert Gives([q][0], map[], regex);
    assert Answer([q][0], map[q.id := q.default], regex).None?;
  }
}
