/** Template rendering: RenderWorkflowInput, renderWorkflowString and workflowTemplateValue. */
module Template {
  import opened Inputs
  import opened Text
  import opened Values
  import opened Wrappers

  // ---- Tokens: what the delimiter pattern matches -------------------------------------

  predicate IsBrace(c: char) {
    c == '{' || c == '}'
  }

  /** How many characters precede the first brace. */
  function RunLength(s: string): (n: nat)
    ensures n <= |s|
    ensures forall i :: 0 <= i < n ==> !IsBrace(s[i])
    ensures n < |s| ==> IsBrace(s[n])
  {
    if s == "" || IsBrace(s[0]) then 0 else 1 + RunLength(s[1..])
  }

  /** A match starts at the front: two braces, a non-empty brace-free run, two braces. */
  predicate TokenAt(s: string) {
    && |s| >= 2 && s[0] == '{' && s[1] == '{'
    && var n := RunLength(s[2..]);
       n > 0 && n + 4 <= |s| && s[n + 2] == '}' && s[n + 3] == '}'
  }

  function Body(s: string): string
    requires TokenAt(s)
  {
    s[2..RunLength(s[2..]) + 2]
  }

  function AfterToken(s: string): string
    requires TokenAt(s)
  {
    s[RunLength(s[2..]) + 4..]
  }

  // ---- Resolving one token ------------------------------------------------------------

  datatype StepResult = StepResult(
    id: string, kind: string, status: string, operation: string, capability: string,
    attempts: int, error: string, metadata: Object)

  datatype Context = Context(
    inputs: Object,
    metadata: Object,
    authToken: string,
    workflowName: string,
    workflowNamespace: string,
    workflowVersion: int,
    steps: map<string, StepResult>,
    each: Option<Object>)

  const ROOTS := {"inputs", "metadata", "auth", "workflow", "steps", "each"}

  predicate EndsSegment(c: char) {
    c == '.' || c == '[' || c == '|' || c == ' ' || c == '\t'
  }

  /** workflowTemplateLeadingSegment. */
  function LeadingSegment(s: string): string {
    if s == "" || EndsSegment(s[0]) then "" else [s[0]] + LeadingSegment(s[1..])
  }

  /** The token names one of the context roots; all others belong to another renderer. */
  predicate Rooted(body: string) {
    LeadingSegment(Trim(body)) in ROOTS
  }

  function Root(ctx: Context): Object {
    var base := map[
      "inputs" := Obj(ctx.inputs),
      "metadata" := Obj(ctx.metadata),
      "auth" := Obj(map["token" := Str(ctx.authToken)]),
      "workflow" := Obj(map["name" := Str(ctx.workflowName), "namespace" := Str(ctx.workflowNamespace), "version" := Int(ctx.workflowVersion)]),
      "steps" := Obj(map name | name in ctx.steps :: StepObject(ctx.steps[name]))];
    if ctx.each.Some? then base["each" := Obj(ctx.each.value)] else base
  }

  function StepObject(r: StepResult): Value {
    Obj(map[
      "id" := Str(r.id), "kind" := Str(r.kind), "status" := Str(r.status), "operation" := Str(r.operation),
      "capability" := Str(r.capability), "attempts" := Int(r.attempts), "error" := Str(r.error), "metadata" := Obj(r.metadata)])
  }

  /** A foreign token as it is shipped on: only the white space inside is normalized. */
  function Reprint(body: string): string {
    "{{ " + Trim(body) + " }}"
  }

  /** workflowTemplateValue. */
  function Resolve(body: string, ctx: Context): Option<Value> {
    var trimmed := Trim(body);
    if !Rooted(body) then Some(Str(Reprint(body)))
    else match Parts(trimmed)
      case Some(parts) => Lookup(Obj(Root(ctx)), parts)
      case None => None
  }

  // ---- Rendering a string -------------------------------------------------------------

  /** How fmt prints a value that is not a string. */
  type Printer = Value -> string

  function Shown(v: Value, show: Printer): string {
    if v.Str? then v.text else show(v)
  }

  /** Every token replaced by what it resolves to; None as soon as one does not resolve. */
  function RenderText(s: string, ctx: Context, show: Printer): Option<string> {
    if s == "" then Some("")
    else if TokenAt(s) then
      match (Resolve(Body(s), ctx), RenderText(AfterToken(s), ctx, show))
      case (Some(v), Some(rest)) => Some(Shown(v, show) + rest)
      case _ => None
    else
      match RenderText(s[1..], ctx, show)
      case Some(rest) => Some([s[0]] + rest)
      case None => None
  }

  /** renderWorkflowString: a string that is one token yields the value itself. */
  function RenderString(s: string, ctx: Context, show: Printer): Option<Value> {
    if TokenAt(s) && AfterToken(s) == "" then Resolve(Body(s), ctx)
    else match RenderText(s, ctx, show)
      case Some(text) => Some(Str(text))
      case None => None
  }

  /** The start of every match, left to right and without overlap (FindAllStringSubmatchIndex). */
  function Starts(s: string, from: nat): seq<nat>
    decreases |s| - from
  {
    if from >= |s| then []
    else if TokenAt(s[from..]) then [from] + Starts(s, |s| - |AfterToken(s[from..])|)
    else Starts(s, from + 1)
  }

  function Prepend(front: string, rest: Option<string>): Option<string> {
    if rest.Some? then Some(front + rest.value) else None
  }

  lemma Prepending(a: string, b: string, rest: Option<string>)
    ensures Prepend("", rest) == rest && Prepend(a, Some(b)) == Some(a + b)
    ensures Prepend(a, Prepend(b, rest)) == Prepend(a + b, rest)
  {
    if rest.Some? {
      assert "" + rest.value == rest.value;
      assert a + (b + rest.value) == a + b + rest.value;
    }
  }

  /** One unfolding of the rendered text. */
  lemma TextStep(s: string, ctx: Context, show: Printer)
    requires s != ""
    ensures !TokenAt(s) ==> RenderText(s, ctx, show) == Prepend([s[0]], RenderText(s[1..], ctx, show))
    ensures TokenAt(s) ==> RenderText(s, ctx, show) ==
                           match Resolve(Body(s), ctx)
                           case Some(v) => Prepend(Shown(v, show), RenderText(AfterToken(s), ctx, show))
                           case None => None
  {
    hide TokenAt, AfterToken, Resolve, Body;
  }

  lemma StartsStep(s: string, from: nat)
    requires from < |s|
    ensures !TokenAt(s[from..]) ==> Starts(s, from) == Starts(s, from + 1)
    ensures TokenAt(s[from..]) ==> Starts(s, from) == [from] + Starts(s, |s| - |AfterToken(s[from..])|)
  {
    hide TokenAt, AfterToken;
  }

  /** Up to the next match the text is copied. */
  lemma {:induction false} NextMatch(s: string, from: nat, ctx: Context, show: Printer)
    requires from <= |s|
    ensures var starts := Starts(s, from);
            if starts == [] then RenderText(s[from..], ctx, show) == Some(s[from..])
            else
              && from <= starts[0] < |s| && TokenAt(s[starts[0]..])
              && starts[1..] == Starts(s, |s| - |AfterToken(s[starts[0]..])|)
              && RenderText(s[from..], ctx, show) == Prepend(s[from..starts[0]], RenderText(s[starts[0]..], ctx, show))
    decreases |s| - from
  {
    hide *;
    if from == |s| {
      assert s[from..] == "";
      StartsEnd(s, ctx, show);
    } else {
      StartsStep(s, from);
      var at := s[from..];
      TextStep(at, ctx, show);
      if TokenAt(at) {
        assert s[from..from] == "";
        Prepending("", "", RenderText(at, ctx, show));
      } else {
        var next := from + 1;
        NextMatch(s, next, ctx, show);
        assert at[1..] == s[next..] && at == [s[from]] + s[next..];
        var starts := Starts(s, next);
        if starts == [] {
          Prepending([s[from]], s[next..], None);
        } else {
          assert s[from..starts[0]] == [s[from]] + s[next..starts[0]];
          Prepending([s[from]], s[next..starts[0]], RenderText(s[starts[0]..], ctx, show));
        }
      }
    }
  }

  lemma StartsEnd(s: string, ctx: Context, show: Printer)
    ensures Starts(s, |s|) == [] && RenderText("", ctx, show) == Some("")
  {
  }

  /** The building loop of renderWorkflowString. */
  method BuildText(value: string, matches: seq<nat>, ctx: Context, show: Printer) returns (r: Option<string>)
    requires matches == Starts(value, 0)
    ensures r == RenderText(value, ctx, show)
  {
    hide TokenAt, AfterToken, Body, Resolve, RenderText, Shown, Starts;
    var builder, last: nat := "", 0;
    assert value[0..] == value;
    Prepending("", "", RenderText(value, ctx, show));
    for k := 0 to |matches|
      invariant last <= |value| && matches[k..] == Starts(value, last)
      invariant RenderText(value, ctx, show) == Prepend(builder, RenderText(value[last..], ctx, show))
    {
      NextMatch(value, last, ctx, show);
      assert matches[k] == matches[k..][0] && matches[k..][1..] == matches[k + 1..];
      var at := value[matches[k]..];
      TextStep(at, ctx, show);
      Prepending(builder, value[last..matches[k]], RenderText(at, ctx, show));
      builder := builder + value[last..matches[k]];
      match Resolve(Body(at), ctx)
      case None =>
        return None;
      case Some(resolved) =>
        Prepending(builder, Shown(resolved, show), RenderText(AfterToken(at), ctx, show));
        builder := builder + Shown(resolved, show);
        AfterIsSuffix(at);
        last := |value| - |AfterToken(at)|;
        assert value[last..] == AfterToken(at);
    }
    NextMatch(value, last, ctx, show);
    return Some(builder + value[last..]);
  }

  lemma AfterIsSuffix(s: string)
    requires TokenAt(s)
    ensures |AfterToken(s)| < |s| && AfterToken(s) == s[|s| - |AfterToken(s)|..]
  {
  }

  /** renderWorkflowString, as written: find the matches, then build the text around them. */
  method RenderWorkflowString(value: string, ctx: Context, show: Printer) returns (r: Option<Value>)
    ensures r == RenderString(value, ctx, show)
  {
    var matches := Starts(value, 0);
    NextMatch(value, 0, ctx, show);
    assert value[0..] == value;
    hide TokenAt, Body, Resolve, RenderText;
    if matches == [] {
      return Some(Str(value));
    }
    if |matches| == 1 && matches[0] == 0 && AfterToken(value) == "" {
      return Resolve(Body(value), ctx);
    }
    var text := BuildText(value, matches, ctx, show);
    return if text.Some? then Some(Str(text.value)) else None;
  }

  // ---- Foreign tokens -----------------------------------------------------------------

  /** No token of the string names a context root. */
  predicate Foreign(s: string) {
    s == "" ||
    (if TokenAt(s) then !Rooted(Body(s)) && Foreign(AfterToken(s)) else Foreign(s[1..]))
  }

  /** The string with each token reprinted. */
  function Reprinted(s: string): string {
    if s == "" then ""
    else if TokenAt(s) then Reprint(Body(s)) + Reprinted(AfterToken(s))
    else [s[0]] + Reprinted(s[1..])
  }

  lemma {:induction false} ForeignText(s: string, ctx: Context, show: Printer)
    requires Foreign(s)
    ensures RenderText(s, ctx, show) == Some(Reprinted(s))
  {
    hide Trim, Rooted;
    if s != "" {
      ForeignText(if TokenAt(s) then AfterToken(s) else s[1..], ctx, show);
    }
  }

  lemma ForeignString(s: string, ctx: Context, show: Printer)
    requires Foreign(s)
    ensures RenderString(s, ctx, show) == Some(Str(Reprinted(s)))
  {
    ForeignText(s, ctx, show);
    hide Trim, Rooted;
    if TokenAt(s) && AfterToken(s) == "" {
      assert Reprinted(AfterToken(s)) == "";
      assert Reprinted(s) == Reprint(Body(s));
      assert Resolve(Body(s), ctx) == Some(Str(Reprint(Body(s))));
    }
  }

  /** Reprinting keeps the first character. */
  lemma {:induction false} FirstKept(s: string)
    requires s != ""
    ensures Reprinted(s) != "" && Reprinted(s)[0] == s[0]
  {
    hide Trim;
  }

  predicate BraceFree(s: string) {
    forall i :: 0 <= i < |s| ==> !IsBrace(s[i])
  }

  /** The run ends where the first brace, or the end, is. */
  lemma {:induction false} RunIs(run: string, rest: string)
    requires BraceFree(run) && (rest == "" || IsBrace(rest[0]))
    ensures RunLength(run + rest) == |run|
  {
    if run != "" {
      assert (run + rest)[1..] == run[1..] + rest;
      RunIs(run[1..], rest);
    }
  }

  lemma RunFree(s: string)
    ensures BraceFree(s[..RunLength(s)])
  {
  }

  /** Reprinting passes over brace-free text. */
  lemma {:induction false} ReprintRun(run: string, rest: string)
    requires BraceFree(run)
    ensures Reprinted(run + rest) == run + Reprinted(rest)
  {
    hide Reprinted;
    if run == "" {
      assert run + rest == rest;
    } else {
      ReprintRun(run[1..], rest);
      ReprintPlain(run[0], run[1..] + rest);
      assert run + rest == [run[0]] + (run[1..] + rest);
      assert [run[0]] + (run[1..] + Reprinted(rest)) == run + Reprinted(rest);
    }
  }

  lemma ReprintPlain(c: char, tail: string)
    requires !IsBrace(c)
    ensures Reprinted([c] + tail) == [c] + Reprinted(tail)
  {
    hide Reprint;
    assert ([c] + tail)[1..] == tail;
  }

  lemma ReprintChar(s: string)
    requires s != "" && !TokenAt(s)
    ensures Reprinted(s) == [s[0]] + Reprinted(s[1..])
  {
  }

  /** Where no token starts, reprinting what follows does not make one start. */
  lemma NoNewToken(s: string)
    requires s != "" && !TokenAt(s)
    ensures !TokenAt([s[0]] + Reprinted(s[1..]))
  {
    var out := [s[0]] + Reprinted(s[1..]);
    if |s| >= 2 {
      FirstKept(s[1..]);
      if s[0] == '{' && s[1] == '{' {
        BehindBraces(s);
      }
    }
  }

  lemma BehindBraces(s: string)
    requires |s| >= 2 && s[0] == '{' && s[1] == '{' && !TokenAt(s)
    ensures !TokenAt([s[0]] + Reprinted(s[1..]))
  {
    if TokenAt(s[1..]) {
      assert ([s[0]] + Reprinted(s[1..]))[2] == '{';
    } else {
      ReprintChar(s[1..]);
      assert s[1..][1..] == s[2..];
      RunStays(s[2..]);
      assert ([s[0]] + Reprinted(s[1..]))[2..] == Reprinted(s[2..]);
    }
  }

  /** Reprinting keeps the run length, and does not make a run close. */
  lemma RunStays(s: string)
    ensures var n := RunLength(s); var out := Reprinted(s);
            RunLength(out) == n && (n + 2 <= |out| && out[n] == '}' && out[n + 1] == '}' ==>
                                    n + 2 <= |s| && s[n] == '}' && s[n + 1] == '}')
  {
    hide *;
    var n := RunLength(s);
    var run, rest := s[..n], s[n..];
    assert s == run + rest;
    var tail := Reprinted(rest);
    RunFree(s);
    ReprintRun(run, rest);
    SameClosing(rest);
    RunIs(run, tail);
    assert n + 2 <= |run + tail| ==> (run + tail)[n] == tail[0] && (run + tail)[n + 1] == tail[1];
    assert n + 2 <= |s| ==> s[n] == rest[0] && s[n + 1] == rest[1];
  }

  /** Whether a brace pair closes here is not changed by reprinting. */
  lemma SameClosing(rest: string)
    requires rest == "" || IsBrace(rest[0])
    ensures Reprinted(rest) == "" || IsBrace(Reprinted(rest)[0])
    ensures |Reprinted(rest)| >= 2 && Reprinted(rest)[0] == '}' && Reprinted(rest)[1] == '}' ==>
              |rest| >= 2 && rest[0] == '}' && rest[1] == '}'
  {
    if rest != "" {
      FirstKept(rest);
      if rest[0] == '}' && |rest| >= 2 {
        FirstKept(rest[1..]);
        ReprintChar(rest);
      }
    }
  }

  /** A reprinted token is a token again, with the same trimmed body. */
  lemma TokenAgain(body: string, rest: string)
    requires BraceFree(body)
    ensures var s := Reprint(body) + rest;
            TokenAt(s) && Body(s) == " " + Trim(body) + " " && AfterToken(s) == rest
    ensures Reprint(" " + Trim(body) + " ") == Reprint(body)
    ensures Rooted(" " + Trim(body) + " ") == Rooted(body)
  {
    TrimPadded(Trim(body));
    PaddedToken(Trim(body), rest);
    hide Trim, LeadingSegment;
  }

  lemma PaddedToken(t: string, rest: string)
    requires BraceFree(t)
    ensures var s := "{{ " + t + " }}" + rest;
            TokenAt(s) && Body(s) == " " + t + " " && AfterToken(s) == rest
  {
    var s := "{{ " + t + " }}" + rest;
    var run := " " + t + " ";
    assert s[2..] == run + ("}}" + rest);
    RunIs(run, "}}" + rest);
  }

  lemma BodyFree(s: string)
    requires TokenAt(s)
    ensures BraceFree(Body(s))
  {
  }

  /** Reprinting a second time changes nothing. */
  lemma {:induction false} ReprintedTwice(s: string)
    ensures Reprinted(Reprinted(s)) == Reprinted(s)
    ensures Foreign(s) ==> Foreign(Reprinted(s))
  {
    hide Reprint, Rooted;
    if s == "" {
    } else if TokenAt(s) {
      ReprintedTwice(AfterToken(s));
      BodyFree(s);
      TokenAgain(Body(s), Reprinted(AfterToken(s)));
    } else {
      ReprintedTwice(s[1..]);
      NoNewToken(s);
      ReprintChar(s);
      assert Reprinted(s)[1..] == Reprinted(s[1..]);
      ReprintChar(Reprinted(s));
    }
  }
}
