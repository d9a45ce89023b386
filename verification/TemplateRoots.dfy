/** What tokens that name a context root render to. */
module TemplateRoots {
  import opened Inputs
  import opened Template
  import opened Text
  import opened Values
  import opened Wrappers

  /** One part of a dotted path as it can stand in a token. */
  predicate PathPart(s: string) {
    s != "" && Trimmed(s) && BraceFree(s) && '.' !in s
  }

  ghost predicate PathParts(parts: seq<string>) {
    parts != [] && forall i :: 0 <= i < |parts| ==> PathPart(parts[i])
  }

  function Token(body: string): string {
    "{{ " + body + " }}"
  }

  lemma {:induction false} DottedShape(parts: seq<string>)
    requires PathParts(parts)
    ensures var body := Joined(parts, '.');
            body != "" && Trimmed(body) && BraceFree(body) && parts[0] <= body &&
            (|parts| > 1 ==> |body| > |parts[0]| && body[|parts[0]|] == '.')
  {
    hide IsSpace;
    if |parts| > 1 {
      assert PathPart(parts[0]);
      DottedShape(parts[1..]);
      var rest := Joined(parts[1..], '.');
      var body := parts[0] + ['.'] + rest;
      assert body[|body| - 1] == rest[|rest| - 1];
    }
  }

  lemma {:induction false} LeadingIs(root: string, rest: string)
    requires forall i :: 0 <= i < |root| ==> !EndsSegment(root[i])
    requires rest == "" || EndsSegment(rest[0])
    ensures LeadingSegment(root + rest) == root
  {
    if root == "" {
      assert root + rest == rest;
    } else {
      LeadingIs(root[1..], rest);
      assert (root + rest)[1..] == root[1..] + rest;
    }
  }

  lemma PartsOfPath(parts: seq<string>)
    requires PathParts(parts)
    ensures Parts(Joined(parts, '.')) == Some(parts)
  {
    SplitJoined(parts, '.');
    hide SplitOn, Joined, Trim;
    forall i | 0 <= i < |parts| ensures Trim(parts[i]) == parts[i] && parts[i] != "" {
      assert PathPart(parts[i]);
    }
    assert TrimAll(parts) == parts;
  }

  /** A token over a path whose first part is a context root resolves by following the path. */
  lemma PathResolves(parts: seq<string>, ctx: Context)
    requires PathParts(parts) && parts[0] in ROOTS && forall i :: 0 <= i < |parts[0]| ==> !EndsSegment(parts[0][i])
    ensures Resolve(" " + Joined(parts, '.') + " ", ctx) == Lookup(Obj(Root(ctx)), parts)
  {
    var body := Joined(parts, '.');
    DottedShape(parts);
    TrimPadded(body);
    PartsOfPath(parts);
    var rest := body[|parts[0]|..];
    assert body == parts[0] + rest;
    assert |parts| == 1 ==> body == parts[0];
    LeadingIs(parts[0], rest);
    hide Joined, Trim, Parts, LeadingSegment, Root, Lookup;
  }

  lemma TokenString(body: string, ctx: Context, show: Printer)
    requires BraceFree(body)
    ensures RenderString(Token(body), ctx, show) == Resolve(" " + body + " ", ctx)
  {
    PaddedToken(body, "");
    assert Token(body) + "" == Token(body);
    hide Resolve, TokenAt, Body, AfterToken, RenderText;
  }

  lemma RootIsWord(root: string)
    requires root in ROOTS
    ensures PathPart(root) && forall i :: 0 <= i < |root| ==> !EndsSegment(root[i])
  {
  }

  /** A string that is one token over a path under a context root. */
  lemma PathRenders(parts: seq<string>, ctx: Context, show: Printer)
    requires PathParts(parts) && parts[0] in ROOTS
    ensures RenderString(Token(Joined(parts, '.')), ctx, show) == Lookup(Obj(Root(ctx)), parts)
  {
    assert |parts| > 0;
    hide *;
    RootIsWord(parts[0]);
    DottedShape(parts);
    PathResolves(parts, ctx);
    TokenString(Joined(parts, '.'), ctx, show);
  }

  // ---- The roots one by one -----------------------------------------------------------

  lemma LookupOne(m: Object, root: string)
    ensures Lookup(Obj(m), [root]) == if root in m then Some(m[root]) else None
  {
    assert [root][1..] == [];
  }

  lemma LookupTwo(m: Object, root: string, k: string)
    ensures Lookup(Obj(m), [root, k]) == if root in m then Lookup(m[root], [k]) else None
  {
    assert [root, k][1..] == [k];
  }

  lemma TwoParts(root: string, k: string, ctx: Context, show: Printer)
    requires root in ROOTS && PathPart(k)
    ensures RenderString("{{ " + root + "." + k + " }}", ctx, show) == if root in Root(ctx) then Lookup(Root(ctx)[root], [k]) else None
  {
    RootIsWord(root);
    var parts := [root, k];
    assert PathParts(parts);
    assert Joined(parts, '.') == root + ['.'] + k by { assert parts[1..] == [k]; }
    hide *;
    PathRenders(parts, ctx, show);
    LookupTwo(Root(ctx), root, k);
    assert Token(root + ['.'] + k) == "{{ " + root + "." + k + " }}" by { TokenText(root, k); }
  }

  lemma TokenText(root: string, k: string)
    ensures Token(root + ['.'] + k) == "{{ " + root + "." + k + " }}"
  {
  }

  lemma RootFields(ctx: Context)
    ensures var root := Root(ctx);
            && "inputs" in root && root["inputs"] == Obj(ctx.inputs)
            && "metadata" in root && root["metadata"] == Obj(ctx.metadata)
            && "auth" in root && root["auth"] == Obj(map["token" := Str(ctx.authToken)])
            && "workflow" in root
            && root["workflow"] == Obj(map["name" := Str(ctx.workflowName), "namespace" := Str(ctx.workflowNamespace), "version" := Int(ctx.workflowVersion)])
            && "steps" in root && root["steps"] == Obj(map name | name in ctx.steps :: StepObject(ctx.steps[name]))
            && ("each" in root <==> ctx.each.Some?) && (ctx.each.Some? ==> root["each"] == Obj(ctx.each.value))
  {
    hide StepObject;
  }

  /** A token under inputs, metadata or each yields the named value itself, or fails. */
  lemma ContextTokens(k: string, ctx: Context, show: Printer)
    requires PathPart(k)
    ensures RenderString("{{ inputs." + k + " }}", ctx, show) == if k in ctx.inputs then Some(ctx.inputs[k]) else None
    ensures RenderString("{{ metadata." + k + " }}", ctx, show) == if k in ctx.metadata then Some(ctx.metadata[k]) else None
    ensures RenderString("{{ each." + k + " }}", ctx, show) ==
            if ctx.each.Some? && k in ctx.each.value then Some(ctx.each.value[k]) else None
  {
    RootFields(ctx);
    hide Root, RenderString, PathPart;
    TwoParts("inputs", k, ctx, show);
    TwoParts("metadata", k, ctx, show);
    TwoParts("each", k, ctx, show);
    assert "{{ " + "inputs" + "." + k + " }}" == "{{ inputs." + k + " }}";
    assert "{{ " + "metadata" + "." + k + " }}" == "{{ metadata." + k + " }}";
    assert "{{ " + "each" + "." + k + " }}" == "{{ each." + k + " }}";
    LookupOne(ctx.inputs, k);
    LookupOne(ctx.metadata, k);
    if ctx.each.Some? {
      LookupOne(ctx.each.value, k);
    }
    hide Lookup;
  }

  /** The named fields under auth and workflow; every other name fails. */
  lemma DispatchTokens(k: string, ctx: Context, show: Printer)
    requires PathPart(k)
    ensures RenderString("{{ auth." + k + " }}", ctx, show) == if k == "token" then Some(Str(ctx.authToken)) else None
    ensures RenderString("{{ workflow." + k + " }}", ctx, show) ==
            if k == "name" then Some(Str(ctx.workflowName))
            else if k == "namespace" then Some(Str(ctx.workflowNamespace))
            else if k == "version" then Some(Int(ctx.workflowVersion))
            else None
  {
    RootFields(ctx);
    hide Root, RenderString, PathPart;
    TwoParts("auth", k, ctx, show);
    TwoParts("workflow", k, ctx, show);
    assert "{{ " + "auth" + "." + k + " }}" == "{{ auth." + k + " }}";
    assert "{{ " + "workflow" + "." + k + " }}" == "{{ workflow." + k + " }}";
    LookupOne(map["token" := Str(ctx.authToken)], k);
    LookupOne(map["name" := Str(ctx.workflowName), "namespace" := Str(ctx.workflowNamespace), "version" := Int(ctx.workflowVersion)], k);
    hide Lookup;
  }

  lemma ThreeParts(id: string, k: string, ctx: Context, show: Printer)
    requires PathPart(id) && PathPart(k)
    ensures RenderString("{{ steps." + id + "." + k + " }}", ctx, show) ==
            if id in ctx.steps then Lookup(StepObject(ctx.steps[id]), [k]) else None
  {
    var parts := ["steps", id, k];
    RootIsWord("steps");
    RootFields(ctx);
    assert PathParts(parts);
    JoinThree("steps", id, k);
    assert "steps" + ['.'] + (id + ['.'] + k) == "steps." + id + "." + k;
    assert Token("steps." + id + "." + k) == "{{ steps." + id + "." + k + " }}";
    hide Root, RenderString, Lookup, StepObject, PathParts, Joined;
    PathRenders(parts, ctx, show);
    LookupSteps(Root(ctx), id, k);
  }

  lemma JoinThree(a: string, b: string, c: string)
    ensures Joined([a, b, c], '.') == a + ['.'] + (b + ['.'] + c)
  {
    assert [a, b, c][1..] == [b, c] && [b, c][1..] == [c];
    assert Joined([b, c], '.') == b + ['.'] + Joined([c], '.');
  }

  lemma LookupSteps(root: Object, id: string, k: string)
    requires "steps" in root && root["steps"].Obj?
    ensures var steps := root["steps"].fields;
            Lookup(Obj(root), ["steps", id, k]) == if id in steps then Lookup(steps[id], [k]) else None
  {
    assert ["steps", id, k][1..] == [id, k];
    LookupTwo(root["steps"].fields, id, k);
  }

  /** Each field of a step's result; an unknown step or another name fails. */
  lemma StepTokens(id: string, k: string, ctx: Context, show: Printer)
    requires PathPart(id) && PathPart(k)
    ensures RenderString("{{ steps." + id + "." + k + " }}", ctx, show) ==
            if id !in ctx.steps then None
            else
              var r := ctx.steps[id];
              if k == "id" then Some(Str(r.id))
              else if k == "kind" then Some(Str(r.kind))
              else if k == "status" then Some(Str(r.status))
              else if k == "operation" then Some(Str(r.operation))
              else if k == "capability" then Some(Str(r.capability))
              else if k == "attempts" then Some(Int(r.attempts))
              else if k == "error" then Some(Str(r.error))
              else if k == "metadata" then Some(Obj(r.metadata))
              else None
  {
    hide RenderString, PathPart;
    ThreeParts(id, k, ctx, show);
    if id in ctx.steps {
      LookupOne(StepObject(ctx.steps[id]).fields, k);
      hide Lookup;
    }
  }

  // ---- A token inside other text ------------------------------------------------------

  lemma {:induction false} TextPlain(pre: string, rest: string, ctx: Context, show: Printer)
    requires BraceFree(pre)
    ensures RenderText(pre + rest, ctx, show) == Prepend(pre, RenderText(rest, ctx, show))
  {
    hide RenderText;
    if pre == "" {
      assert pre + rest == rest;
      Prepending("", "", RenderText(rest, ctx, show));
    } else {
      var s := pre + rest;
      assert s[1..] == pre[1..] + rest && !TokenAt(s);
      TextStep(s, ctx, show);
      TextPlain(pre[1..], rest, ctx, show);
      Prepending([pre[0]], pre[1..], RenderText(rest, ctx, show));
      assert [pre[0]] + pre[1..] == pre;
    }
  }

  lemma TextEnd(post: string, ctx: Context, show: Printer)
    requires BraceFree(post)
    ensures RenderText(post, ctx, show) == Some(post)
  {
    assert post + "" == post;
    TextPlain(post, "", ctx, show);
  }

  /** Between other text a token is replaced by the text of what it yields alone. */
  lemma TokenInText(pre: string, body: string, post: string, ctx: Context, show: Printer)
    requires BraceFree(pre) && BraceFree(body) && BraceFree(post) && pre + post != ""
    ensures RenderString(pre + Token(body) + post, ctx, show) ==
            match RenderString(Token(body), ctx, show)
            case Some(v) => Some(Str(pre + (if v.Str? then v.text else show(v)) + post))
            case None => None
  {
    hide *;
    var at := Token(body) + post;
    var s := pre + at;
    assert pre + Token(body) + post == s;
    TokenString(body, ctx, show);
    TextPlain(pre, at, ctx, show);
    TextEnd(post, ctx, show);
    NotAlone(pre, body, post);
    StringOfText(s, ctx, show);
    var alone := RenderString(Token(body), ctx, show);
    TextToken(body, post, ctx, show);
    if alone.Some? {
      var shown := Shown(alone.value, show);
      Prepending(shown, post, None);
      Prepending(pre, shown + post, None);
      assert pre + (shown + post) == pre + shown + post;
      ShownIs(alone.value, show);
    } else {
      NothingPrepended(pre);
    }
  }

  lemma NothingPrepended(pre: string)
    ensures Prepend(pre, None) == None
  {
  }

  lemma ShownIs(v: Value, show: Printer)
    ensures Shown(v, show) == if v.Str? then v.text else show(v)
  {
  }

  lemma TextToken(body: string, post: string, ctx: Context, show: Printer)
    requires BraceFree(body)
    ensures RenderText(Token(body) + post, ctx, show) ==
            match Resolve(" " + body + " ", ctx)
            case Some(v) => Prepend(Shown(v, show), RenderText(post, ctx, show))
            case None => None
  {
    PaddedToken(body, post);
    TextStep(Token(body) + post, ctx, show);
    hide Resolve, RenderText, TokenAt, Body, AfterToken;
  }

  lemma StringOfText(s: string, ctx: Context, show: Printer)
    requires !(TokenAt(s) && AfterToken(s) == "")
    ensures RenderString(s, ctx, show) == match RenderText(s, ctx, show) case Some(text) => Some(Str(text)) case None => None
  {
    hide Resolve, RenderText, TokenAt, Body, AfterToken;
  }

  lemma NotAlone(pre: string, body: string, post: string)
    requires BraceFree(pre) && BraceFree(body) && pre + post != ""
    ensures var s := pre + (Token(body) + post); !(TokenAt(s) && AfterToken(s) == "")
  {
    PaddedToken(body, post);
    if pre == "" {
      assert pre + (Token(body) + post) == Token(body) + post;
    } else {
      assert (pre + (Token(body) + post))[0] == pre[0];
    }
  }
}
