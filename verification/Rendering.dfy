/** RenderWorkflowInput: rendering whole value trees, keys included. */
module Rendering {
  import opened Template
  import opened Values
  import opened Wrappers

  /** The text a rendered key becomes. */
  function KeyText(key: string, ctx: Context, show: Printer): Option<string> {
    match RenderString(key, ctx, show)
    case Some(v) => Some(Shown(v, show))
    case None => None
  }

  /** Every key and every string of the tree resolves. */
  ghost predicate Renderable(v: Value, ctx: Context, show: Printer) {
    match v
    case Obj(fields) => forall k :: k in fields ==> KeyText(k, ctx, show).Some? && Renderable(fields[k], ctx, show)
    case Arr(items) => forall i :: 0 <= i < |items| ==> Renderable(items[i], ctx, show)
    case Str(s) => RenderString(s, ctx, show).Some?
    case _ => true
  }

  /** `out` is a possible rendering of `v`.  Go ranges over an object in any order, so when two
      keys render alike any one of their values may end up under that key. */
  ghost predicate Renders(v: Value, out: Value, ctx: Context, show: Printer)
    decreases v, 1
  {
    match v
    case Obj(fields) =>
      && out.Obj?
      && (forall k :: k in fields ==> Lands(k, out.fields, ctx, show))
      && (forall t :: t in out.fields ==> FromKey(fields, t, out.fields[t], ctx, show))
    case Arr(items) =>
      && out.Arr? && |out.items| == |items|
      && forall i :: 0 <= i < |items| ==> Renders(items[i], out.items[i], ctx, show)
    case Str(s) => RenderString(s, ctx, show) == Some(out)
    case _ => out == v
  }

  /** The value is a rendering of what stands under a key rendered to `t`. */
  ghost predicate FromKey(fields: Object, t: string, value: Value, ctx: Context, show: Printer)
    decreases Obj(fields), 0
  {
    exists k :: k in fields && KeyText(k, ctx, show) == Some(t) && Renders(fields[k], value, ctx, show)
  }

  predicate Lands(k: string, out: Object, ctx: Context, show: Printer) {
    KeyText(k, ctx, show).Some? && KeyText(k, ctx, show).value in out
  }

  /** RenderWorkflowInput: an error exactly when some key or string does not resolve. */
  method RenderWorkflowInput(v: Value, ctx: Context, show: Printer) returns (out: Option<Value>)
    ensures out.Some? <==> Renderable(v, ctx, show)
    ensures out.Some? ==> Renders(v, out.value, ctx, show)
    decreases v, 1
  {
    hide RenderString, KeyText;
    match v
    case Obj(fields) => out := RenderObject(fields, ctx, show);
    case Arr(items) => out := RenderArray(items, ctx, show);
    case Str(s) => out := RenderWorkflowString(s, ctx, show);
    case _ => out := Some(v);
  }

  method RenderObject(fields: Object, ctx: Context, show: Printer) returns (out: Option<Value>)
    ensures out.Some? <==> Renderable(Obj(fields), ctx, show)
    ensures out.Some? ==> Renders(Obj(fields), out.value, ctx, show)
    decreases Obj(fields), 0
  {
    assert Sourced(fields, map[], map[], ctx, show);
    hide *;
    var rendered: Object := map[];
    ghost var source: map<string, string> := map[];
    var keys := fields.Keys;
    while keys != {}
      invariant keys <= fields.Keys
      invariant forall k :: k in fields && k !in keys ==> Lands(k, rendered, ctx, show) && Renderable(fields[k], ctx, show)
      invariant Sourced(fields, rendered, source, ctx, show)
    {
      var key :| key in keys;
      var renderedKey := RenderWorkflowString(key, ctx, show);
      if renderedKey.None? {
        NotRenderable(fields, key, ctx, show);
        return None;
      }
      var next := RenderWorkflowInput(fields[key], ctx, show);
      if next.None? {
        NotRenderable(fields, key, ctx, show);
        return None;
      }
      var text := Shown(renderedKey.value, show);
      Landed(fields, rendered, source, key, text, next.value, ctx, show);
      keys := keys - {key};
      rendered := rendered[text := next.value];
      source := source[text := key];
    }
    AllLanded(fields, rendered, source, ctx, show);
    out := Some(Obj(rendered));
  }

  /** `source` names a key whose rendering is stored under each text. */
  ghost predicate Sourced(fields: Object, rendered: Object, source: map<string, string>, ctx: Context, show: Printer) {
    forall t :: t in rendered ==>
      && t in source && source[t] in fields && KeyText(source[t], ctx, show) == Some(t)
      && Renders(fields[source[t]], rendered[t], ctx, show)
  }

  lemma Landed(fields: Object, rendered: Object, source: map<string, string>, key: string, text: string, value: Value,
               ctx: Context, show: Printer)
    requires key in fields && Sourced(fields, rendered, source, ctx, show)
    requires RenderString(key, ctx, show).Some? && Shown(RenderString(key, ctx, show).value, show) == text
    requires Renders(fields[key], value, ctx, show)
    ensures Sourced(fields, rendered[text := value], source[text := key], ctx, show)
    ensures Lands(key, rendered[text := value], ctx, show)
    ensures forall k :: Lands(k, rendered, ctx, show) ==> Lands(k, rendered[text := value], ctx, show)
  {
    hide RenderString, Renders, Shown;
  }

  lemma AllLanded(fields: Object, rendered: Object, source: map<string, string>, ctx: Context, show: Printer)
    requires Sourced(fields, rendered, source, ctx, show)
    requires forall k :: k in fields ==> Lands(k, rendered, ctx, show) && Renderable(fields[k], ctx, show)
    ensures Renderable(Obj(fields), ctx, show) && Renders(Obj(fields), Obj(rendered), ctx, show)
  {
    hide KeyText;
  }

  lemma NotRenderable(fields: Object, key: string, ctx: Context, show: Printer)
    requires key in fields && (RenderString(key, ctx, show).None? || !Renderable(fields[key], ctx, show))
    ensures !Renderable(Obj(fields), ctx, show)
  {
  }

  method RenderArray(items: seq<Value>, ctx: Context, show: Printer) returns (out: Option<Value>)
    ensures out.Some? <==> Renderable(Arr(items), ctx, show)
    ensures out.Some? ==> Renders(Arr(items), out.value, ctx, show)
    decreases Arr(items), 0
  {
    hide FromKey, RenderString, KeyText;
    var rendered := [];
    for i := 0 to |items|
      invariant |rendered| == i
      invariant forall k :: 0 <= k < i ==> Renderable(items[k], ctx, show) && Renders(items[k], rendered[k], ctx, show)
    {
      var next := RenderWorkflowInput(items[i], ctx, show);
      if next.None? {
        return None;
      }
      rendered := rendered + [next.value];
    }
    out := Some(Arr(rendered));
  }

  // ---- Trees without context-rooted tokens --------------------------------------------

  /** No key and no string of the tree holds a token that names a context root. */
  ghost predicate ForeignTree(v: Value) {
    match v
    case Obj(fields) => forall k :: k in fields ==> Foreign(k) && ForeignTree(fields[k])
    case Arr(items) => forall i :: 0 <= i < |items| ==> ForeignTree(items[i])
    case Str(s) => Foreign(s)
    case _ => true
  }

  lemma ForeignKey(key: string, ctx: Context, show: Printer)
    requires Foreign(key)
    ensures KeyText(key, ctx, show) == Some(Reprinted(key))
    ensures Foreign(Reprinted(key)) && KeyText(Reprinted(key), ctx, show) == Some(Reprinted(key))
    ensures RenderString(Reprinted(key), ctx, show) == Some(Str(Reprinted(key)))
  {
    ForeignString(key, ctx, show);
    ReprintedTwice(key);
    ForeignString(Reprinted(key), ctx, show);
  }

  /** Rendering never fails on such a tree. */
  lemma {:induction false} ForeignNeverFails(v: Value, ctx: Context, show: Printer)
    requires ForeignTree(v)
    ensures Renderable(v, ctx, show)
  {
    hide Foreign, RenderString, KeyText;
    match v
    case Obj(fields) =>
      forall k | k in fields ensures KeyText(k, ctx, show).Some? && Renderable(fields[k], ctx, show) {
        ForeignKey(k, ctx, show);
        ForeignNeverFails(fields[k], ctx, show);
      }
    case Arr(items) =>
      forall i | 0 <= i < |items| ensures Renderable(items[i], ctx, show) {
        ForeignNeverFails(items[i], ctx, show);
      }
    case Str(s) =>
      ForeignString(s, ctx, show);
    case _ =>
  }

  /** What rendering such a tree yields is such a tree again, and one of its own renderings. */
  lemma {:induction false} ForeignStays(v: Value, out: Value, ctx: Context, show: Printer)
    requires ForeignTree(v) && Renders(v, out, ctx, show)
    ensures ForeignTree(out) && Renders(out, out, ctx, show)
    decreases v
  {
    hide Foreign, RenderString, KeyText;
    match v
    case Obj(fields) =>
      forall t | t in out.fields
        ensures Foreign(t) && ForeignTree(out.fields[t]) && KeyText(t, ctx, show) == Some(t)
        ensures Renders(out.fields[t], out.fields[t], ctx, show)
      {
        assert FromKey(fields, t, out.fields[t], ctx, show);
        var k :| k in fields && KeyText(k, ctx, show) == Some(t) && Renders(fields[k], out.fields[t], ctx, show);
        ForeignKey(k, ctx, show);
        ForeignStays(fields[k], out.fields[t], ctx, show);
      }
    case Arr(items) =>
      forall i | 0 <= i < |items| ensures ForeignTree(out.items[i]) && Renders(out.items[i], out.items[i], ctx, show) {
        ForeignStays(items[i], out.items[i], ctx, show);
      }
    case Str(s) =>
      ForeignString(s, ctx, show);
      ForeignKey(s, ctx, show);
    case _ =>
  }

  /** The texts a rendered object is keyed by render to themselves. */
  lemma RenderedKey(fields: Object, out: Object, t: string, ctx: Context, show: Printer) returns (k: string)
    requires ForeignTree(Obj(fields)) && Renders(Obj(fields), Obj(out), ctx, show) && t in out
    ensures k in fields && ForeignTree(fields[k]) && Renders(fields[k], out[t], ctx, show)
    ensures KeyText(t, ctx, show) == Some(t)
  {
    hide Foreign, RenderString, KeyText, Renders;
    ObjectParts(fields, out, ctx, show);
    k := KeyOf(fields, t, out[t], ctx, show);
    ForeignKey(k, ctx, show);
  }

  /** A second rendering of an object has the same keys, each with a rendering of its value. */
  lemma SecondRendering(fields: Object, out: Object, again: Object, ctx: Context, show: Printer)
    requires ForeignTree(Obj(fields)) && Renders(Obj(fields), Obj(out), ctx, show) && Renders(Obj(out), Obj(again), ctx, show)
    ensures again.Keys == out.Keys
    ensures forall t :: t in out ==> Renders(out[t], again[t], ctx, show)
  {
    ObjectParts(out, again, ctx, show);
    hide *;
    forall t | t in out ensures KeyText(t, ctx, show) == Some(t) && t in again {
      var _ := RenderedKey(fields, out, t, ctx, show);
    }
    forall t | t in again ensures t in out && Renders(out[t], again[t], ctx, show) {
      var u := KeyOf(out, t, again[t], ctx, show);
    }
  }

  lemma ObjectParts(fields: Object, out: Object, ctx: Context, show: Printer)
    requires Renders(Obj(fields), Obj(out), ctx, show)
    ensures forall k :: k in fields ==> KeyText(k, ctx, show).Some? && KeyText(k, ctx, show).value in out
    ensures forall t :: t in out ==> FromKey(fields, t, out[t], ctx, show)
  {
    hide KeyText, FromKey;
    forall k | k in fields ensures KeyText(k, ctx, show).Some? && KeyText(k, ctx, show).value in out {
      assert Lands(k, out, ctx, show);
    }
  }

  lemma ArrayParts(items: seq<Value>, out: Value, ctx: Context, show: Printer)
    requires Renders(Arr(items), out, ctx, show)
    ensures out.Arr? && |out.items| == |items| && forall i :: 0 <= i < |items| ==> Renders(items[i], out.items[i], ctx, show)
  {
  }

  /** Without context-rooted tokens a string renders to a string that stays as it is. */
  lemma LeafParts(v: Value, out: Value, ctx: Context, show: Printer)
    requires Renders(v, out, ctx, show)
    ensures v.Obj? ==> out.Obj?
    ensures !v.Obj? && !v.Arr? && ForeignTree(v) ==> forall again :: Renders(out, again, ctx, show) ==> again == out
  {
    hide FromKey, Foreign, RenderString, KeyText;
    if v.Str? && ForeignTree(v) {
      ForeignString(v.text, ctx, show);
      ForeignKey(v.text, ctx, show);
    }
  }

  lemma KeyOf(fields: Object, t: string, value: Value, ctx: Context, show: Printer) returns (k: string)
    requires FromKey(fields, t, value, ctx, show)
    ensures k in fields && KeyText(k, ctx, show) == Some(t) && Renders(fields[k], value, ctx, show)
  {
    hide Renders;
    k :| k in fields && KeyText(k, ctx, show) == Some(t) && Renders(fields[k], value, ctx, show);
  }

  /** A second rendering, whatever the order in which objects are walked, can only give back the first. */
  lemma {:induction false} SecondIsFirst(v: Value, out: Value, again: Value, ctx: Context, show: Printer)
    requires ForeignTree(v) && Renders(v, out, ctx, show) && Renders(out, again, ctx, show)
    ensures again == out
    decreases v
  {
    hide *;
    LeafParts(v, out, ctx, show);
    match v
    case Obj(fields) =>
      LeafParts(out, again, ctx, show);
      SecondRendering(fields, out.fields, again.fields, ctx, show);
      forall t | t in out.fields ensures again.fields[t] == out.fields[t] {
        var k := RenderedKey(fields, out.fields, t, ctx, show);
        SecondIsFirst(fields[k], out.fields[t], again.fields[t], ctx, show);
      }
    case Arr(items) =>
      ArrayParts(items, out, ctx, show);
      ArrayParts(out.items, again, ctx, show);
      forall i | 0 <= i < |items| ensures again.items[i] == out.items[i] {
        ForeignItem(items, i);
        SecondIsFirst(items[i], out.items[i], again.items[i], ctx, show);
      }
    case _ =>
  }

  /** Rendering is idempotent on such a tree: rendering what it gave succeeds again, and gives exactly that,
      whatever the order in which objects are walked. */
  lemma RenderIdempotent(v: Value, out: Value, ctx: Context, show: Printer)
    requires ForeignTree(v) && Renders(v, out, ctx, show)
    ensures ForeignTree(out) && Renderable(out, ctx, show)
    ensures forall again :: Renders(out, again, ctx, show) <==> again == out
  {
    hide *;
    ForeignStays(v, out, ctx, show);
    ForeignNeverFails(out, ctx, show);
    forall again | Renders(out, again, ctx, show) ensures again == out {
      SecondIsFirst(v, out, again, ctx, show);
    }
  }

  lemma ForeignItem(items: seq<Value>, i: nat)
    requires ForeignTree(Arr(items)) && i < |items|
    ensures ForeignTree(items[i])
  {
  }

  // ---- One possible outcome -----------------------------------------------------------

  /** In every object of the tree, different keys render to different texts. */
  ghost predicate DistinctKeys(v: Value, ctx: Context, show: Printer) {
    match v
    case Obj(fields) =>
      && (forall k :: k in fields ==> DistinctKeys(fields[k], ctx, show))
      && (forall k, l :: k in fields && l in fields && KeyText(k, ctx, show) == KeyText(l, ctx, show) ==> k == l)
    case Arr(items) => forall i :: 0 <= i < |items| ==> DistinctKeys(items[i], ctx, show)
    case _ => true
  }

  /** With distinct rendered keys the order of walking does not matter. */
  lemma {:induction false} RenderDeterministic(v: Value, one: Value, other: Value, ctx: Context, show: Printer)
    requires DistinctKeys(v, ctx, show) && Renders(v, one, ctx, show) && Renders(v, other, ctx, show)
    ensures one == other
    decreases v
  {
    hide RenderString, KeyText;
    match v
    case Obj(fields) =>
      forall t | t in one.fields || t in other.fields
        ensures t in one.fields && t in other.fields && one.fields[t] == other.fields[t]
      {
        var k :| k in fields && KeyText(k, ctx, show) == Some(t);
        assert Lands(k, one.fields, ctx, show) && Lands(k, other.fields, ctx, show);
        RenderDeterministic(fields[k], one.fields[t], other.fields[t], ctx, show);
      }
    case Arr(items) =>
      forall i | 0 <= i < |items| ensures one.items[i] == other.items[i] {
        RenderDeterministic(items[i], one.items[i], other.items[i], ctx, show);
      }
    case _ =>
  }

  /** No key and no string holds a token at all. */
  ghost predicate TokenFree(v: Value) {
    match v
    case Obj(fields) => forall k :: k in fields ==> Starts(k, 0) == [] && TokenFree(fields[k])
    case Arr(items) => forall i :: 0 <= i < |items| ==> TokenFree(items[i])
    case Str(s) => Starts(s, 0) == []
    case _ => true
  }

  lemma PlainString(s: string, ctx: Context, show: Printer)
    requires Starts(s, 0) == []
    ensures RenderString(s, ctx, show) == Some(Str(s)) && KeyText(s, ctx, show) == Some(s)
  {
    NextMatch(s, 0, ctx, show);
    assert s[0..] == s;
    if s != "" {
      StartsStep(s, 0);
    }
  }

  lemma {:induction false} TokenFreeRenders(v: Value, ctx: Context, show: Printer)
    requires TokenFree(v)
    ensures Renders(v, v, ctx, show) && DistinctKeys(v, ctx, show)
  {
    hide RenderString, KeyText, Starts;
    match v
    case Obj(fields) =>
      forall k | k in fields
        ensures KeyText(k, ctx, show) == Some(k) && Renders(fields[k], fields[k], ctx, show) && DistinctKeys(fields[k], ctx, show)
      {
        PlainString(k, ctx, show);
        TokenFreeRenders(fields[k], ctx, show);
      }
    case Arr(items) =>
      forall i | 0 <= i < |items| ensures Renders(items[i], items[i], ctx, show) && DistinctKeys(items[i], ctx, show) {
        TokenFreeRenders(items[i], ctx, show);
      }
    case Str(s) =>
      PlainString(s, ctx, show);
    case _ =>
  }

  /** A tree without tokens is its own and only rendering. */
  lemma TokenFreeUnchanged(v: Value, out: Value, ctx: Context, show: Printer)
    requires TokenFree(v)
    ensures Renders(v, out, ctx, show) <==> out == v
  {
    hide *;
    TokenFreeRenders(v, ctx, show);
    if Renders(v, out, ctx, show) {
      RenderDeterministic(v, out, v, ctx, show);
    }
  }
}
