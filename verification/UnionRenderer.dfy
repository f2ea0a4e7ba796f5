/** The renderer of internal/wire/avrowire/union.go: shallow forms written back out, each named
    type defined at its first occurrence, registered ones recorded as references. */
module UnionRenderer {
  import opened JsonValues
  import opened Sorting
  import opened AvscShapes
  import opened ShallowForms
  import opened UnionReach
  import opened UnionRender

  /** The names registered elsewhere among occ and in the definitions of names. */
  ghost function Outside(cx: Cx, occ: set<string>, names: set<string>): set<string> {
    (occ * cx.ext * cx.env.Keys) +
    set x, y | x in names && x in cx.env && y in DefOccurs(cx.env[x]) && y in cx.ext && y in cx.env :: y
  }

  /** From (e0, r0) to (e1, r1) a rendering met the names occ and defined names. */
  ghost predicate Accounted(cx: Cx, e0: set<string>, r0: seq<string>, e1: set<string>, r1: seq<string>,
                            occ: set<string>, names: set<string>) {
    e1 == e0 + names && (Distinct(r0) ==> Distinct(r1)) && Elements(r1) == Elements(r0) + Outside(cx, occ, names)
  }

  lemma {:induction false} OutsideTwice(cx: Cx, oa: set<string>, ob: set<string>, a: set<string>, b: set<string>)
    ensures Outside(cx, oa + ob, a + b) == Outside(cx, oa, a) + Outside(cx, ob, b)
  {
  }

  lemma {:induction false} AccountedTwice(cx: Cx, e0: set<string>, r0: seq<string>, e1: set<string>, r1: seq<string>,
                                          e2: set<string>, r2: seq<string>, oa: set<string>, ob: set<string>,
                                          a: set<string>, b: set<string>)
    requires Accounted(cx, e0, r0, e1, r1, oa, a) && Accounted(cx, e1, r1, e2, r2, ob, b)
    ensures Accounted(cx, e0, r0, e2, r2, oa + ob, a + b)
  {
    OutsideTwice(cx, oa, ob, a, b);
  }

  lemma {:induction false} AccountedRef(cx: Cx, e: set<string>, refs: seq<string>, x: string)
    requires x in cx.ext && x in cx.env
    ensures Accounted(cx, e, refs, e, if x in refs then refs else refs + [x], {x}, {})
  {
    ElementsSnoc(refs, x);
    assert Outside(cx, {x}, {}) == {x};
  }

  lemma {:induction false} OutsideDefinition(cx: Cx, x: string, names: set<string>)
    requires x in cx.env && x !in cx.ext
    ensures Outside(cx, {x}, {x} + names) == Outside(cx, DefOccurs(cx.env[x]), names)
  {
  }

  lemma {:induction false} FirstNames(x: string, d: Def, held: seq<(string, Def)>)
    ensures NamesOf([(x, d)] + held) == {x} + NamesOf(held)
  {
    var one := [(x, d)];
    NamesOfConcat(one, held);
    assert one[0] in one;
  }

  /** outs renders the first items of l in order. */
  ghost predicate RendersList(cx: Cx, l: seq<Json>, ns: string, outs: seq<Json>, e0: set<string>) {
    |outs| <= |l| && forall i | 0 <= i < |outs| ::
      Renders(cx, l[i], ns, outs[i], e0 + NamesOf(DefSeqList(outs[..i], ns)))
  }

  lemma {:induction false} RendersListMore(cx: Cx, l: seq<Json>, ns: string, outs: seq<Json>, out: Json,
                                           e0: set<string>)
    requires RendersList(cx, l, ns, outs, e0) && |outs| < |l|
    requires Renders(cx, l[|outs|], ns, out, e0 + NamesOf(DefSeqList(outs, ns)))
    ensures RendersList(cx, l, ns, outs + [out], e0)
    ensures NamesOf(DefSeqList(outs + [out], ns)) == NamesOf(DefSeqList(outs, ns)) + NamesOf(DefSeq(out, ns))
  {
    var more := outs + [out];
    assert more[..|outs|] == outs;
    forall i | 0 <= i < |more| ensures Renders(cx, l[i], ns, more[i], e0 + NamesOf(DefSeqList(more[..i], ns))) {
      if i < |outs| { assert more[..i] == outs[..i]; }
    }
    NamesOfConcat(DefSeqList(outs, ns), DefSeq(out, ns));
  }

  ghost predicate RendersField(cx: Cx, sh: Json, ns: string, out: Json, e0: set<string>) {
    Retyped(sh, out) && Renders(cx, sh.fields["type"], ns, out.fields["type"], e0)
  }

  ghost predicate RendersFields(cx: Cx, shs: seq<Json>, ns: string, outs: seq<Json>, e0: set<string>) {
    |outs| <= |shs| && forall i | 0 <= i < |outs| ::
      RendersField(cx, shs[i], ns, outs[i], e0 + NamesOf(FieldDefs(outs[..i], ns)))
  }

  lemma {:induction false} RendersFieldsMore(cx: Cx, shs: seq<Json>, ns: string, outs: seq<Json>, out: Json,
                                             e0: set<string>)
    requires RendersFields(cx, shs, ns, outs, e0) && |outs| < |shs|
    requires RendersField(cx, shs[|outs|], ns, out, e0 + NamesOf(FieldDefs(outs, ns)))
    ensures RendersFields(cx, shs, ns, outs + [out], e0)
    ensures NamesOf(FieldDefs(outs + [out], ns)) ==
              NamesOf(FieldDefs(outs, ns)) + NamesOf(DefSeq(out.fields["type"], ns))
  {
    var more := outs + [out];
    assert more[..|outs|] == outs;
    forall i | 0 <= i < |more| ensures RendersField(cx, shs[i], ns, more[i], e0 + NamesOf(FieldDefs(more[..i], ns))) {
      if i < |outs| { assert more[..i] == outs[..i]; }
    }
    NamesOfConcat(FieldDefs(outs, ns), DefSeq(out.fields["type"], ns));
  }

  /** The state of a loop over fields: outs renders the first of shs, and took (e0, r0) to (e1, r1). */
  ghost predicate FieldsDone(cx: Cx, shs: seq<Json>, ns: string, outs: seq<Json>, e0: set<string>, r0: seq<string>,
                             e1: set<string>, r1: seq<string>) {
    |outs| <= |shs| && RendersFields(cx, shs, ns, outs, e0) &&
    Accounted(cx, e0, r0, e1, r1, FieldOccursUpTo(shs, |outs|), NamesOf(FieldDefs(outs, ns)))
  }

  lemma {:induction false} NoFieldsDone(cx: Cx, shs: seq<Json>, ns: string, e: set<string>, r: seq<string>)
    ensures FieldsDone(cx, shs, ns, [], e, r, e, r)
  {
    assert NamesOf([]) == {};
  }

  lemma {:induction false} OneMoreFieldDone(cx: Cx, shs: seq<Json>, ns: string, outs: seq<Json>, out: Json,
                                            e0: set<string>, r0: seq<string>, e1: set<string>, r1: seq<string>,
                                            e2: set<string>, r2: seq<string>)
    requires FieldsDone(cx, shs, ns, outs, e0, r0, e1, r1)
    requires |outs| < |shs| && RendersField(cx, shs[|outs|], ns, out, e1)
    requires Accounted(cx, e1, r1, e2, r2, Occurs(FieldType(shs[|outs|])), NamesOf(DefSeq(out.fields["type"], ns)))
    ensures FieldsDone(cx, shs, ns, outs + [out], e0, r0, e2, r2)
  {
    RendersFieldsMore(cx, shs, ns, outs, out, e0);
    AccountedTwice(cx, e0, r0, e1, r1, e2, r2, FieldOccursUpTo(shs, |outs|), Occurs(FieldType(shs[|outs|])),
                   NamesOf(FieldDefs(outs, ns)), NamesOf(DefSeq(out.fields["type"], ns)));
  }

  lemma {:induction false} AllFieldsDone(cx: Cx, d: Def, outs: seq<Json>, e0: set<string>, r0: seq<string>,
                                         e1: set<string>, r1: seq<string>)
    requires FieldsDone(cx, FieldsIn(d.shallow), d.ns, outs, e0, r0, e1, r1) && |outs| == |FieldsIn(d.shallow)|
    ensures Accounted(cx, e0, r0, e1, r1, DefOccurs(d), NamesOf(FieldDefs(outs, d.ns)))
  {
    var shs := FieldsIn(d.shallow);
    FieldOccursUpToAll(shs, |shs|);
    assert DefOccurs(d) == FieldOccursUpTo(shs, |shs|);
  }

  /** The same over the items of a list. */
  ghost predicate ItemsDone(cx: Cx, l: seq<Json>, ns: string, outs: seq<Json>, e0: set<string>, r0: seq<string>,
                            e1: set<string>, r1: seq<string>) {
    |outs| <= |l| && RendersList(cx, l, ns, outs, e0) &&
    Accounted(cx, e0, r0, e1, r1, OccursUpTo(l, |outs|), NamesOf(DefSeqList(outs, ns)))
  }

  lemma {:induction false} NoItemsDone(cx: Cx, l: seq<Json>, ns: string, e: set<string>, r: seq<string>)
    ensures ItemsDone(cx, l, ns, [], e, r, e, r)
  {
    assert NamesOf([]) == {};
  }

  lemma {:induction false} OneMoreItemDone(cx: Cx, l: seq<Json>, ns: string, outs: seq<Json>, out: Json,
                                           e0: set<string>, r0: seq<string>, e1: set<string>, r1: seq<string>,
                                           e2: set<string>, r2: seq<string>)
    requires ItemsDone(cx, l, ns, outs, e0, r0, e1, r1) && |outs| < |l| && Renders(cx, l[|outs|], ns, out, e1)
    requires Accounted(cx, e1, r1, e2, r2, Occurs(l[|outs|]), NamesOf(DefSeq(out, ns)))
    ensures ItemsDone(cx, l, ns, outs + [out], e0, r0, e2, r2)
  {
    RendersListMore(cx, l, ns, outs, out, e0);
    AccountedTwice(cx, e0, r0, e1, r1, e2, r2, OccursUpTo(l, |outs|), Occurs(l[|outs|]),
                   NamesOf(DefSeqList(outs, ns)), NamesOf(DefSeq(out, ns)));
  }

  lemma {:induction false} AllItemsDone(cx: Cx, l: seq<Json>, ns: string, outs: seq<Json>, e0: set<string>,
                                        r0: seq<string>, e1: set<string>, r1: seq<string>)
    requires ItemsDone(cx, l, ns, outs, e0, r0, e1, r1) && |outs| == |l|
    ensures Renders(cx, Arr(l), ns, Arr(outs), e0)
    ensures Accounted(cx, e0, r0, e1, r1, Occurs(Arr(l)), NamesOf(DefSeq(Arr(outs), ns)))
  {
    OccursUpToAll(l, |l|);
    assert Occurs(Arr(l)) == OccursUpTo(l, |l|);
  }

  /** A node whose one schema is under key. */
  lemma {:induction false} AttributeDone(cx: Cx, m: Node, key: string, ns: string, out: Json, e0: set<string>,
                                         r0: seq<string>, e1: set<string>, r1: seq<string>)
    requires IsShallow(Obj(m)) && ContainerKey(m) == Some(key) && key in m && Renders(cx, m[key], ns, out, e0)
    requires Accounted(cx, e0, r0, e1, r1, Occurs(m[key]), NamesOf(DefSeq(out, ns)))
    ensures Renders(cx, Obj(m), ns, Obj(m[key := out]), e0)
    ensures Accounted(cx, e0, r0, e1, r1, Occurs(Obj(m)), NamesOf(DefSeq(Obj(m[key := out]), ns)))
  {
    AttributeOccurs(m, key);
    assert DefSeq(Obj(m[key := out]), ns) == DefSeq(out, ns);
  }

  lemma {:induction false} AttributeOccurs(m: Node, key: string)
    requires IsShallow(Obj(m)) && ContainerKey(m) == Some(key) && key in m
    ensures IsShallow(m[key]) && Occurs(Obj(m)) == Occurs(m[key])
  {
  }

  /** A type met for the first time: its definition, and the names in it. */
  lemma {:induction false} FirstDone(cx: Cx, full: string, ns: string, out: Json, before: set<string>, r0: seq<string>,
                                     e1: set<string>, r1: seq<string>)
    requires Fit(cx) && full in cx.env && full !in cx.ext && full !in before && (cx.env[full].ns == "" ==> ns == "")
    requires RendersDef(cx, full, out, before + {full})
    requires Accounted(cx, before + {full}, r0, e1, r1, DefOccurs(cx.env[full]),
                       NamesOf(FieldDefs(FieldsIn(out.fields), cx.env[full].ns)))
    ensures Accounted(cx, before, r0, e1, r1, {full}, NamesOf(DefSeq(out, ns)))
  {
    var held := FieldDefs(FieldsIn(out.fields), cx.env[full].ns);
    FirstDefSeq(cx, full, ns, out, before);
    FirstNames(full, cx.env[full], held);
    OutsideDefinition(cx, full, NamesOf(held));
  }

  lemma {:induction false} FirstDefSeq(cx: Cx, full: string, ns: string, out: Json, before: set<string>)
    requires Fit(cx) && full in cx.env && full !in cx.ext && full !in before && (cx.env[full].ns == "" ==> ns == "")
    requires RendersDef(cx, full, out, before + {full})
    ensures DefSeq(out, ns) == [(full, cx.env[full])] + FieldDefs(FieldsIn(out.fields), cx.env[full].ns)
  {
    DefFaithful(cx, full, ns, out, before);
  }

  /** The namespaces of everything a rendering meets allow it. */
  ghost predicate Allowed(cx: Cx, occ: set<string>, ns: string) { Spaced(cx, occ, ns) && AllSpaced(cx) }

  class Renderer {
    const env: Env
    const registered: set<string>
    const self: string
    var emitted: set<string>
    var refs: seq<string>

    constructor (env: Env, registered: set<string>, self: string, emitted: set<string>)
      ensures this.env == env && this.registered == registered && this.self == self
      ensures this.emitted == emitted && refs == []
    {
      this.env, this.registered, this.self := env, registered, self;
      this.emitted, refs := emitted, [];
    }

    ghost function Context(): Cx { Cx(env, registered - {self}) }

    /** The state after a rendering that met the names occ and defined names. */
    ghost predicate Moved(emitted0: set<string>, refs0: seq<string>, occ: set<string>, names: set<string>)
      reads this
    {
      Accounted(Context(), emitted0, refs0, emitted, refs, occ, names)
    }

    /** renderer.ref */
    method Ref(full: string, ns: string) returns (r: Option<Json>)
      requires Fit(Context()) && !IsPrimitive(full)
      modifies this
      ensures old(emitted) <= emitted
      ensures Allowed(Context(), {full}, ns) ==> r.Some?
      ensures r.Some? ==> Renders(Context(), Str(full), ns, r.value, old(emitted))
      ensures r.Some? ==> Moved(old(emitted), old(refs), {full}, NamesOf(DefSeq(r.value, ns)))
      decreases env.Keys - emitted, Str(full), 1
    {
      assert NamesOf([]) == {};
      if full !in env { return Some(Str(full)); }
      if env[full].ns == "" && ns != "" { return None; }
      if full != self && full in registered {
        AccountedRef(Context(), emitted, refs, full);
        if full !in refs { refs := refs + [full]; }
        return Some(Str(full));
      }
      if full in emitted { return Some(Str(full)); }
      r := First(full, ns);
    }

    /** The end of renderer.ref: a type met for the first time is defined. */
    method First(full: string, ns: string) returns (r: Option<Json>)
      requires Fit(Context()) && full in env && full !in Context().ext && full !in emitted
      requires (env[full].ns == "" ==> ns == "")
      modifies this
      ensures old(emitted) <= emitted
      ensures AllSpaced(Context()) ==> r.Some?
      ensures r.Some? ==> RendersDef(Context(), full, r.value, old(emitted) + {full})
      ensures r.Some? ==> Moved(old(emitted), old(refs), {full}, NamesOf(DefSeq(r.value, ns)))
      decreases env.Keys - emitted, Str(full), 0
    {
      ghost var before := emitted;
      emitted := emitted + {full};
      r := Definition(full);
      if r.Some? { FirstDone(Context(), full, ns, r.value, before, old(refs), emitted, refs); }
    }

    /** renderer.definition */
    method Definition(full: string) returns (r: Option<Json>)
      requires Fit(Context()) && full in env
      modifies this
      ensures old(emitted) <= emitted
      ensures AllSpaced(Context()) ==> r.Some?
      ensures r.Some? ==> RendersDef(Context(), full, r.value, old(emitted))
      ensures r.Some? ==>
                Moved(old(emitted), old(refs), DefOccurs(env[full]),
                      NamesOf(FieldDefs(FieldsIn(r.value.fields), env[full].ns)))
      decreases env.Keys - emitted, Obj(env[full].shallow), 1
    {
      var d := env[full];
      var out := d.shallow;
      if ListAt(d.shallow, "fields").Some? {
        var fields := d.shallow["fields"];
        assert FieldsIn(d.shallow) == fields.items && Served0(d, fields.items);
        var rendered := Fields(fields, d);
        if rendered.None? { return None; }
        out := out["fields" := Arr(rendered.value)];
      } else {
        assert DefOccurs(d) == {} && NamesOf([]) == {};
      }
      r := Some(Obj(out));
    }

    ghost predicate Served0(d: Def, fields: seq<Json>) {
      FieldsIn(d.shallow) == fields && AllShallowTyped(fields) && Known(env, DefOccurs(d))
    }

    /** The loop of renderer.definition over the record's fields. */
    method Fields(fields: Json, d: Def) returns (r: Option<seq<Json>>)
      requires Fit(Context()) && fields.Arr? && Served0(d, fields.items)
      modifies this
      ensures old(emitted) <= emitted
      ensures Allowed(Context(), DefOccurs(d), d.ns) ==> r.Some?
      ensures r.Some? ==> |r.value| == |fields.items|
      ensures r.Some? ==> RendersFields(Context(), fields.items, d.ns, r.value, old(emitted))
      ensures r.Some? ==> Moved(old(emitted), old(refs), DefOccurs(d), NamesOf(FieldDefs(r.value, d.ns)))
      decreases env.Keys - emitted, fields, 1
    {
      var shs := fields.items;
      var outs: seq<Json> := [];
      NoFieldsDone(Context(), shs, d.ns, emitted, refs);
      while |outs| < |shs|
        invariant |outs| <= |shs| && old(emitted) <= emitted
        invariant FieldsDone(Context(), shs, d.ns, outs, old(emitted), old(refs), emitted, refs)
        decreases |shs| - |outs|
      {
        FieldOccurs(d, |outs|);
        ghost var e1, r1 := emitted, refs;
        var out := Field(shs[|outs|], d.ns);
        if out.None? { return None; }
        OneMoreFieldDone(Context(), shs, d.ns, outs, out.value, old(emitted), old(refs), e1, r1, emitted, refs);
        outs := outs + [out.value];
      }
      AllFieldsDone(Context(), d, outs, old(emitted), old(refs), emitted, refs);
      r := Some(outs);
    }

    method Field(f: Json, ns: string) returns (r: Option<Json>)
      requires Fit(Context()) && ShallowTyped(f) && Known(env, Occurs(FieldType(f)))
      modifies this
      ensures old(emitted) <= emitted
      ensures Allowed(Context(), Occurs(FieldType(f)), ns) ==> r.Some?
      ensures r.Some? ==> RendersField(Context(), f, ns, r.value, old(emitted))
      ensures r.Some? ==>
                Moved(old(emitted), old(refs), Occurs(FieldType(f)), NamesOf(DefSeq(r.value.fields["type"], ns)))
      decreases env.Keys - emitted, f, 0
    {
      var t := Schema(f.fields["type"], ns);
      if t.None? { return None; }
      r := Some(Obj(f.fields["type" := t.value]));
    }

    /** renderer.schema */
    method Schema(node: Json, ns: string) returns (r: Option<Json>)
      requires Fit(Context()) && IsShallow(node) && Known(env, Occurs(node))
      modifies this
      ensures old(emitted) <= emitted
      ensures Allowed(Context(), Occurs(node), ns) ==> r.Some?
      ensures r.Some? ==> Renders(Context(), node, ns, r.value, old(emitted))
      ensures r.Some? ==> Moved(old(emitted), old(refs), Occurs(node), NamesOf(DefSeq(r.value, ns)))
      decreases env.Keys - emitted, node, 2
    {
      assert NamesOf([]) == {};
      match node
      case Str(x) =>
        if IsPrimitive(x) {
          if x in env { NameReadsBack(x, env[x], ""); }
          return Some(node);
        }
        r := Ref(x, ns);
      case Arr(_) => r := List(node, ns);
      case Obj(_) => r := Attributes(node, ns);
      case _ => r := Some(node);
    }

    method Attributes(node: Json, ns: string) returns (r: Option<Json>)
      requires Fit(Context()) && node.Obj? && IsShallow(node) && Known(env, Occurs(node))
      modifies this
      ensures old(emitted) <= emitted
      ensures Allowed(Context(), Occurs(node), ns) ==> r.Some?
      ensures r.Some? ==> Renders(Context(), node, ns, r.value, old(emitted))
      ensures r.Some? ==> Moved(old(emitted), old(refs), Occurs(node), NamesOf(DefSeq(r.value, ns)))
      decreases env.Keys - emitted, node, 1
    {
      assert NamesOf([]) == {};
      var n := node.fields;
      r := Some(node);
      if "items" in n {
        r := Attribute(node, n, "items", ns);
        if r.None? { return None; }
      }
      if "values" in n { r := Attribute(node, n, "values", ns); }
    }

    method Attribute(node: Json, out: Node, key: string, ns: string) returns (r: Option<Json>)
      requires Fit(Context()) && node.Obj? && IsShallow(node) && Known(env, Occurs(node))
      requires out == node.fields && ContainerKey(out) == Some(key) && key in out
      modifies this
      ensures old(emitted) <= emitted
      ensures Allowed(Context(), Occurs(node), ns) ==> r.Some?
      ensures r.Some? ==> Renders(Context(), node, ns, r.value, old(emitted))
      ensures r.Some? ==> Moved(old(emitted), old(refs), Occurs(node), NamesOf(DefSeq(r.value, ns)))
      decreases env.Keys - emitted, node, 0
    {
      AttributeOccurs(out, key);
      var s := Schema(out[key], ns);
      if s.None? { return None; }
      AttributeDone(Context(), out, key, ns, s.value, old(emitted), old(refs), emitted, refs);
      r := Some(Obj(out[key := s.value]));
    }

    method List(node: Json, ns: string) returns (r: Option<Json>)
      requires Fit(Context()) && node.Arr? && IsShallow(node) && Known(env, Occurs(node))
      modifies this
      ensures old(emitted) <= emitted
      ensures Allowed(Context(), Occurs(node), ns) ==> r.Some?
      ensures r.Some? ==> Renders(Context(), node, ns, r.value, old(emitted))
      ensures r.Some? ==> Moved(old(emitted), old(refs), Occurs(node), NamesOf(DefSeq(r.value, ns)))
      decreases env.Keys - emitted, node, 1
    {
      var l := node.items;
      var outs: seq<Json> := [];
      NoItemsDone(Context(), l, ns, emitted, refs);
      while |outs| < |l|
        invariant |outs| <= |l| && old(emitted) <= emitted
        invariant ItemsDone(Context(), l, ns, outs, old(emitted), old(refs), emitted, refs)
        decreases |l| - |outs|
      {
        ItemOccurs(l, |outs|);
        ghost var e1, r1 := emitted, refs;
        var s := Schema(l[|outs|], ns);
        if s.None? { return None; }
        OneMoreItemDone(Context(), l, ns, outs, s.value, old(emitted), old(refs), e1, r1, emitted, refs);
        outs := outs + [s.value];
      }
      AllItemsDone(Context(), l, ns, outs, old(emitted), old(refs), emitted, refs);
      r := Some(Arr(outs));
    }
  }
}
