/** What renderer.schema and renderer.definition write (internal/wire/avrowire/union.go), and
    that it means what was collected. */
module UnionRender {
  import opened JsonValues
  import opened AvscShapes
  import opened ShallowForms
  import opened UnionReach

  /** out writes the shallow node sh inside namespace ns, with e0 defined before it. */
  ghost predicate Renders(cx: Cx, sh: Json, ns: string, out: Json, e0: set<string>)
    decreases out, 1
  {
    match sh
    case Str(x) =>
      if IsPrimitive(x) || x !in cx.env then out == sh
      else (cx.env[x].ns == "" ==> ns == "") &&
           if x in cx.ext || x in e0 then out == sh else RendersDef(cx, x, out, e0 + {x})
    case Arr(l) =>
      out.Arr? && |out.items| == |l| &&
      forall i | 0 <= i < |l| :: Renders(cx, l[i], ns, out.items[i], e0 + NamesOf(DefSeqList(out.items[..i], ns)))
    case Obj(m) =>
      if ContainerKey(m).Some? && ContainerKey(m).value in m then
        var k := ContainerKey(m).value;
        out.Obj? && k in out.fields && out.fields == m[k := out.fields[k]] && Renders(cx, m[k], ns, out.fields[k], e0)
      else out == sh
    case _ => out == sh
  }

  /** out is the definition of x; e0 holds x itself. */
  ghost predicate RendersDef(cx: Cx, x: string, out: Json, e0: set<string>)
    requires x in cx.env
    decreases out, 0
  {
    out.Obj? && Restates(out.fields, cx.env[x]) &&
    (ListAt(out.fields, "fields").Some? ==>
      var shs := cx.env[x].shallow["fields"].items;
      var outs := out.fields["fields"].items;
      |outs| == |shs| &&
      forall i | 0 <= i < |outs| ::
        Retyped(shs[i], outs[i]) &&
        Renders(cx, shs[i].fields["type"], cx.env[x].ns, outs[i].fields["type"],
                e0 + NamesOf(FieldDefs(outs[..i], cx.env[x].ns))))
  }

  /** The same field with another type. */
  predicate Retyped(sh: Json, out: Json) {
    sh.Obj? && out.Obj? && "type" in sh.fields && "type" in out.fields &&
    out.fields == sh.fields["type" := out.fields["type"]]
  }

  ghost predicate Fit(cx: Cx) { GoodEnv(cx.env) && NameClosed(cx.env) }

  /** The rendering reads back as the shallow node, and defines what it must. */
  ghost predicate Faithful(cx: Cx, sh: Json, ns: string, out: Json, e0: set<string>) {
    ShallowOf(out, ns) == sh && FieldsOk(out) && Sound(cx, DefSeq(out, ns), Occurs(sh), ns, e0)
  }

  lemma {:induction false} RendersFaithfully(cx: Cx, sh: Json, ns: string, out: Json, e0: set<string>)
    requires Fit(cx) && IsShallow(sh) && Known(cx.env, Occurs(sh))
    requires Renders(cx, sh, ns, out, e0)
    ensures Faithful(cx, sh, ns, out, e0)
    decreases out, 3
  {
    match sh
    case Str(x) => NameFaithful(cx, x, ns, out, e0);
    case Arr(l) =>
      forall i | 0 <= i < |l|
        ensures Faithful(cx, l[i], ns, out.items[i], e0 + NamesOf(DefSeqList(out.items[..i], ns)))
      {
        ItemOccurs(l, i);
        RendersFaithfully(cx, l[i], ns, out.items[i], e0 + NamesOf(DefSeqList(out.items[..i], ns)));
      }
      ListFaithful(cx, l, ns, out.items, e0);
    case Obj(m) =>
      if ContainerKey(m).Some? {
        var k := ContainerKey(m).value;
        ContainerHolds(m, k, ns, out);
        RendersFaithfully(cx, m[k], ns, out.fields[k], e0);
        ContainerFaithful(cx, m, k, ns, out, e0);
      } else {
        SoundNothing(cx, {}, ns, e0);
      }
    case _ => SoundNothing(cx, {}, ns, e0);
  }

  lemma {:induction false} ItemOccurs(l: seq<Json>, i: nat)
    requires i < |l|
    ensures Occurs(l[i]) <= Occurs(Arr(l))
  {
  }

  lemma {:induction false} ContainerFaithful(cx: Cx, m: Node, k: string, ns: string, out: Json, e0: set<string>)
    requires IsShallow(Obj(m)) && ContainerKey(m) == Some(k) && k in m
    requires out.Obj? && k in out.fields && out.fields == m[k := out.fields[k]]
    requires Faithful(cx, m[k], ns, out.fields[k], e0)
    ensures Faithful(cx, Obj(m), ns, out, e0)
  {
    ContainerHolds(m, k, ns, out);
    assert ShallowOf(out, ns) == Obj(out.fields[k := m[k]]);
    assert out.fields[k := m[k]] == m;
  }

  /** A container names and defines what the node inside it does. */
  lemma {:induction false} ContainerHolds(m: Node, k: string, ns: string, out: Json)
    requires IsShallow(Obj(m)) && ContainerKey(m) == Some(k) && k in m
    requires out.Obj? && k in out.fields && out.fields == m[k := out.fields[k]]
    ensures ContainerKey(out.fields) == Some(k) && !IsNamed(out.fields)
    ensures DefSeq(out, ns) == DefSeq(out.fields[k], ns) && Occurs(Obj(m)) == Occurs(m[k])
  {
  }

  lemma {:induction false} NameFaithful(cx: Cx, x: string, ns: string, out: Json, e0: set<string>)
    requires Fit(cx) && Known(cx.env, {x}) && Renders(cx, Str(x), ns, out, e0)
    ensures Faithful(cx, Str(x), ns, out, e0)
    decreases out, 2
  {
    NameOccurs(x);
    if x in cx.env { NameReadsBack(x, cx.env[x], ns); }
    if x !in cx.env || x in cx.ext || x in e0 {
      assert Qualify(x, ns) == x;
      SoundNothing(cx, {x}, ns, e0);
    } else {
      DefFaithful(cx, x, ns, out, e0);
    }
  }

  /** A definition reads back as its name, and as the collected definition. */
  lemma {:induction false} DefFaithful(cx: Cx, x: string, ns: string, out: Json, e0: set<string>)
    requires Fit(cx) && x in cx.env && x !in e0 && x !in cx.ext && (cx.env[x].ns == "" ==> ns == "")
    requires RendersDef(cx, x, out, e0 + {x})
    ensures Faithful(cx, Str(x), ns, out, e0)
    ensures DefSeq(out, ns) == [(x, cx.env[x])] + HeldIn(out.fields, cx.env[x].ns)
    ensures Sound(cx, HeldIn(out.fields, cx.env[x].ns), DefOccurs(cx.env[x]), cx.env[x].ns, e0 + {x})
    decreases out, 1
  {
    var d := cx.env[x];
    DefHeld(cx, x, out, e0);
    DefRead(x, d, out, ns);
    SoundDefinition(cx, x, HeldIn(out.fields, d.ns), ns, e0);
    NameOccurs(x);
  }

  lemma {:induction false} NameOccurs(x: string)
    ensures Occurs(Str(x)) == {x}
  {
  }

  /** A definition with its fields' schemas rendered reads as the type's name, and holds its definition. */
  lemma {:induction false} DefRead(x: string, d: Def, out: Json, ns: string)
    requires out.Obj? && GoodDef(x, d) && Restates(out.fields, d) && (d.ns == "" ==> ns == "")
    requires ListAt(out.fields, "fields").Some? ==>
      ShallowFields(out.fields["fields"].items, d.ns) == FieldsIn(d.shallow) && AllFieldOk(out.fields["fields"].items)
    ensures ShallowOf(out, ns) == Str(x) && FieldsOk(out)
    ensures DefSeq(out, ns) == [(x, d)] + HeldIn(out.fields, d.ns)
  {
    ReadBack(out.fields, x, d, ns);
    if ListAt(out.fields, "fields").Some? { assert FieldsIn(out.fields) == out.fields["fields"].items; }
  }

  /** The definitions in the fields of a definition. */
  function HeldIn(m: Node, ns: string): seq<(string, Def)> {
    if ListAt(m, "fields").Some? then FieldDefs(m["fields"].items, ns) else []
  }

  lemma {:induction false} DefHeld(cx: Cx, x: string, out: Json, e0: set<string>)
    requires Fit(cx) && x in cx.env && x !in e0 && x !in cx.ext && RendersDef(cx, x, out, e0 + {x})
    ensures Sound(cx, HeldIn(out.fields, cx.env[x].ns), DefOccurs(cx.env[x]), cx.env[x].ns, e0 + {x})
    ensures ListAt(out.fields, "fields").Some? ==>
      ShallowFields(out.fields["fields"].items, cx.env[x].ns) == FieldsIn(cx.env[x].shallow) &&
      AllFieldOk(out.fields["fields"].items)
    decreases out, 0
  {
    var d := cx.env[x];
    if ListAt(out.fields, "fields").Some? {
      var shs := d.shallow["fields"].items;
      var outs := out.fields["fields"].items;
      assert FieldsIn(d.shallow) == shs;
      forall i | 0 <= i < |shs|
        ensures Faithful(cx, shs[i].fields["type"], d.ns, outs[i].fields["type"],
                         e0 + {x} + NamesOf(FieldDefs(outs[..i], d.ns)))
      {
        FieldOccurs(d, i);
        assert ShallowTyped(shs[i]) && Retyped(shs[i], outs[i]);
        RendersFaithfully(cx, shs[i].fields["type"], d.ns, outs[i].fields["type"],
                          e0 + {x} + NamesOf(FieldDefs(outs[..i], d.ns)));
      }
      FieldsFaithful(cx, d, outs, e0 + {x});
    } else {
      assert FieldsIn(d.shallow) == [];
      SoundNothing(cx, DefOccurs(d), d.ns, e0 + {x});
    }
  }

  lemma {:induction false} FieldOccurs(d: Def, i: nat)
    requires i < |FieldsIn(d.shallow)|
    ensures Occurs(FieldType(FieldsIn(d.shallow)[i])) <= DefOccurs(d)
  {
  }

  function OccursUpTo(l: seq<Json>, n: nat): set<string>
    requires n <= |l|
  {
    if n == 0 then {} else OccursUpTo(l, n - 1) + Occurs(l[n - 1])
  }

  lemma {:induction false} OccursUpToAll(l: seq<Json>, n: nat)
    requires n <= |l|
    ensures forall x :: x in OccursUpTo(l, n) <==> exists i :: 0 <= i < n && x in Occurs(l[i])
  {
    if n > 0 { OccursUpToAll(l, n - 1); }
  }

  lemma {:induction false} ListSound(cx: Cx, l: seq<Json>, ns: string, out: seq<Json>, e0: set<string>, n: nat)
    requires n <= |l| == |out|
    requires forall i | 0 <= i < |l| :: Faithful(cx, l[i], ns, out[i], e0 + NamesOf(DefSeqList(out[..i], ns)))
    ensures Sound(cx, DefSeqList(out[..n], ns), OccursUpTo(l, n), ns, e0)
  {
    if n == 0 {
      SoundNothing(cx, {}, ns, e0);
    } else {
      ListSound(cx, l, ns, out, e0, n - 1);
      var before, last := DefSeqList(out[..n - 1], ns), DefSeq(out[n - 1], ns);
      assert Faithful(cx, l[n - 1], ns, out[n - 1], e0 + NamesOf(before));
      LastListed(out, ns, n);
      SoundTwice(cx, before, last, OccursUpTo(l, n - 1), Occurs(l[n - 1]), ns, e0);
    }
  }

  lemma {:induction false} LastListed(out: seq<Json>, ns: string, n: nat)
    requires 0 < n <= |out|
    ensures DefSeqList(out[..n], ns) == DefSeqList(out[..n - 1], ns) + DefSeq(out[n - 1], ns)
  {
    assert out[..n][..n - 1] == out[..n - 1];
  }

  lemma {:induction false} ListFaithful(cx: Cx, l: seq<Json>, ns: string, out: seq<Json>, e0: set<string>)
    requires |l| == |out|
    requires forall i | 0 <= i < |l| :: Faithful(cx, l[i], ns, out[i], e0 + NamesOf(DefSeqList(out[..i], ns)))
    ensures Faithful(cx, Arr(l), ns, Arr(out), e0)
  {
    ListSound(cx, l, ns, out, e0, |l|);
    assert out[..|l|] == out;
    OccursUpToAll(l, |l|);
    assert Occurs(Arr(l)) == OccursUpTo(l, |l|);
    forall i | 0 <= i < |l| ensures ShallowOf(out[i], ns) == l[i] && FieldsOk(out[i]) {
      assert Faithful(cx, l[i], ns, out[i], e0 + NamesOf(DefSeqList(out[..i], ns)));
    }
    assert ShallowOf(Arr(out), ns).items == l;
  }

  function FieldOccursUpTo(fields: seq<Json>, n: nat): set<string>
    requires n <= |fields|
  {
    if n == 0 then {} else FieldOccursUpTo(fields, n - 1) + Occurs(FieldType(fields[n - 1]))
  }

  lemma {:induction false} FieldOccursUpToAll(fields: seq<Json>, n: nat)
    requires n <= |fields|
    ensures forall x :: x in FieldOccursUpTo(fields, n) <==> exists i :: 0 <= i < n && x in Occurs(FieldType(fields[i]))
  {
    if n > 0 { FieldOccursUpToAll(fields, n - 1); }
  }

  ghost predicate FieldFaithful(cx: Cx, sh: Json, ns: string, out: Json, e0: set<string>) {
    Retyped(sh, out) && Faithful(cx, sh.fields["type"], ns, out.fields["type"], e0)
  }

  lemma {:induction false} FieldsSound(cx: Cx, shs: seq<Json>, ns: string, outs: seq<Json>, e0: set<string>, n: nat)
    requires n <= |shs| == |outs|
    requires forall i | 0 <= i < |shs| :: FieldFaithful(cx, shs[i], ns, outs[i], e0 + NamesOf(FieldDefs(outs[..i], ns)))
    ensures Sound(cx, FieldDefs(outs[..n], ns), FieldOccursUpTo(shs, n), ns, e0)
  {
    if n == 0 {
      SoundNothing(cx, {}, ns, e0);
    } else {
      FieldsSound(cx, shs, ns, outs, e0, n - 1);
      var before := FieldDefs(outs[..n - 1], ns);
      assert FieldFaithful(cx, shs[n - 1], ns, outs[n - 1], e0 + NamesOf(before));
      LastField(outs, ns, n);
      SoundTwice(cx, before, DefSeq(outs[n - 1].fields["type"], ns),
                 FieldOccursUpTo(shs, n - 1), Occurs(FieldType(shs[n - 1])), ns, e0);
    }
  }

  lemma {:induction false} LastField(outs: seq<Json>, ns: string, n: nat)
    requires 0 < n <= |outs| && outs[n - 1].Obj? && "type" in outs[n - 1].fields
    ensures FieldDefs(outs[..n], ns) == FieldDefs(outs[..n - 1], ns) + DefSeq(outs[n - 1].fields["type"], ns)
  {
    assert outs[..n][..n - 1] == outs[..n - 1];
  }

  lemma {:induction false} FieldsFaithful(cx: Cx, d: Def, outs: seq<Json>, e0: set<string>)
    requires |FieldsIn(d.shallow)| == |outs|
    requires forall i | 0 <= i < |outs| ::
              FieldFaithful(cx, FieldsIn(d.shallow)[i], d.ns, outs[i], e0 + NamesOf(FieldDefs(outs[..i], d.ns)))
    ensures Sound(cx, FieldDefs(outs, d.ns), DefOccurs(d), d.ns, e0)
    ensures ShallowFields(outs, d.ns) == FieldsIn(d.shallow) && AllFieldOk(outs)
  {
    var shs := FieldsIn(d.shallow);
    FieldsSound(cx, shs, d.ns, outs, e0, |outs|);
    assert outs[..|outs|] == outs;
    FieldOccursUpToAll(shs, |shs|);
    assert DefOccurs(d) == FieldOccursUpTo(shs, |shs|);
    forall i | 0 <= i < |outs| ensures FieldOk(outs[i]) && ShallowField(outs[i], d.ns) == shs[i] {
      FieldReadsBack(cx, shs[i], d.ns, outs[i], e0 + NamesOf(FieldDefs(outs[..i], d.ns)));
    }
  }

  lemma {:induction false} FieldReadsBack(cx: Cx, sh: Json, ns: string, out: Json, e0: set<string>)
    requires FieldFaithful(cx, sh, ns, out, e0)
    ensures FieldOk(out) && ShallowField(out, ns) == sh
  {
  }
}
