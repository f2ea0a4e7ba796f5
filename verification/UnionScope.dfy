/** Avro's rule for names: a schema names a type only where the name is already defined, read in
    document order, and defines none twice (internal/wire/avrowire/union.go). */
module UnionScope {
  import opened JsonValues
  import opened AvscShapes
  import opened ShallowForms
  import opened UnionReach
  import opened UnionRender
  import opened UnionRenderer

  /** The schema node can be parsed where the names known are defined. */
  ghost predicate Scoped(node: Json, ns: string, known: set<string>)
    decreases node
  {
    match node
    case Str(s) => IsPrimitive(s) || Qualify(s, ns) in known
    case Arr(l) => forall i | 0 <= i < |l| :: Scoped(l[i], ns, known + NamesOf(DefSeqList(l[..i], ns)))
    case Obj(m) =>
      if IsNamed(m) then
        FullOf(m, ns) !in known &&
        (ListAt(m, "fields").Some? ==>
          var fields := m["fields"].items;
          forall i | 0 <= i < |fields| && fields[i].Obj? && "type" in fields[i].fields ::
            Scoped(fields[i].fields["type"], SpaceOf(m, ns),
                   known + {FullOf(m, ns)} + NamesOf(FieldDefs(fields[..i], SpaceOf(m, ns)))))
      else if ContainerKey(m).Some? then (ContainerKey(m).value in m ==> Scoped(m[ContainerKey(m).value], ns, known))
      else if Wraps(m) then Scoped(m["type"], ns, known)
      else true
    case _ => true
  }

  lemma {:induction false} OutsideMonotone(cx: Cx, oa: set<string>, ob: set<string>, a: set<string>, b: set<string>)
    requires oa <= ob && a <= b
    ensures Outside(cx, oa, a) <= Outside(cx, ob, b)
  {
  }

  lemma {:induction false} ItemNames(l: seq<Json>, i: nat, n: nat, ns: string)
    requires i < n <= |l|
    ensures NamesOf(DefSeq(l[i], ns)) <= NamesOf(DefSeqList(l[..n], ns))
  {
    assert l[..n][..n - 1] == l[..n - 1];
    NamesOfConcat(DefSeqList(l[..n - 1], ns), DefSeq(l[n - 1], ns));
    if i < n - 1 { ItemNames(l, i, n - 1, ns); }
  }

  lemma {:induction false} FieldNames(fields: seq<Json>, i: nat, n: nat, ns: string)
    requires i < n <= |fields| && fields[i].Obj? && "type" in fields[i].fields
    ensures NamesOf(DefSeq(fields[i].fields["type"], ns)) <= NamesOf(FieldDefs(fields[..n], ns))
  {
    assert fields[..n][..n - 1] == fields[..n - 1];
    var f := fields[n - 1];
    NamesOfConcat(FieldDefs(fields[..n - 1], ns), if f.Obj? && "type" in f.fields
      then DefSeq(f.fields["type"], ns) else []);
    if i < n - 1 { FieldNames(fields, i, n - 1, ns); }
  }

  /** An item of a list names what the list does, and is read after what stands before it. */
  lemma {:induction false} ItemScopes(cx: Cx, l: seq<Json>, ns: string, outs: seq<Json>, e0: set<string>,
                                      refs: set<string>, i: nat)
    requires i < |l| == |outs| && Known(cx.env, Occurs(Arr(l)))
    requires Outside(cx, Occurs(Arr(l)), NamesOf(DefSeq(Arr(outs), ns))) <= refs
    ensures Outside(cx, Occurs(l[i]), NamesOf(DefSeq(outs[i], ns))) <= refs && Known(cx.env, Occurs(l[i]))
    ensures var named := NamesOf(DefSeqList(outs[..i], ns)); e0 + named + refs == e0 + refs + named
  {
    ItemOccurs(l, i);
    ItemNames(outs, i, |l|, ns);
    assert outs[..|l|] == outs;
    OutsideMonotone(cx, Occurs(l[i]), Occurs(Arr(l)), NamesOf(DefSeq(outs[i], ns)), NamesOf(DefSeq(Arr(outs), ns)));
  }

  /** What is rendered can be parsed where the names defined before it and the types it refers
      to outside are known. */
  lemma {:induction false} RendersScoped(cx: Cx, sh: Json, ns: string, out: Json, e0: set<string>, refs: set<string>)
    requires Fit(cx) && IsShallow(sh) && Known(cx.env, Occurs(sh)) && Renders(cx, sh, ns, out, e0)
    requires Outside(cx, Occurs(sh), NamesOf(DefSeq(out, ns))) <= refs <= cx.ext
    ensures Scoped(out, ns, e0 + refs)
    decreases out, 2
  {
    match sh
    case Str(x) =>
      if x in cx.env {
        NameReadsBack(x, cx.env[x], ns);
        if x !in cx.ext && x !in e0 { DefinitionScoped(cx, x, ns, out, e0, refs); }
      }
    case Arr(l) =>
      forall i | 0 <= i < |l| ensures Scoped(out.items[i], ns, e0 + refs + NamesOf(DefSeqList(out.items[..i], ns))) {
        ItemScopes(cx, l, ns, out.items, e0, refs, i);
        RendersScoped(cx, l[i], ns, out.items[i], e0 + NamesOf(DefSeqList(out.items[..i], ns)), refs);
      }
    case Obj(m) =>
      if ContainerKey(m).Some? {
        var k := ContainerKey(m).value;
        ContainerHolds(m, k, ns, out);
        RendersScoped(cx, m[k], ns, out.fields[k], e0, refs);
      }
    case _ =>
  }

  lemma {:induction false} DefinitionScoped(cx: Cx, x: string, ns: string, out: Json, e0: set<string>,
                                            refs: set<string>)
    requires Fit(cx) && x in cx.env && x !in e0 && x !in cx.ext && (cx.env[x].ns == "" ==> ns == "")
    requires RendersDef(cx, x, out, e0 + {x})
    requires Outside(cx, {x}, NamesOf(DefSeq(out, ns))) <= refs <= cx.ext
    ensures Scoped(out, ns, e0 + refs)
    decreases out, 1
  {
    DefinitionReadsBack(cx, x, out, ns, e0);
    if ListAt(out.fields, "fields").Some? {
      DefinitionOutside(cx, x, ns, out, e0);
      FieldsScoped(cx, x, out, e0, refs);
    }
  }

  lemma {:induction false} FieldsScoped(cx: Cx, x: string, out: Json, e0: set<string>, refs: set<string>)
    requires Fit(cx) && x in cx.env && RendersDef(cx, x, out, e0 + {x}) && ListAt(out.fields, "fields").Some?
    requires Outside(cx, DefOccurs(cx.env[x]), NamesOf(FieldDefs(out.fields["fields"].items, cx.env[x].ns))) <= refs
    requires refs <= cx.ext
    ensures var ns, outs := cx.env[x].ns, out.fields["fields"].items;
            forall i | 0 <= i < |outs| && outs[i].Obj? && "type" in outs[i].fields ::
              Scoped(outs[i].fields["type"], ns, e0 + refs + {x} + NamesOf(FieldDefs(outs[..i], ns)))
    decreases out, 0
  {
    var d, outs := cx.env[x], out.fields["fields"].items;
    var shs := d.shallow["fields"].items;
    assert FieldsIn(d.shallow) == shs;
    forall i | 0 <= i < |outs|
      ensures Scoped(outs[i].fields["type"], d.ns, e0 + refs + {x} + NamesOf(FieldDefs(outs[..i], d.ns)))
    {
      FieldScoped(cx, d, outs, i, e0 + {x}, refs);
      var named := NamesOf(FieldDefs(outs[..i], d.ns));
      RendersScoped(cx, shs[i].fields["type"], d.ns, outs[i].fields["type"], e0 + {x} + named, refs);
      assert e0 + {x} + named + refs == e0 + refs + {x} + named;
    }
  }

  lemma {:induction false} DefinitionOutside(cx: Cx, x: string, ns: string, out: Json, e0: set<string>)
    requires Fit(cx) && x in cx.env && x !in e0 && x !in cx.ext && (cx.env[x].ns == "" ==> ns == "")
    requires RendersDef(cx, x, out, e0 + {x})
    requires ListAt(out.fields, "fields").Some?
    ensures Outside(cx, {x}, NamesOf(DefSeq(out, ns))) ==
              Outside(cx, DefOccurs(cx.env[x]), NamesOf(FieldDefs(out.fields["fields"].items, cx.env[x].ns)))
  {
    var d := cx.env[x];
    var outs := out.fields["fields"].items;
    DefFaithful(cx, x, ns, out, e0);
    FirstNames(x, d, FieldDefs(outs, d.ns));
    OutsideDefinition(cx, x, NamesOf(FieldDefs(outs, d.ns)));
  }

  lemma {:induction false} DefinitionReadsBack(cx: Cx, x: string, out: Json, ns: string, e0: set<string>)
    requires Fit(cx) && x in cx.env && out.Obj? && IsNamed(out.fields) && Restates(out.fields, cx.env[x])
    requires cx.env[x].ns == "" ==> ns == ""
    ensures SpaceOf(out.fields, ns) == cx.env[x].ns && FullOf(out.fields, ns) == x
  {
    NoDotNoSpace(DeclaredName(out.fields));
  }

  lemma {:induction false} FieldScoped(cx: Cx, d: Def, outs: seq<Json>, i: nat, e0: set<string>, refs: set<string>)
    requires i < |outs| == |FieldsIn(d.shallow)| && AllShallowTyped(FieldsIn(d.shallow))
    requires Retyped(FieldsIn(d.shallow)[i], outs[i])
    requires Known(cx.env, DefOccurs(d))
    requires Outside(cx, DefOccurs(d), NamesOf(FieldDefs(outs, d.ns))) <= refs
    ensures ShallowTyped(FieldsIn(d.shallow)[i])
    ensures Known(cx.env, Occurs(FieldType(FieldsIn(d.shallow)[i])))
    ensures Outside(cx, Occurs(FieldType(FieldsIn(d.shallow)[i])), NamesOf(DefSeq(outs[i].fields["type"], d.ns))) <=
              refs
  {
    FieldOccurs(d, i);
    FieldNames(outs, i, |outs|, d.ns);
    assert outs[..|outs|] == outs;
    OutsideMonotone(cx, Occurs(FieldType(FieldsIn(d.shallow)[i])), DefOccurs(d),
                    NamesOf(DefSeq(outs[i].fields["type"], d.ns)), NamesOf(FieldDefs(outs, d.ns)));
  }
}
