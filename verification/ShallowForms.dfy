/** What the shallow forms that composer.define stores look like (internal/wire/avrowire/union.go):
    names in place of definitions, namespaces written out. */
module ShallowForms {
  import opened JsonValues
  import opened AvscShapes

  /** A schema node with every named type in it replaced by a name. */
  predicate IsShallow(sh: Json)
    decreases sh
  {
    match sh
    case Arr(l) => forall i | 0 <= i < |l| :: IsShallow(l[i])
    case Obj(m) =>
      !IsNamed(m) &&
      (if ContainerKey(m) == Some("items") then "items" in m && IsShallow(m["items"]) && "values" !in m
       else if ContainerKey(m) == Some("values") then "values" in m && IsShallow(m["values"]) && "items" !in m
       else !Wraps(m) && "items" !in m && "values" !in m)
    case _ => true
  }

  predicate ShallowTyped(f: Json) { f.Obj? && "type" in f.fields && IsShallow(f.fields["type"]) }

  predicate AllShallowTyped(fields: seq<Json>) { forall i | 0 <= i < |fields| :: ShallowTyped(fields[i]) }

  /** A name that is full on its own: the short name, dot-free, in its namespace. */
  predicate NameOf(x: string, name: string, ns: string) {
    '.' !in name && !IsPrimitive(name) && x == Qualify(name, ns)
  }

  predicate SpaceWritten(m: Node, ns: string) {
    if ns == "" then "namespace" !in m else StrAt(m, "namespace") == Some(ns)
  }

  /** The definition of the type x: its name and namespace written out, its fields shallow. */
  predicate GoodDef(x: string, d: Def) {
    IsNamed(d.shallow) && StrAt(d.shallow, "name").Some? && NameOf(x, d.shallow["name"].s, d.ns) &&
    SpaceWritten(d.shallow, d.ns) && AllShallowTyped(FieldsIn(d.shallow))
  }

  lemma {:induction false} ShallowFormIsShallow(node: Json, ns: string)
    requires Tidy(node)
    ensures IsShallow(ShallowOf(node, ns))
    decreases node
  {
    match node
    case Arr(l) => forall i | 0 <= i < |l| ensures IsShallow(ShallowOf(l[i], ns)) { ShallowFormIsShallow(l[i], ns); }
    case Obj(m) =>
      if !IsNamed(m) {
        if ContainerKey(m).Some? {
          var k := ContainerKey(m).value;
          if k in m { ShallowFormIsShallow(m[k], ns); }
          ContainerForm(m, k, if k in m then ShallowOf(m[k], ns) else Null);
        } else if Wraps(m) {
          ShallowFormIsShallow(m["type"], ns);
        }
      }
    case _ =>
  }

  lemma {:induction false} ContainerForm(m: Node, k: string, sh: Json)
    requires !IsNamed(m) && ContainerKey(m) == Some(k) && IsShallow(sh)
    requires (if k == "items" then "values" else "items") !in m
    ensures IsShallow(Obj(m[k := sh]))
  {
  }

  lemma {:induction false} NoDotNoSpace(name: string)
    requires '.' !in name
    ensures AfterLastDot(name) == 0
  {
  }

  lemma {:induction false} DefIsGood(m: Node, ns: string)
    requires IsNamed(m) && Tidy(Obj(m)) && FieldsOk(Obj(m))
    ensures GoodDef(FullOf(m, ns), DefOf(m, ns))
  {
    if ListAt(m, "fields").Some? {
      var fields := m["fields"].items;
      assert FieldsIn(m) == fields;
      var out := ShallowFields(fields, SpaceOf(m, ns));
      forall i | 0 <= i < |fields| ensures ShallowTyped(out[i]) {
        assert fields[i].Obj?;
        if "type" in fields[i].fields { ShallowFormIsShallow(fields[i].fields["type"], SpaceOf(m, ns)); }
      }
      DefFields(m, ns);
    } else {
      DefFields(m, ns);
    }
  }

  /** The attributes of a stored definition. */
  lemma {:induction false} DefFields(m: Node, ns: string)
    requires IsNamed(m)
    ensures var sh := DefOf(m, ns).shallow;
      IsNamed(sh) && StrAt(sh, "name") == Some(ShortName(m)) && SpaceWritten(sh, SpaceOf(m, ns)) &&
      FieldsIn(sh) == if ListAt(m, "fields").Some? then ShallowFields(m["fields"].items, SpaceOf(m, ns)) else []
  {
  }

  lemma {:induction false} DefsAreGood(node: Json, ns: string)
    requires Tidy(node) && FieldsOk(node)
    ensures forall d | d in DefSeq(node, ns) :: GoodDef(d.0, d.1)
    decreases node
  {
    match node
    case Arr(l) =>
      forall i | 0 <= i < |l| ensures forall d | d in DefSeq(l[i], ns) :: GoodDef(d.0, d.1) { DefsAreGood(l[i], ns); }
      ListGood(l, |l|, ns);
      assert l[..|l|] == l;
    case Obj(m) =>
      if IsNamed(m) {
        DefIsGood(m, ns);
        if ListAt(m, "fields").Some? {
          var fields := m["fields"].items;
          assert FieldsIn(m) == fields;
          forall i | 0 <= i < |fields| && fields[i].Obj? && "type" in fields[i].fields
            ensures forall d | d in DefSeq(fields[i].fields["type"], SpaceOf(m, ns)) :: GoodDef(d.0, d.1)
          {
            DefsAreGood(fields[i].fields["type"], SpaceOf(m, ns));
          }
          FieldsGood(fields, |fields|, SpaceOf(m, ns));
          assert fields[..|fields|] == fields;
        }
      } else if ContainerKey(m).Some? {
        if ContainerKey(m).value in m { DefsAreGood(m[ContainerKey(m).value], ns); }
      } else if Wraps(m) {
        DefsAreGood(m["type"], ns);
      }
    case _ =>
  }

  lemma {:induction false} ListGood(l: seq<Json>, n: nat, ns: string)
    requires n <= |l| && forall i | 0 <= i < |l| :: forall d | d in DefSeq(l[i], ns) :: GoodDef(d.0, d.1)
    ensures forall d | d in DefSeqList(l[..n], ns) :: GoodDef(d.0, d.1)
  {
    if n > 0 {
      ListGood(l, n - 1, ns);
      assert l[..n][..n - 1] == l[..n - 1];
    }
  }

  lemma {:induction false} FieldsGood(fields: seq<Json>, n: nat, ns: string)
    requires n <= |fields|
    requires forall i | 0 <= i < |fields| && fields[i].Obj? && "type" in fields[i].fields ::
      forall d | d in DefSeq(fields[i].fields["type"], ns) :: GoodDef(d.0, d.1)
    ensures forall d | d in FieldDefs(fields[..n], ns) :: GoodDef(d.0, d.1)
  {
    if n > 0 {
      FieldsGood(fields, n - 1, ns);
      assert fields[..n][..n - 1] == fields[..n - 1];
    }
  }

  // ----- Reading a stored definition back -----

  /** A stored definition with other field schemas, where its namespace can be told. */
  predicate Restates(out: Node, d: Def) {
    ListAt(d.shallow, "fields").Some? == ListAt(out, "fields").Some? &&
    (if ListAt(d.shallow, "fields").Some? then out == d.shallow["fields" := out["fields"]] else out == d.shallow)
  }

  lemma {:induction false} ReadBack(out: Node, x: string, d: Def, enclosing: string)
    requires GoodDef(x, d) && Restates(out, d) && (d.ns == "" ==> enclosing == "")
    requires ListAt(out, "fields").Some? ==> ShallowFields(out["fields"].items, d.ns) == d.shallow["fields"].items
    ensures IsNamed(out) && SpaceOf(out, enclosing) == d.ns && FullOf(out, enclosing) == x && DefOf(out, enclosing) == d
  {
    NoDotNoSpace(DeclaredName(out));
    assert DeclaredName(out) == d.shallow["name"].s == ShortName(out);
    assert SpaceOf(out, enclosing) == DeclaredSpace(out, enclosing) == d.ns;
    assert DefOf(out, enclosing).shallow == d.shallow;
  }

  /** A stored name is not a primitive, and reads as itself wherever its namespace can be told. */
  lemma {:induction false} NameReadsBack(x: string, d: Def, ns: string)
    requires GoodDef(x, d) && (d.ns == "" ==> ns == "")
    ensures !IsPrimitive(x) && Qualify(x, ns) == x
  {
    if d.ns != "" {
      var name := d.shallow["name"].s;
      assert x == d.ns + "." + name;
      assert x[|d.ns|] == '.';
      NotPrimitive(x, |d.ns|);
    }
  }

  lemma {:induction false} NotPrimitive(x: string, i: nat)
    requires i < |x| && x[i] == '.'
    ensures !IsPrimitive(x)
  {
    assert forall s | s == "null" || s == "boolean" || s == "int" || s == "long" || s == "float" ||
                      s == "double" || s == "bytes" || s == "string" :: '.' !in s;
  }
}
