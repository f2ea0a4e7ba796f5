/** Avro schemas as composer.shallow reads them (internal/wire/avrowire/union.go): full names,
    shallow forms, and the definitions a schema node holds. */
module AvscShapes {
  import opened JsonValues

  predicate IsPrimitive(s: string) {
    s == "null" || s == "boolean" || s == "int" || s == "long" ||
    s == "float" || s == "double" || s == "bytes" || s == "string"
  }

  predicate NamedKind(t: string) { t == "record" || t == "error" || t == "enum" || t == "fixed" }

  /** qualify: primitives and dotted names are already full. */
  function Qualify(name: string, ns: string): string {
    if IsPrimitive(name) || '.' in name || ns == "" then name else ns + "." + name
  }

  /** The position after the last dot; 0 when there is none. */
  function AfterLastDot(s: string): (i: nat)
    ensures i <= |s| && (i > 0 ==> s[i - 1] == '.') && '.' !in s[i..]
  {
    if s == "" then 0
    else if s[|s| - 1] == '.' then |s|
    else
      var i := AfterLastDot(s[..|s| - 1]);
      assert s[i..] == s[..|s| - 1][i..] + [s[|s| - 1]];
      i
  }

  function DeclaredName(m: Node): string { StrAt(m, "name").GetOr("") }

  function DeclaredSpace(m: Node, enclosing: string): string {
    if StrAt(m, "namespace").Some? && m["namespace"].s != "" then m["namespace"].s else enclosing
  }

  /** A definition's own name, without its namespace. */
  function ShortName(m: Node): string { DeclaredName(m)[AfterLastDot(DeclaredName(m))..] }

  /** The namespace a definition is in: its name's, its own, or the enclosing one. */
  function SpaceOf(m: Node, enclosing: string): string {
    var i := AfterLastDot(DeclaredName(m));
    if i > 0 then DeclaredName(m)[..i - 1] else DeclaredSpace(m, enclosing)
  }

  function FullOf(m: Node, enclosing: string): string { Qualify(ShortName(m), SpaceOf(m, enclosing)) }

  function Get(m: Node, k: string): Json { if k in m then m[k] else Null }

  predicate IsNamed(m: Node) { StrAt(m, "type").Some? && NamedKind(m["type"].s) }

  /** The key of the schema inside an array or map node; none for other nodes. */
  function ContainerKey(m: Node): Option<string> {
    if StrAt(m, "type") == Some("array") then Some("items")
    else if StrAt(m, "type") == Some("map") then Some("values")
    else None
  }

  predicate Wraps(m: Node) { "type" in m && (m["type"].Obj? || m["type"].Arr?) }

  /** The shallow form: each named type in it replaced by its full name. */
  function ShallowOf(node: Json, ns: string): Json
    decreases node
  {
    match node
    case Str(s) => Str(Qualify(s, ns))
    case Arr(l) => Arr(seq(|l|, i requires 0 <= i < |l| => ShallowOf(l[i], ns)))
    case Obj(m) =>
      if IsNamed(m) then Str(FullOf(m, ns))
      else if ContainerKey(m).Some? then
        var k := ContainerKey(m).value;
        Obj(m[k := if k in m then ShallowOf(m[k], ns) else Null])
      else if Wraps(m) then ShallowOf(m["type"], ns)
      else node
    case _ => node
  }

  /** A named type's definition in shallow form, with its namespace written out. */
  datatype Def = Def(ns: string, shallow: Node)

  function ShallowField(f: Json, ns: string): Json
    decreases f
  {
    if f.Obj? then Obj(f.fields["type" := if "type" in f.fields then ShallowOf(f.fields["type"], ns) else Null]) else f
  }

  function ShallowFields(fields: seq<Json>, ns: string): seq<Json> {
    seq(|fields|, i requires 0 <= i < |fields| => ShallowField(fields[i], ns))
  }

  function DefOf(m: Node, enclosing: string): Def {
    var ns := SpaceOf(m, enclosing);
    var named := (m - {"namespace"})["name" := Str(ShortName(m))];
    var spaced := if ns != "" then named["namespace" := Str(ns)] else named;
    Def(ns, if ListAt(m, "fields").Some? then spaced["fields" := Arr(ShallowFields(m["fields"].items, ns))] else spaced)
  }

  // ----- The definitions in a node, in the order they begin -----

  function DefSeq(node: Json, ns: string): seq<(string, Def)>
    decreases node, 1
  {
    match node
    case Str(_) => []
    case Arr(l) => DefSeqList(l, ns)
    case Obj(m) =>
      if IsNamed(m) then
        [(FullOf(m, ns), DefOf(m, ns))] +
        if ListAt(m, "fields").Some? then FieldDefs(m["fields"].items, SpaceOf(m, ns)) else []
      else if ContainerKey(m).Some? && ContainerKey(m).value in m then DefSeq(m[ContainerKey(m).value], ns)
      else if ContainerKey(m).None? && Wraps(m) then DefSeq(m["type"], ns)
      else []
    case _ => []
  }

  function FieldsIn(m: Node): seq<Json> { ListAt(m, "fields").GetOr([]) }

  function DefSeqList(l: seq<Json>, ns: string): seq<(string, Def)>
    decreases l, 0
  {
    if l == [] then [] else DefSeqList(l[..|l| - 1], ns) + DefSeq(l[|l| - 1], ns)
  }

  function FieldDefs(fields: seq<Json>, ns: string): seq<(string, Def)>
    decreases fields, 0
  {
    if fields == [] then [] else
      var f := fields[|fields| - 1];
      FieldDefs(fields[..|fields| - 1], ns) +
      if f.Obj? && "type" in f.fields then DefSeq(f.fields["type"], ns) else []
  }

  ghost function NamesOf(defs: seq<(string, Def)>): set<string> { set d | d in defs :: d.0 }

  lemma {:induction false} NamesOfConcat(a: seq<(string, Def)>, b: seq<(string, Def)>)
    ensures NamesOf(a + b) == NamesOf(a) + NamesOf(b)
  {
    assert forall d :: d in a + b <==> d in a || d in b;
    forall x | x in NamesOf(a) + NamesOf(b) ensures x in NamesOf(a + b) {
      if x in NamesOf(a) {
        var d :| d in a && d.0 == x;
        assert d in a + b;
      } else {
        var d :| d in b && d.0 == x;
        assert d in a + b;
      }
    }
  }

  // ----- What a node refers to -----

  /** The names a shallow node refers to, as composer.dependencies and the renderer see them. */
  function Occurs(sh: Json): set<string>
    decreases sh
  {
    match sh
    case Str(s) => {s}
    case Arr(l) => set i, x | 0 <= i < |l| && x in Occurs(l[i]) :: x
    case Obj(m) =>
      (if "items" in m then Occurs(m["items"]) else {}) + (if "values" in m then Occurs(m["values"]) else {})
    case _ => {}
  }

  function FieldType(f: Json): Json { if f.Obj? then Get(f.fields, "type") else Null }

  function DefOccurs(d: Def): set<string> {
    var fields := FieldsIn(d.shallow);
    set i, x | 0 <= i < |fields| && x in Occurs(FieldType(fields[i])) :: x
  }

  /** Every field of every record is an object. */
  predicate FieldsOk(node: Json)
    decreases node
  {
    match node
    case Arr(l) => forall i | 0 <= i < |l| :: FieldsOk(l[i])
    case Obj(m) =>
      if IsNamed(m) then
        var fields := FieldsIn(m);
        forall i | 0 <= i < |fields| ::
          fields[i].Obj? && ("type" in fields[i].fields ==> FieldsOk(fields[i].fields["type"]))
      else if ContainerKey(m).Some? then ContainerKey(m).value in m ==> FieldsOk(m[ContainerKey(m).value])
      else if Wraps(m) then FieldsOk(m["type"])
      else true
    case _ => true
  }

  predicate FieldOk(f: Json) { f.Obj? && ("type" in f.fields ==> FieldsOk(f.fields["type"])) }

  predicate AllFieldOk(fields: seq<Json>) { forall i | 0 <= i < |fields| :: FieldOk(fields[i]) }

  /** An avsc as avro.Parse admits it, with no attribute named items or values where Avro
      gives it no meaning: the renderer takes such an attribute for a schema. */
  predicate Tidy(node: Json)
    decreases node
  {
    match node
    case Arr(l) => forall i | 0 <= i < |l| :: Tidy(l[i])
    case Obj(m) =>
      if IsNamed(m) then
        var fields := FieldsIn(m);
        !IsPrimitive(ShortName(m)) &&
        forall i | 0 <= i < |fields| && fields[i].Obj? && "type" in fields[i].fields :: Tidy(fields[i].fields["type"])
      else if ContainerKey(m) == Some("items") then "values" !in m && ("items" in m ==> Tidy(m["items"]))
      else if ContainerKey(m) == Some("values") then "items" !in m && ("values" in m ==> Tidy(m["values"]))
      else if Wraps(m) then Tidy(m["type"])
      else "items" !in m && "values" !in m
    case _ => true
  }
}
