/** The Avro JSON rendering (internal/avro/render.go): it never fails on a value of the
    conventional shape, and shows of a union exactly the branch that was drawn. */
module AvroRender {
  import opened JsonValues
  import opened Paths
  import opened Sorting
  import opened AvroModel
  import AG = AvroGeneration

  /** latin1String: each byte as one character. */
  function Latin1(bytes: seq<nat>): string {
    seq(|bytes|, i requires 0 <= i < |bytes| => (bytes[i] % 256) as char)
  }

  /** The characters of the text are the bytes, one for one, so no two byte strings show alike. */
  lemma {:induction false} Latin1ReadsBack(a: seq<nat>, b: seq<nat>)
    requires (forall i | 0 <= i < |a| :: a[i] < 256) && forall i | 0 <= i < |b| :: b[i] < 256
    ensures Latin1(a) == Latin1(b) <==> a == b
    ensures forall i | 0 <= i < |a| :: Latin1(a)[i] as int == a[i]
  {
    if Latin1(a) == Latin1(b) {
      assert |a| == |Latin1(a)| == |b|;
      forall i | 0 <= i < |a| ensures a[i] == b[i] { assert Latin1(a)[i] == Latin1(b)[i]; }
    }
  }

  function BranchNamed(branches: seq<Type>, name: string): (i: nat)
    ensures i <= |branches| && (i < |branches| ==> BranchName(branches[i]) == name)
    ensures forall j | 0 <= j < i :: BranchName(branches[j]) != name
  {
    if branches == [] || BranchName(branches[0]) == name then 0 else 1 + BranchNamed(branches[1..], name)
  }

  /** How a leaf shows: bytes as Latin-1 text; times and decimals by their text, which this
      model leaves as the value it is the text of. */
  function ShownLeaf(v: Json): Json {
    match v
    case Native(Bytes(b)) => Str(Latin1(b))
    case Native(FixedBytes(b)) => Str(Latin1(b))
    case _ => v
  }

  /** What a conforming value shows as: a record as an ordered object of its fields, a union
      as the value of its branch, unwrapped. */
  ghost function Shown(env: Env, t: Type, v: Json): Json
    decreases v
  {
    match t
    case Array(items) =>
      if v.Arr? then Arr(seq(|v.items|, i requires 0 <= i < |v.items| => Shown(env, items, v.items[i]))) else Null
    case Map(values) => if v.Obj? then Obj(map k | k in v.fields :: Shown(env, values, v.fields[k])) else Null
    case Union(branches) =>
      if v.Obj? && exists b :: 0 <= b < |branches| && v.fields.Keys == {BranchName(branches[b])} then
        var b :| 0 <= b < |branches| && v.fields.Keys == {BranchName(branches[b])};
        var name := BranchName(branches[b]);
        Shown(env, branches[BranchNamed(branches, name)], v.fields[name])
      else Null
    case Named(full) =>
      if full in env && env[full].Record? && v.Obj? && forall f | f in env[full].fields :: f.name in v.fields then
        var fields := env[full].fields;
        Ord(seq(|fields|, i requires 0 <= i < |fields| => fields[i].name),
            seq(|fields|, i requires 0 <= i < |fields| => Shown(env, fields[i].typ, v.fields[fields[i].name])))
      else ShownLeaf(v)
    case _ => ShownLeaf(v)
  }

  /** Avro's rule for a union: no two branches of one name. */
  ghost predicate DistinctBranches(branches: seq<Type>) {
    forall i, j | 0 <= i < j < |branches| :: BranchName(branches[i]) != BranchName(branches[j])
  }

  ghost predicate WellNamed(t: Type) {
    match t
    case Array(items) => WellNamed(items)
    case Map(values) => WellNamed(values)
    case Union(branches) => DistinctBranches(branches) && forall b | b in branches :: WellNamed(b)
    case _ => true
  }

  ghost predicate WellNamedEnv(env: Env) {
    forall full | full in env && env[full].Record? :: forall f | f in env[full].fields :: WellNamed(f.typ)
  }

  lemma OneEntry(branches: seq<Type>, name: string, b: nat)
    requires DistinctBranches(branches) && b < |branches| && BranchName(branches[b]) == name
    ensures BranchNamed(branches, name) == b
  {
  }

  /** A union shows as exactly the branch whose value it holds. */
  lemma UnionShowsItsBranch(env: Env, branches: seq<Type>, b: nat, bv: Json)
    requires DistinctBranches(branches) && b < |branches|
    ensures Shown(env, Union(branches), Obj(map[BranchName(branches[b]) := bv])) == Shown(env, branches[b], bv)
  {
    var name := BranchName(branches[b]);
    var v := Obj(map[name := bv]);
    assert v.fields.Keys == {name};
    var c :| 0 <= c < |branches| && v.fields.Keys == {BranchName(branches[c])}
             && Shown(env, Union(branches), v) ==
                  Shown(env, branches[BranchNamed(branches, BranchName(branches[c]))],
                        v.fields[BranchName(branches[c])]);
    assert BranchName(branches[c]) in v.fields.Keys;
    OneEntry(branches, name, b);
  }

  /** A record shows its fields in declared order, a list its items in order, a map its keys. */
  lemma {:induction false} ShownInOrder(env: Env, t: Type, v: Json)
    requires Conforms(env, t, v)
    ensures t.Named? && env[t.full].Record? ==> Shown(env, t, v).Ord? && |Shown(env, t, v).keys| == |env[t.full].fields|
    ensures t.Named? && env[t.full].Record? ==>
              forall i | 0 <= i < |env[t.full].fields| :: Shown(env, t, v).keys[i] == env[t.full].fields[i].name
    ensures t.Array? ==> Shown(env, t, v).Arr? && |Shown(env, t, v).items| == |v.items|
    ensures t.Map? ==> Shown(env, t, v).Obj? && Shown(env, t, v).fields.Keys == v.fields.Keys
  {
  }

  /** Where a walk leads in a value, it leads in what the value shows as, to what that place shows as. */
  lemma {:induction false} ShownAlong(env: Env, t: Type, path: seq<Step>, v: Json)
    requires AvroLocate(env, t, path).Some? && Conforms(env, t, v) && AG.WellFormed(env)
    ensures var l := AvroLocate(env, t, path).value;
            At(v, l.0).Some? && At(Shown(env, t, v), l.0) == Some(Shown(env, l.1, At(v, l.0).value))
    decreases |path|
  {
    if path != [] {
      var step := AvroStep(path[0]);
      var fields := env[t.full].fields;
      var i := FieldIndex(fields, step.field);
      var f := fields[i];
      assert f in fields && f.name in v.fields;
      ShownField(env, t, v, i);
      ShownAlong(env, f.typ, path[1..], v.fields[f.name]);
      var l := AvroLocate(env, t, path).value;
      assert l.0[1..] == AvroLocate(env, f.typ, path[1..]).value.0;
    }
  }

  lemma {:induction false} ShownField(env: Env, t: Type, v: Json, i: nat)
    requires Conforms(env, t, v) && AG.WellFormed(env) && t.Named? && env[t.full].Record? && i < |env[t.full].fields|
    ensures var f := env[t.full].fields[i];
            f.name in v.fields &&
            Child(Shown(env, t, v), FieldStep(f.name)) == Some(Shown(env, f.typ, v.fields[f.name]))
  {
    var fields := env[t.full].fields;
    assert fields[i] in fields;
    FoundAt(fields, Shown(env, t, v).keys, i);
  }

  lemma {:induction false} FoundAt(fields: seq<Field>, keys: seq<string>, i: nat)
    requires AG.DistinctNames(fields) && |keys| == |fields| && i < |fields|
    requires forall j | 0 <= j < |fields| :: keys[j] == fields[j].name
    ensures IndexOf(keys, fields[i].name) == i
  {
    var at := IndexOf(keys, fields[i].name);
    assert keys[i] == fields[i].name;
    assert keys[at] == fields[at].name;
  }

  /** renderDatum. */
  method RenderDatum(env: Env, t: Type, v: Json) returns (r: Option<Json>)
    ensures WellNamed(t) && WellNamedEnv(env) && Conforms(env, t, v) ==> r == Some(Shown(env, t, v))
    decreases v, 1
  {
    match t
    case NullType => r := Some(Null);
    case Primitive(k, l) => r := RenderPrimitive(k, l, v);
    case Array(items) => r := RenderArray(env, items, v);
    case Map(values) => r := RenderMap(env, values, v);
    case Union(branches) => r := RenderUnion(env, branches, v);
    case Named(full) =>
      if full !in env { return None; }
      match env[full]
      case Record(fields) => r := RenderRecord(env, full, fields, v);
      case Enum(_) => r := if v.Str? then Some(v) else None;
      case Fixed(_, Some(l)) => r := RenderLogical(l, v);
      case Fixed(_, None) =>
        r := if v.Native? && (v.go.FixedBytes? || v.go.Bytes?) then Some(Str(Latin1(v.go.bytes))) else None;
  }

  method RenderLogical(l: Logical, v: Json) returns (r: Option<Json>)
    ensures LogicalShape(l, v) ==> r == Some(ShownLeaf(v))
  {
    match l.kind
    case Uuid => r := if v.Str? then Some(v) else None;
    case TimeMillis => r := if v.Native? && v.go.Duration? then Some(v) else None;
    case TimeMicros => r := if v.Native? && v.go.Duration? then Some(v) else None;
    case Decimal => r := if v.Native? && v.go.Rat? then Some(v) else None;
    case _ => r := if v.Native? && v.go.Instant? then Some(v) else None;
  }

  method RenderPrimitive(k: Kind, logical: Option<Logical>, v: Json) returns (r: Option<Json>)
    ensures PrimitiveShape(k, logical, v) ==> r == Some(ShownLeaf(v))
  {
    if logical.Some? {
      r := RenderLogical(logical.value, v);
      return;
    }
    var ok :=
      match k
      case KBoolean => v.Bool?
      case KInt => v.Native? && v.go.Int32?
      case KLong => v.Native? && v.go.Int64?
      case KFloat => v.Native? && v.go.Float32?
      case KDouble => v.Native? && v.go.Float64?
      case KBytes => v.Native? && v.go.Bytes?
      case KString => v.Str?;
    r := if ok then Some(ShownLeaf(v)) else None;
  }

  method RenderArray(env: Env, items: Type, v: Json) returns (r: Option<Json>)
    ensures WellNamed(items) && WellNamedEnv(env) && Conforms(env, Array(items), v) ==>
              r == Some(Shown(env, Array(items), v))
    decreases v, 0
  {
    if !v.Arr? { return None; }
    var out: seq<Json> := [];
    for i := 0 to |v.items|
      invariant |out| == i
      invariant WellNamed(items) && WellNamedEnv(env) && Conforms(env, Array(items), v) ==>
                  forall j | 0 <= j < i :: out[j] == Shown(env, items, v.items[j])
    {
      var x := RenderDatum(env, items, v.items[i]);
      if x.None? { return None; }
      out := out + [x.value];
    }
    r := Some(Arr(out));
    assert WellNamed(items) && WellNamedEnv(env) && Conforms(env, Array(items), v) ==>
      Shown(env, Array(items), v).items == out;
  }

  method RenderMap(env: Env, values: Type, v: Json) returns (r: Option<Json>)
    ensures WellNamed(values) && WellNamedEnv(env) && Conforms(env, Map(values), v) ==>
              r == Some(Shown(env, Map(values), v))
    decreases v, 0
  {
    if !v.Obj? { return None; }
    var out: map<string, Json> := map[];
    var todo := v.fields.Keys;
    while todo != {}
      invariant todo <= v.fields.Keys && out.Keys == v.fields.Keys - todo
      invariant WellNamed(values) && WellNamedEnv(env) && Conforms(env, Map(values), v) ==>
                  forall k | k in out :: out[k] == Shown(env, values, v.fields[k])
    {
      var k :| k in todo;
      todo := todo - {k};
      var x := RenderDatum(env, values, v.fields[k]);
      if x.None? { return None; }
      out := out[k := x.value];
    }
    r := Some(Obj(out));
    if WellNamed(values) && WellNamedEnv(env) && Conforms(env, Map(values), v) { MapShown(env, values, v, out); }
  }

  lemma {:induction false} MapShown(env: Env, values: Type, v: Json, out: map<string, Json>)
    requires v.Obj? && out.Keys == v.fields.Keys && forall k | k in out :: out[k] == Shown(env, values, v.fields[k])
    ensures Shown(env, Map(values), v) == Obj(out)
  {
    assert Shown(env, Map(values), v).fields == out;
  }

  method RenderUnion(env: Env, branches: seq<Type>, v: Json) returns (r: Option<Json>)
    ensures WellNamed(Union(branches)) && WellNamedEnv(env) && Conforms(env, Union(branches), v) ==>
              r == Some(Shown(env, Union(branches), v))
    decreases v, 0
  {
    if !v.Obj? || v.fields == map[] { return None; }
    var name :| name in v.fields;
    var i := BranchNamed(branches, name);
    if i == |branches| { return None; }
    r := RenderDatum(env, branches[i], v.fields[name]);
    if WellNamed(Union(branches)) && WellNamedEnv(env) && Conforms(env, Union(branches), v) {
      var b :| 0 <= b < |branches| && v.fields.Keys == {BranchName(branches[b])} &&
               Conforms(env, branches[b], v.fields[BranchName(branches[b])]);
      assert name in v.fields.Keys;
      OneEntry(branches, name, b);
      assert v == Obj(map[name := v.fields[name]]);
      UnionShowsItsBranch(env, branches, b, v.fields[name]);
      assert branches[b] in branches;
    }
  }

  method RenderRecord(env: Env, full: string, fields: seq<Field>, v: Json) returns (r: Option<Json>)
    requires full in env && env[full] == Record(fields)
    ensures WellNamedEnv(env) && Conforms(env, Named(full), v) ==> r == Some(Shown(env, Named(full), v))
    decreases v, 0
  {
    if !v.Obj? { return None; }
    var keys: seq<string> := [];
    var vals: seq<Json> := [];
    for i := 0 to |fields|
      invariant |keys| == |vals| == i
      invariant forall j | 0 <= j < i :: keys[j] == fields[j].name
      invariant WellNamedEnv(env) && Conforms(env, Named(full), v) ==>
                  forall j | 0 <= j < i ::
                    fields[j].name in v.fields && vals[j] == Shown(env, fields[j].typ, v.fields[fields[j].name])
    {
      assert fields[i] in fields;
      if fields[i].name !in v.fields { return None; }
      var x := RenderDatum(env, fields[i].typ, v.fields[fields[i].name]);
      if x.None? { return None; }
      keys, vals := keys + [fields[i].name], vals + [x.value];
    }
    r := Some(Ord(keys, vals));
    if WellNamedEnv(env) && Conforms(env, Named(full), v) {
      var s := Shown(env, Named(full), v);
      assert s.keys == keys;
      assert s.vals == vals;
    }
  }
}
