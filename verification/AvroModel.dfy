/** The parsed Avro model (internal/avro/avro.go), the value convention
    (internal/avro/convention.go) and the avsc walk (internal/avro/walk.go). */
module AvroModel {
  import opened JsonValues
  import opened Paths

  datatype Kind = KBoolean | KInt | KLong | KFloat | KDouble | KBytes | KString

  datatype LogicalKind =
    | Date | TimeMillis | TimeMicros
    | TimestampMillis | TimestampMicros | LocalTimestampMillis | LocalTimestampMicros
    | Uuid | Decimal

  datatype Logical = Logical(kind: LogicalKind, precision: int, scale: nat)

  /** A model node; null carries no overlay. A named type is one shared node, so cycles go
      through its full name. */
  datatype Type =
    | NullType
    | Primitive(kind: Kind, logical: Option<Logical>)
    | Named(full: string)
    | Array(items: Type)
    | Map(values: Type)
    | Union(branches: seq<Type>)

  datatype Field = Field(name: string, typ: Type)

  datatype Definition =
    | Record(fields: seq<Field>)
    | Enum(symbols: seq<string>)
    | Fixed(size: nat, logical: Option<Logical>)

  type Env = map<string, Definition>

  // ----- unionBranchName -----

  function KindName(k: Kind): string {
    match k
    case KBoolean => "boolean" case KInt => "int" case KLong => "long"
    case KFloat => "float" case KDouble => "double" case KBytes => "bytes" case KString => "string"
  }

  function LogicalName(k: LogicalKind): string {
    match k
    case Date => "date" case TimeMillis => "time-millis" case TimeMicros => "time-micros"
    case TimestampMillis => "timestamp-millis" case TimestampMicros => "timestamp-micros"
    case LocalTimestampMillis => "local-timestamp-millis" case LocalTimestampMicros => "local-timestamp-micros"
    case Uuid => "uuid" case Decimal => "decimal"
  }

  /** The key a union value is wrapped under. */
  function BranchName(t: Type): string {
    match t
    case NullType => "null"
    case Primitive(k, None) => KindName(k)
    case Primitive(k, Some(l)) => KindName(k) + "." + LogicalName(l.kind)
    case Named(full) => full
    case Array(_) => "array"
    case Map(_) => "map"
    case Union(_) => "*avro.Union"
  }

  // ----- The value convention -----

  function Pow10(n: nat): nat { if n == 0 then 1 else 10 * Pow10(n - 1) }

  ghost predicate LogicalShape(l: Logical, v: Json) {
    match l.kind
    case Uuid => v.Str?
    case TimeMillis => v.Native? && v.go.Duration?
    case TimeMicros => v.Native? && v.go.Duration?
    case Decimal =>
      v.Native? && v.go.Rat? && l.precision >= 1 && v.go.den == Pow10(l.scale) && 0 <= v.go.num < Pow10(l.precision)
    case _ => v.Native? && v.go.Instant?
  }

  ghost predicate KindShape(k: Kind, v: Json) {
    match k
    case KBoolean => v.Bool?
    case KInt => v.Native? && v.go.Int32?
    case KLong => v.Native? && v.go.Int64?
    case KFloat => v.Native? && v.go.Float32?
    case KDouble => v.Native? && v.go.Float64?
    case KBytes => v.Native? && v.go.Bytes?
    case KString => v.Str?
  }

  ghost predicate PrimitiveShape(k: Kind, logical: Option<Logical>, v: Json) {
    match logical
    case Some(l) => LogicalShape(l, v)
    case None => KindShape(k, v)
  }

  /** v is a value of type t as the convention represents it: a record is a map of exactly
      its fields, a union a single entry under the name of one of its branches. */
  ghost predicate Conforms(env: Env, t: Type, v: Json)
    decreases v
  {
    match t
    case NullType => v == Null
    case Primitive(k, l) => PrimitiveShape(k, l, v)
    case Array(items) => v.Arr? && forall i | 0 <= i < |v.items| :: Conforms(env, items, v.items[i])
    case Map(values) => v.Obj? && forall k | k in v.fields :: Conforms(env, values, v.fields[k])
    case Union(branches) =>
      v.Obj? && exists b :: 0 <= b < |branches| && v.fields.Keys == {BranchName(branches[b])} &&
                            Conforms(env, branches[b], v.fields[BranchName(branches[b])])
    case Named(full) =>
      full in env &&
      match env[full]
      case Record(fields) =>
        v.Obj? && v.fields.Keys == (set f | f in fields :: f.name) &&
        forall f | f in fields :: Conforms(env, f.typ, v.fields[f.name])
      case Enum(symbols) => v.Str? && v.s in symbols
      case Fixed(size, Some(l)) => LogicalShape(l, v)
      case Fixed(size, None) => v.Native? && v.go.FixedBytes? && |v.go.bytes| == size
  }

  // ----- The avsc walk -----

  function FieldIndex(fields: seq<Field>, name: string): (i: nat)
    ensures i <= |fields| && (i < |fields| ==> fields[i].name == name)
    ensures forall j | 0 <= j < i :: fields[j].name != name
  {
    if fields == [] || fields[0].name == name then 0 else 1 + FieldIndex(fields[1..], name)
  }

  /** field: only a record's field is in every value. */
  function FieldStepOf(env: Env, t: Type, step: Step): Option<Type> {
    match t
    case Named(full) =>
      if full in env && env[full].Record? && step.index < 0 then
        var i := FieldIndex(env[full].fields, step.field);
        if i < |env[full].fields| then Some(env[full].fields[i].typ) else None
      else None
    case _ => None
  }

  function AvroStep(step: Step): Step { if step.token then FieldStep(step.field) else step }

  /** Walk.Locate over an avsc: the resolved steps and the type they end at, never a union. */
  ghost function AvroLocate(env: Env, t: Type, path: seq<Step>): Option<(seq<Step>, Type)>
    decreases |path|
  {
    if path == [] then if t.Union? then None else Some(([], t))
    else
      var step := AvroStep(path[0]);
      var next := FieldStepOf(env, t, step);
      if next.None? then None else
        var rest := AvroLocate(env, next.value, path[1..]);
        if rest.None? then None else Some(([step] + rest.value.0, rest.value.1))
  }

  /** A walk on from the steps already taken. */
  ghost function After(steps: seq<Step>, rest: Option<(seq<Step>, Type)>): Option<(seq<Step>, Type)> {
    if rest.None? then None else Some((steps + rest.value.0, rest.value.1))
  }

  lemma {:induction false} AfterStep(env: Env, t: Type, path: seq<Step>, i: nat, steps: seq<Step>)
    requires i < |path|
    ensures var step := AvroStep(path[i]);
            var next := FieldStepOf(env, t, step);
            After(steps, AvroLocate(env, t, path[i..])) ==
              if next.None? then None else After(steps + [step], AvroLocate(env, next.value, path[i + 1..]))
  {
    var step := AvroStep(path[i]);
    assert path[i..][1..] == path[i + 1..];
    var next := FieldStepOf(env, t, step);
    if next.Some? {
      var rest := AvroLocate(env, next.value, path[i + 1..]);
      if rest.Some? { assert steps + ([step] + rest.value.0) == steps + [step] + rest.value.0; }
    }
  }

  lemma {:induction false} AfterAll(env: Env, t: Type, path: seq<Step>, steps: seq<Step>)
    ensures After([], AvroLocate(env, t, path[0..])) == AvroLocate(env, t, path)
    ensures After(steps, AvroLocate(env, t, path[|path|..])) == if t.Union? then None else Some((steps, t))
  {
    assert path[0..] == path && path[|path|..] == [] && steps + [] == steps;
    var all := AvroLocate(env, t, path);
    if all.Some? { assert [] + all.value.0 == all.value.0; }
  }

  method Locate(env: Env, root: Type, path: seq<Step>) returns (r: Option<(seq<Step>, Type)>)
    ensures r == AvroLocate(env, root, path)
  {
    var steps: seq<Step> := [];
    var current := root;
    AfterAll(env, root, path, []);
    for i := 0 to |path|
      invariant After([], AvroLocate(env, root, path[0..])) == After(steps, AvroLocate(env, current, path[i..]))
    {
      AfterStep(env, current, path, i, steps);
      var step := AvroStep(path[i]);
      var next := FieldStepOf(env, current, step);
      if next.None? { return None; }
      steps := steps + [step];
      current := next.value;
    }
    AfterAll(env, current, path, steps);
    if current.Union? { return None; }
    r := Some((steps, current));
  }

  /** Soundness: a located path exists in every conforming value, and the value there
      conforms to the type it ends at. */
  lemma {:induction false} AvroWalkSound(env: Env, t: Type, path: seq<Step>, v: Json)
    requires AvroLocate(env, t, path).Some? && Conforms(env, t, v)
    ensures var l := AvroLocate(env, t, path).value;
            At(v, l.0).Some? && Conforms(env, l.1, At(v, l.0).value) && |l.0| == |path|
    decreases |path|
  {
    if path != [] {
      var step := AvroStep(path[0]);
      var fields := env[t.full].fields;
      var f := fields[FieldIndex(fields, step.field)];
      assert f in fields;
      AvroWalkSound(env, f.typ, path[1..], v.fields[f.name]);
      var l := AvroLocate(env, t, path).value;
      assert l.0[1..] == AvroLocate(env, f.typ, path[1..]).value.0;
    }
  }
}
