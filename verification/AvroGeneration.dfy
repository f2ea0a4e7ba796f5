/** What the Avro generator can produce (internal/avro/generate.go), as a relation over every stream of
    draws: AvroYields(env, typ, depth, v) holds of each value v that some draws lead Generator.value to. */
module AvroGeneration {
  import opened JsonValues
  import opened Draws
  import opened KeyPaths
  import opened AvroModel

  const MAX_AVRO_DEPTH: nat := 32

  /** What avro.Parse guarantees of a record: no field twice. */
  ghost predicate WellFormed(env: Env) {
    forall full | full in env && env[full].Record? :: DistinctNames(env[full].fields)
  }

  ghost predicate DistinctNames(fields: seq<Field>) {
    forall i, j | 0 <= i < j < |fields| :: fields[i].name != fields[j].name
  }

  ghost function NamesIn(fields: seq<Field>): set<string> { set f | f in fields :: f.name }

  /** A decimal of no digits is the one logical type nothing can be drawn for. */
  ghost predicate Drawable(logical: Option<Logical>) {
    logical.Some? && logical.value.kind.Decimal? ==> logical.value.precision >= 1
  }

  function NonNull(branches: seq<Type>): seq<Type> {
    if branches == [] then [] else
      var rest := NonNull(branches[1..]);
      if branches[0].NullType? then rest else [branches[0]] + rest
  }

  lemma {:induction false} NonNullAre(branches: seq<Type>, b: Type)
    ensures b in NonNull(branches) <==> b in branches && b != NullType
  {
    if branches != [] {
      NonNullAre(branches[1..], b);
      assert branches == [branches[0]] + branches[1..];
    }
  }

  // ----- When generation cannot fail -----

  /** No draws stop the generator at this type: whatever it can reach by the depth bound is a
      type it handles, and what it reaches past the bound has an escape. */
  ghost predicate Answerable(env: Env, typ: Type, depth: nat)
    requires depth <= MAX_AVRO_DEPTH + 1
    decreases MAX_AVRO_DEPTH + 1 - depth, 1
  {
    if depth > MAX_AVRO_DEPTH then EscapeOf(typ).Some?
    else match typ
      case NullType => true
      case Primitive(_, logical) => Drawable(logical)
      case Array(items) => Answerable(env, items, depth + 1)
      case Map(values) => Answerable(env, values, depth + 1)
      case Union(branches) => NonNull(branches) != [] && AnswerableAll(env, NonNull(branches), depth + 1)
      case Named(full) => full in env && match env[full] {
        case Record(fields) => AnswerableAll(env, TypesOf(fields), depth + 1)
        case Enum(symbols) => symbols != []
        case Fixed(_, logical) => Drawable(logical)
      }
  }

  ghost predicate AnswerableAll(env: Env, types: seq<Type>, depth: nat)
    requires depth <= MAX_AVRO_DEPTH + 1
    decreases MAX_AVRO_DEPTH + 1 - depth, 2
  {
    forall i | 0 <= i < |types| :: Answerable(env, types[i], depth)
  }

  ghost function TypesOf(fields: seq<Field>): (r: seq<Type>)
    ensures |r| == |fields| && forall i | 0 <= i < |r| :: r[i] == fields[i].typ
  {
    seq(|fields|, i requires 0 <= i < |fields| => fields[i].typ)
  }

  // ----- The relation -----

  /** Past the depth bound only a null branch or an empty container ends a cycle. */
  function EscapeOf(typ: Type): Option<Json> {
    match typ
    case Union(branches) => if NullType in branches then Some(Obj(map["null" := Null])) else None
    case Array(_) => Some(Arr([]))
    case Map(_) => Some(Obj(map[]))
    case _ => None
  }

  predicate AreBytes(b: seq<nat>) { forall i | 0 <= i < |b| :: b[i] < 256 }

  ghost predicate YieldsFloat(x: real) { exists w: nat :: w < TWO_64 && x == FloatOf(w, 0.0, 1000.0) }

  ghost predicate YieldsKind(k: Kind, v: Json) {
    match k
    case KBoolean => v.Bool?
    case KInt => v.Native? && v.go.Int32? && Drawn(v.go.i, 0, 999)
    case KLong => v.Native? && v.go.Int64? && Drawn(v.go.i, 0, 999)
    case KFloat => v.Native? && v.go.Float32? && YieldsFloat(v.go.r)
    case KDouble => v.Native? && v.go.Float64? && YieldsFloat(v.go.r)
    case KBytes => v.Native? && v.go.Bytes? && Drawn(|v.go.bytes|, 4, 8) && AreBytes(v.go.bytes)
    case KString => v.Str?
  }

  function Digits(l: Logical): int { if l.precision > 15 then 15 else l.precision }

  /** Times of day, decimals of as many digits as the precision allows, and any instant or text. */
  ghost predicate YieldsLogical(l: Logical, v: Json) {
    match l.kind
    case Uuid => v.Str?
    case TimeMillis => exists n :: Drawn(n, 0, 86399999) && v == Native(Duration(n * 1000000))
    case TimeMicros => exists n :: Drawn(n, 0, 86399999999) && v == Native(Duration(n * 1000))
    case Decimal =>
      l.precision >= 1 && v.Native? && v.go.Rat? && v.go.den == Pow10(l.scale) &&
      Pow10(Digits(l) - 1) <= v.go.num < Pow10(Digits(l))
    case _ => v.Native? && v.go.Instant? && 0 <= v.go.ticks < TWO_64
  }

  ghost predicate YieldsPrimitive(k: Kind, logical: Option<Logical>, v: Json) {
    match logical
    case Some(l) => YieldsLogical(l, v)
    case None => YieldsKind(k, v)
  }

  function MapKey(i: nat): string { "k" + Itoa(i) }

  /** The keys k0, k1, ... a map of n entries has. */
  function MapKeys(n: nat): seq<string> { seq(n, i requires 0 <= i < n => MapKey(i)) }

  ghost predicate HasMapKeys(m: map<string, Json>, n: nat) { forall k :: k in m <==> k in MapKeys(n) }

  /** One to four entries, under the first keys. */
  ghost predicate MapSized(m: map<string, Json>) { exists n :: 1 <= n <= 4 && HasMapKeys(m, n) }

  ghost predicate AvroYields(env: Env, typ: Type, depth: nat, v: Json)
    requires depth <= MAX_AVRO_DEPTH + 1
    decreases MAX_AVRO_DEPTH + 1 - depth, 1
  {
    if depth > MAX_AVRO_DEPTH then EscapeOf(typ) == Some(v)
    else match typ
      case NullType => v == Null
      case Primitive(k, l) => YieldsPrimitive(k, l, v)
      case Array(items) => v.Arr? && 1 <= |v.items| <= 5 && YieldsItems(env, items, depth, v.items)
      case Map(values) => v.Obj? && MapSized(v.fields) && YieldsEntries(env, values, depth, v.fields)
      case Union(branches) =>
        v.Obj? &&
        ((NullType in branches && v.fields == map["null" := Null]) || YieldsBranch(env, branches, depth, v.fields))
      case Named(full) => full in env && match env[full] {
        case Record(fields) => v.Obj? && v.fields.Keys == NamesIn(fields) && YieldsFields(env, fields, depth, v.fields)
        case Enum(symbols) => v.Str? && v.s in symbols
        case Fixed(size, Some(l)) => YieldsLogical(l, v)
        case Fixed(size, None) => v.Native? && v.go.FixedBytes? && |v.go.bytes| == size && AreBytes(v.go.bytes)
      }
  }

  ghost predicate YieldsItems(env: Env, items: Type, depth: nat, vals: seq<Json>)
    requires depth <= MAX_AVRO_DEPTH
    decreases MAX_AVRO_DEPTH + 1 - depth, 0
  {
    forall i | 0 <= i < |vals| :: AvroYields(env, items, depth + 1, vals[i])
  }

  ghost predicate YieldsEntries(env: Env, values: Type, depth: nat, m: map<string, Json>)
    requires depth <= MAX_AVRO_DEPTH
    decreases MAX_AVRO_DEPTH + 1 - depth, 0
  {
    forall k | k in m :: AvroYields(env, values, depth + 1, m[k])
  }

  ghost predicate YieldsBranch(env: Env, branches: seq<Type>, depth: nat, m: map<string, Json>)
    requires depth <= MAX_AVRO_DEPTH
    decreases MAX_AVRO_DEPTH + 1 - depth, 0
  {
    exists b :: b in branches && b != NullType && m.Keys == {BranchName(b)} &&
                AvroYields(env, b, depth + 1, m[BranchName(b)])
  }

  ghost predicate YieldsFields(env: Env, fields: seq<Field>, depth: nat, m: map<string, Json>)
    requires depth <= MAX_AVRO_DEPTH
    decreases MAX_AVRO_DEPTH + 1 - depth, 0
  {
    forall f | f in fields :: f.name in m && AvroYields(env, f.typ, depth + 1, m[f.name])
  }

  // ----- Whatever is yielded conforms -----

  lemma {:induction false} Pow10Monotone(a: nat, b: nat)
    requires a <= b
    ensures 1 <= Pow10(a) <= Pow10(b)
    decreases b
  {
    if b > a { Pow10Monotone(a, b - 1); } else if b > 0 { Pow10Monotone(a - 1, b - 1); }
  }

  lemma {:induction false} LogicalConforms(l: Logical, v: Json)
    requires YieldsLogical(l, v)
    ensures LogicalShape(l, v)
  {
    if l.kind.Decimal? {
      Pow10Monotone(Digits(l), l.precision);
      Pow10Monotone(0, Digits(l) - 1);
    }
  }

  lemma {:induction false} EscapeConforms(env: Env, typ: Type)
    requires EscapeOf(typ).Some?
    ensures Conforms(env, typ, EscapeOf(typ).value)
  {
    if typ.Union? { NullConforms(env, typ.branches); }
  }

  lemma {:induction false} NullConforms(env: Env, branches: seq<Type>)
    requires NullType in branches
    ensures Conforms(env, Union(branches), Obj(map["null" := Null]))
  {
    var v := Obj(map["null" := Null]);
    var b :| 0 <= b < |branches| && branches[b] == NullType;
    assert v.fields.Keys == {BranchName(branches[b])};
  }

  lemma {:induction false} BranchConforms(env: Env, branches: seq<Type>, b: Type, v: Json)
    requires b in branches && v.Obj? && v.fields.Keys == {BranchName(b)} && Conforms(env, b, v.fields[BranchName(b)])
    ensures Conforms(env, Union(branches), v)
  {
    var i :| 0 <= i < |branches| && branches[i] == b;
    assert v.fields.Keys == {BranchName(branches[i])};
  }

  /** Every value yielded has the conventional shape of its type. */
  lemma {:induction false} YieldsConform(env: Env, typ: Type, depth: nat, v: Json)
    requires depth <= MAX_AVRO_DEPTH + 1 && AvroYields(env, typ, depth, v)
    ensures Conforms(env, typ, v)
    decreases MAX_AVRO_DEPTH + 1 - depth, 1
  {
    if depth > MAX_AVRO_DEPTH {
      EscapeConforms(env, typ);
    } else {
      match typ
      case Primitive(k, Some(l)) => LogicalConforms(l, v);
      case Array(items) =>
        forall i | 0 <= i < |v.items| ensures Conforms(env, items, v.items[i]) {
          YieldsConform(env, items, depth + 1, v.items[i]);
        }
      case Map(values) =>
        forall k | k in v.fields ensures Conforms(env, values, v.fields[k]) {
          YieldsConform(env, values, depth + 1, v.fields[k]);
        }
      case Union(branches) =>
        if NullType in branches && v.fields == map["null" := Null] {
          NullConforms(env, branches);
        } else {
          YieldedBranchConforms(env, branches, depth, v);
        }
      case Named(full) => NamedConforms(env, full, depth, v);
      case _ =>
    }
  }

  lemma {:induction false} YieldedBranchConforms(env: Env, branches: seq<Type>, depth: nat, v: Json)
    requires depth <= MAX_AVRO_DEPTH && v.Obj? && YieldsBranch(env, branches, depth, v.fields)
    ensures Conforms(env, Union(branches), v)
    decreases MAX_AVRO_DEPTH + 1 - depth, 0
  {
    var b :| b in branches && b != NullType && v.fields.Keys == {BranchName(b)} &&
             AvroYields(env, b, depth + 1, v.fields[BranchName(b)]);
    YieldsConform(env, b, depth + 1, v.fields[BranchName(b)]);
    BranchConforms(env, branches, b, v);
  }

  lemma {:induction false} NamedConforms(env: Env, full: string, depth: nat, v: Json)
    requires depth <= MAX_AVRO_DEPTH && AvroYields(env, Named(full), depth, v)
    ensures Conforms(env, Named(full), v)
    decreases MAX_AVRO_DEPTH + 1 - depth, 0
  {
    match env[full]
    case Record(fields) =>
      forall f | f in fields ensures Conforms(env, f.typ, v.fields[f.name]) {
        YieldsConform(env, f.typ, depth + 1, v.fields[f.name]);
      }
    case Fixed(_, Some(l)) => LogicalConforms(l, v);
    case _ =>
  }
}
