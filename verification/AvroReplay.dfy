/** What one stream of draws makes of an Avro type (internal/avro/generate.go): Generator.value as a
    function of the stream. The methods of module AvroGenerator compute it; what all streams together
    make is the relation AvroYields. */
module AvroReplay {
  import opened JsonValues
  import opened Draws
  import opened Streams
  import opened KeyPaths
  import opened AvroModel
  import opened AvroGeneration

  // ----- Leaves -----

  function RunBytes(n: nat, st: Stream, pos: nat): (b: seq<nat>)
    ensures |b| == n && AreBytes(b)
  {
    if n == 0 then [] else RunBytes(n - 1, st, pos) + [st.Pick(pos + n - 1, 256)]
  }

  function RunKind(k: Kind, st: Stream, pos: nat): Run<Json> {
    match k
    case KBoolean => Run(Some(Bool(st.Chance(pos, 50))), pos + 1)
    case KInt => Run(Some(Native(Int32(IntOf(st.Word(pos), 0, 999)))), pos + 1)
    case KLong => Run(Some(Native(Int64(IntOf(st.Word(pos), 0, 999)))), pos + 1)
    case KFloat => Run(Some(Native(Float32(FloatOf(st.Word(pos), 0.0, 1000.0)))), pos + 1)
    case KDouble => Run(Some(Native(Float64(FloatOf(st.Word(pos), 0.0, 1000.0)))), pos + 1)
    case KBytes =>
      IntInRange(st.Word(pos), 4, 8);
      var n := IntOf(st.Word(pos), 4, 8);
      Run(Some(Native(Bytes(RunBytes(n, st, pos + 1)))), pos + 1 + n)
    case KString => Run(Some(Str(st.texts(pos))), pos + 1)
  }

  /** A first digit 1 to 9, then any digits. */
  function RunMantissa(digits: nat, st: Stream, pos: nat): (m: nat)
    requires digits >= 1
    ensures Pow10(digits - 1) <= m < Pow10(digits)
  {
    if digits == 1 then 1 + st.Pick(pos, 9) else RunMantissa(digits - 1, st, pos) * 10 + st.Pick(pos + digits - 1, 10)
  }

  function RunLogical(l: Logical, st: Stream, pos: nat): Run<Json> {
    match l.kind
    case Uuid => Run(Some(Str(st.texts(pos))), pos + 1)
    case TimeMillis => Run(Some(Native(Duration(IntOf(st.Word(pos), 0, 86399999) * 1000000))), pos + 1)
    case TimeMicros => Run(Some(Native(Duration(IntOf(st.Word(pos), 0, 86399999999) * 1000))), pos + 1)
    case Decimal =>
      if l.precision < 1 then Run(None, pos)
      else Run(Some(Native(Rat(RunMantissa(Digits(l), st, pos), Pow10(l.scale)))), pos + Digits(l))
    case _ => Run(Some(Native(Instant(st.Word(pos)))), pos + 1)
  }

  function RunPrimitive(k: Kind, logical: Option<Logical>, st: Stream, pos: nat): Run<Json> {
    match logical
    case Some(l) => RunLogical(l, st, pos)
    case None => RunKind(k, st, pos)
  }

  function RunFixed(size: nat, logical: Option<Logical>, st: Stream, pos: nat): Run<Json> {
    match logical
    case Some(l) => RunLogical(l, st, pos)
    case None => Run(Some(Native(FixedBytes(RunBytes(size, st, pos)))), pos + size)
  }

  // ----- Types -----

  /** How many items or entries. */
  function CountAt(st: Stream, pos: nat, most: nat): (n: nat)
    requires 1 < most < 100
    ensures 1 <= n <= most
  {
    IntInRange(st.Word(pos), 1, most);
    IntOf(st.Word(pos), 1, most)
  }

  /** As many times one type. */
  function Times(typ: Type, n: nat): seq<Type> { seq(n, i => typ) }

  /** The values under the keys, in order. */
  function Keyed(keys: seq<string>, vals: seq<Json>): map<string, Json>
    requires |keys| == |vals|
  {
    if keys == [] then map[] else Keyed(keys[..|keys| - 1], vals[..|keys| - 1])[keys[|keys| - 1] := vals[|keys| - 1]]
  }

  ghost function FieldNames(fields: seq<Field>): (names: seq<string>)
    ensures |names| == |fields|
  {
    seq(|fields|, i requires 0 <= i < |fields| => fields[i].name)
  }

  ghost function RunType(env: Env, typ: Type, depth: nat, st: Stream, pos: nat): Run<Json>
    requires depth <= MAX_AVRO_DEPTH + 1
    decreases MAX_AVRO_DEPTH + 1 - depth, 0, 1
  {
    if depth > MAX_AVRO_DEPTH then Run(EscapeOf(typ), pos)
    else match typ
      case NullType => Run(Some(Null), pos)
      case Primitive(k, l) => RunPrimitive(k, l, st, pos)
      case Array(items) =>
        var n := CountAt(st, pos, 5);
        AsList(RunTypes(env, Times(items, n), n, depth + 1, st, pos + 1))
      case Map(values) =>
        var n := CountAt(st, pos, 4);
        AsObject(MapKeys(n), RunTypes(env, Times(values, n), n, depth + 1, st, pos + 1))
      case Union(branches) =>
        if NullType !in branches then RunBranch(env, NonNull(branches), depth, st, pos)
        else if st.Chance(pos, 30) then Run(Some(Obj(map["null" := Null])), pos + 1)
        else RunBranch(env, NonNull(branches), depth, st, pos + 1)
      case Named(full) => if full !in env then Run(None, pos) else match env[full] {
        case Record(fields) =>
          AsObject(FieldNames(fields), RunTypes(env, TypesOf(fields), |fields|, depth + 1, st, pos))
        case Enum(symbols) =>
          if symbols == [] then Run(None, pos) else Run(Some(Str(symbols[st.Pick(pos, |symbols|)])), pos + 1)
        case Fixed(size, l) => RunFixed(size, l, st, pos)
      }
  }

  /** One of the branches; the source panics at none. */
  ghost function RunBranch(env: Env, values: seq<Type>, depth: nat, st: Stream, pos: nat): Run<Json>
    requires depth <= MAX_AVRO_DEPTH
    decreases MAX_AVRO_DEPTH + 1 - depth, 0, 0
  {
    if values == [] then Run(None, pos) else
      var b := values[st.Pick(pos, |values|)];
      AsBranch(b, RunType(env, b, depth + 1, st, pos + 1))
  }

  /** One value of each of the first n types, in order. */
  ghost function RunTypes(env: Env, types: seq<Type>, n: nat, depth: nat, st: Stream, pos: nat): (r: Run<seq<Json>>)
    requires depth <= MAX_AVRO_DEPTH + 1 && n <= |types|
    ensures r.made.Some? ==> |r.made.value| == n
    decreases MAX_AVRO_DEPTH + 1 - depth, 1, n
  {
    if n == 0 then Run(Some([]), pos) else
      var before := RunTypes(env, types, n - 1, depth, st, pos);
      if before.made.None? then before else
        var last := RunType(env, types[n - 1], depth, st, before.pos);
        Run(if last.made.None? then None else Some(before.made.value + [last.made.value]), last.pos)
  }

  function AsList(r: Run<seq<Json>>): Run<Json> { Run(if r.made.None? then None else Some(Arr(r.made.value)), r.pos) }

  function AsObject(keys: seq<string>, r: Run<seq<Json>>): Run<Json>
    requires r.made.Some? ==> |r.made.value| == |keys|
  {
    Run(if r.made.None? then None else Some(Obj(Keyed(keys, r.made.value))), r.pos)
  }

  function AsBranch(b: Type, r: Run<Json>): Run<Json> {
    Run(if r.made.None? then None else Some(Obj(map[BranchName(b) := r.made.value])), r.pos)
  }

  // ----- Whatever a stream makes is yielded -----

  lemma {:induction false} KeyedAt(keys: seq<string>, vals: seq<Json>)
    requires |keys| == |vals| && forall i, j | 0 <= i < j < |keys| :: keys[i] != keys[j]
    ensures forall k :: k in Keyed(keys, vals) <==> k in keys
    ensures forall i | 0 <= i < |keys| :: keys[i] in Keyed(keys, vals) && Keyed(keys, vals)[keys[i]] == vals[i]
  {
    if keys != [] {
      var init := keys[..|keys| - 1];
      KeyedAt(init, vals[..|keys| - 1]);
      assert keys == init + [keys[|keys| - 1]];
      forall i | 0 <= i < |keys| ensures keys[i] in Keyed(keys, vals) && Keyed(keys, vals)[keys[i]] == vals[i] {
        if i < |init| { assert init[i] == keys[i]; }
      }
    }
  }

  /** The keys k0, k1, ... a map is filled with never repeat. */
  lemma {:induction false} MapKeysDistinct(i: nat, j: nat)
    requires i != j
    ensures MapKey(i) != MapKey(j)
  {
    ItoaDecimal(i);
    ItoaDecimal(j);
    assert MapKey(j)[1..] == Itoa(j) && MapKey(i)[1..] == Itoa(i);
  }

  lemma {:induction false} LogicalYielded(l: Logical, st: Stream, pos: nat)
    ensures var r := RunLogical(l, st, pos).made; if r.Some? then YieldsLogical(l, r.value) else !Drawable(Some(l))
  {
    IntInRange(st.Word(pos), 0, 86399999);
    IntInRange(st.Word(pos), 0, 86399999999);
  }

  lemma {:induction false} KindYielded(k: Kind, st: Stream, pos: nat)
    ensures RunKind(k, st, pos).made.Some? && YieldsKind(k, RunKind(k, st, pos).made.value)
  {
    IntInRange(st.Word(pos), 0, 999);
    IntInRange(st.Word(pos), 4, 8);
    assert YieldsFloat(FloatOf(st.Word(pos), 0.0, 1000.0));
  }

  /** Each of the first n values is yielded by its type. */
  ghost predicate YieldsEach(env: Env, types: seq<Type>, n: nat, depth: nat, vals: seq<Json>)
    requires depth <= MAX_AVRO_DEPTH + 1 && n <= |types|
  {
    |vals| == n && forall i | 0 <= i < n :: AvroYields(env, types[i], depth, vals[i])
  }

  /** What a stream makes of a type is one of its values, and where it makes none the generator does
      not answer. */
  lemma {:induction false} RunIsYielded(env: Env, typ: Type, depth: nat, st: Stream, pos: nat)
    requires WellFormed(env) && depth <= MAX_AVRO_DEPTH + 1
    ensures IsYielded(env, typ, depth, RunType(env, typ, depth, st, pos))
    decreases MAX_AVRO_DEPTH + 1 - depth, 0, 2
  {
    if depth <= MAX_AVRO_DEPTH {
      match typ
      case NullType =>
      case Primitive(k, Some(l)) => LogicalYielded(l, st, pos);
      case Primitive(k, None) => KindYielded(k, st, pos);
      case Array(items) =>
        var n := CountAt(st, pos, 5);
        EachIsYielded(env, Times(items, n), n, depth + 1, st, pos + 1);
        ArrayIsYielded(env, items, n, depth, RunTypes(env, Times(items, n), n, depth + 1, st, pos + 1));
      case Map(values) =>
        var n := CountAt(st, pos, 4);
        EachIsYielded(env, Times(values, n), n, depth + 1, st, pos + 1);
        MapIsYielded(env, values, n, depth, RunTypes(env, Times(values, n), n, depth + 1, st, pos + 1));
      case Union(branches) =>
        BranchIsYielded(env, branches, depth, st, if NullType in branches then pos + 1 else pos);
      case Named(full) => if full in env { NamedIsYielded(env, full, depth, st, pos); }
    }
  }

  /** What was made is yielded, and where nothing was the type is not answered. */
  ghost predicate IsYielded(env: Env, typ: Type, depth: nat, run: Run<Json>)
    requires depth <= MAX_AVRO_DEPTH + 1
  {
    if run.made.Some? then AvroYields(env, typ, depth, run.made.value) else !Answerable(env, typ, depth)
  }

  ghost predicate EachYielded(env: Env, types: seq<Type>, n: nat, depth: nat, run: Run<seq<Json>>)
    requires depth <= MAX_AVRO_DEPTH + 1 && n <= |types|
  {
    if run.made.Some? then YieldsEach(env, types, n, depth, run.made.value) else !AnswerableAll(env, types, depth)
  }

  lemma {:induction false} ArrayIsYielded(env: Env, items: Type, n: nat, depth: nat, run: Run<seq<Json>>)
    requires depth <= MAX_AVRO_DEPTH && 1 <= n <= 5 && EachYielded(env, Times(items, n), n, depth + 1, run)
    ensures IsYielded(env, Array(items), depth, AsList(run))
  {
    if run.made.Some? {
      ArrayYielded(env, items, n, depth, run.made.value);
    } else {
      NotAllTimes(env, items, n, depth + 1);
    }
  }

  lemma {:induction false} NotAllTimes(env: Env, typ: Type, n: nat, depth: nat)
    requires depth <= MAX_AVRO_DEPTH + 1 && !AnswerableAll(env, Times(typ, n), depth)
    ensures !Answerable(env, typ, depth)
  {
  }

  lemma {:induction false} ArrayYielded(env: Env, items: Type, n: nat, depth: nat, vals: seq<Json>)
    requires depth <= MAX_AVRO_DEPTH && YieldsEach(env, Times(items, n), n, depth + 1, vals)
    ensures YieldsItems(env, items, depth, vals)
  {
    forall i | 0 <= i < n ensures AvroYields(env, items, depth + 1, vals[i]) { assert Times(items, n)[i] == items; }
  }

  lemma {:induction false} MapIsYielded(env: Env, values: Type, n: nat, depth: nat, run: Run<seq<Json>>)
    requires depth <= MAX_AVRO_DEPTH && 1 <= n <= 4 && EachYielded(env, Times(values, n), n, depth + 1, run)
    requires run.made.Some? ==> |run.made.value| == n
    ensures IsYielded(env, Map(values), depth, AsObject(MapKeys(n), run))
  {
    if run.made.Some? {
      MapYielded(env, values, n, depth, run.made.value);
    } else {
      NotAllTimes(env, values, n, depth + 1);
    }
  }

  lemma {:induction false} BranchIsYielded(env: Env, branches: seq<Type>, depth: nat, st: Stream, pos: nat)
    requires WellFormed(env) && depth <= MAX_AVRO_DEPTH
    ensures var r := RunBranch(env, NonNull(branches), depth, st, pos).made;
            if r.Some? then r.value.Obj? && YieldsBranch(env, branches, depth, r.value.fields)
            else NonNull(branches) == [] || !AnswerableAll(env, NonNull(branches), depth + 1)
    decreases MAX_AVRO_DEPTH + 1 - depth, 0, 0
  {
    var values := NonNull(branches);
    if values != [] {
      var b := values[st.Pick(pos, |values|)];
      NonNullAre(branches, b);
      RunIsYielded(env, b, depth + 1, st, pos + 1);
      var r := RunType(env, b, depth + 1, st, pos + 1).made;
      if r.Some? { BranchYielded(env, branches, b, depth, r.value); }
    }
  }

  lemma {:induction false} BranchYielded(env: Env, branches: seq<Type>, b: Type, depth: nat, v: Json)
    requires depth <= MAX_AVRO_DEPTH && b in branches && b != NullType && AvroYields(env, b, depth + 1, v)
    ensures YieldsBranch(env, branches, depth, map[BranchName(b) := v])
  {
    var m := map[BranchName(b) := v];
    assert m.Keys == {BranchName(b)} && m[BranchName(b)] == v;
  }

  lemma {:induction false} NamedIsYielded(env: Env, full: string, depth: nat, st: Stream, pos: nat)
    requires WellFormed(env) && depth <= MAX_AVRO_DEPTH && full in env
    ensures IsYielded(env, Named(full), depth, RunType(env, Named(full), depth, st, pos))
    decreases MAX_AVRO_DEPTH + 1 - depth, 0, 0
  {
    match env[full]
    case Record(fields) =>
      EachIsYielded(env, TypesOf(fields), |fields|, depth + 1, st, pos);
      var run := RunTypes(env, TypesOf(fields), |fields|, depth + 1, st, pos);
      if run.made.Some? { RecordYielded(env, full, depth, run.made.value); }
    case Fixed(_, Some(l)) => LogicalYielded(l, st, pos);
    case _ =>
  }

  lemma {:induction false} EachIsYielded(env: Env, types: seq<Type>, n: nat, depth: nat, st: Stream, pos: nat)
    requires WellFormed(env) && depth <= MAX_AVRO_DEPTH + 1 && n <= |types|
    ensures EachYielded(env, types, n, depth, RunTypes(env, types, n, depth, st, pos))
    decreases MAX_AVRO_DEPTH + 1 - depth, 1, n
  {
    if n > 0 {
      EachIsYielded(env, types, n - 1, depth, st, pos);
      var before := RunTypes(env, types, n - 1, depth, st, pos);
      if before.made.Some? {
        RunIsYielded(env, types[n - 1], depth, st, before.pos);
        OneMoreYielded(env, types, n, depth, before.made.value, RunType(env, types[n - 1], depth, st, before.pos).made);
      }
    }
  }

  lemma {:induction false} OneMoreYielded(env: Env, types: seq<Type>, n: nat, depth: nat, init: seq<Json>,
                                          last: Option<Json>)
    requires depth <= MAX_AVRO_DEPTH + 1 && 0 < n <= |types| && YieldsEach(env, types, n - 1, depth, init)
    requires if last.Some? then AvroYields(env, types[n - 1], depth, last.value)
             else !Answerable(env, types[n - 1], depth)
    ensures if last.Some? then YieldsEach(env, types, n, depth, init + [last.value])
            else !AnswerableAll(env, types, depth)
  {
  }

  lemma {:induction false} MapYielded(env: Env, values: Type, n: nat, depth: nat, vals: seq<Json>)
    requires depth <= MAX_AVRO_DEPTH && 1 <= n <= 4 && YieldsEach(env, Times(values, n), n, depth + 1, vals)
    ensures var m := Keyed(MapKeys(n), vals); MapSized(m) && YieldsEntries(env, values, depth, m)
  {
    var keys := MapKeys(n);
    forall i, j | 0 <= i < j < n ensures keys[i] != keys[j] { MapKeysDistinct(i, j); }
    KeyedAt(keys, vals);
    var m := Keyed(keys, vals);
    forall k | k in m ensures AvroYields(env, values, depth + 1, m[k]) {
      var i :| 0 <= i < n && keys[i] == k;
      assert m[k] == vals[i] && Times(values, n)[i] == values;
    }
    assert HasMapKeys(m, n) && MapSized(m);
  }

  lemma {:induction false} RecordYielded(env: Env, full: string, depth: nat, vals: seq<Json>)
    requires WellFormed(env) && full in env && env[full].Record? && depth <= MAX_AVRO_DEPTH
    requires YieldsEach(env, TypesOf(env[full].fields), |env[full].fields|, depth + 1, vals)
    ensures var fields := env[full].fields; var m := Keyed(FieldNames(fields), vals);
      m.Keys == NamesIn(fields) && YieldsFields(env, fields, depth, m)
  {
    var fields := env[full].fields;
    FieldsKeyed(fields, vals);
    var m := Keyed(FieldNames(fields), vals);
    forall f | f in fields ensures f.name in m && AvroYields(env, f.typ, depth + 1, m[f.name]) {
      var i :| 0 <= i < |fields| && fields[i] == f;
      assert TypesOf(fields)[i] == f.typ && AvroYields(env, TypesOf(fields)[i], depth + 1, vals[i]);
    }
  }

  lemma {:induction false} FieldsKeyed(fields: seq<Field>, vals: seq<Json>)
    requires DistinctNames(fields) && |vals| == |fields|
    ensures var m := Keyed(FieldNames(fields), vals);
      m.Keys == NamesIn(fields) && forall i | 0 <= i < |fields| :: fields[i].name in m && m[fields[i].name] == vals[i]
  {
    var names := FieldNames(fields);
    KeyedAt(names, vals);
    var m := Keyed(names, vals);
    forall k ensures k in m <==> k in NamesIn(fields) {
      if k in m {
        var i :| 0 <= i < |fields| && names[i] == k;
        assert fields[i] in fields;
      }
      if k in NamesIn(fields) {
        var i :| 0 <= i < |fields| && fields[i].name == k;
        assert names[i] == k;
      }
    }
    forall i | 0 <= i < |fields| ensures fields[i].name in m && m[fields[i].name] == vals[i] {
      assert names[i] == fields[i].name;
    }
  }
}
