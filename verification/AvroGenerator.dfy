/** The Avro generator (internal/avro/generate.go): every value it returns, for any draws,
    has the conventional shape of its type. */
module AvroGenerator {
  import opened JsonValues
  import opened Draws
  import opened Streams
  import opened AvroModel
  import opened AvroGeneration
  import opened AvroReplay
  import opened Records

  /** A value laid out as t that conforms to the type. */
  ghost predicate Conforming(env: Env, typ: Type, r: Option<Val>, t: Tree)
    reads Objs(t)
  {
    r.Some? ==> Owns(r.value, t) && Proper(t) && Conforms(env, typ, View(t))
  }

  /** The value made, laid out as t, and the position left, are those of the run. */
  ghost predicate Computes(r: Option<Val>, t: Tree, pos: nat, run: Run<Json>)
    reads Objs(t)
  {
    if r.Some? then Owns(r.value, t) && Proper(t) && run == Run(Some(View(t)), pos) else run.made.None?
  }

  lemma {:induction false} ComputedConforms(env: Env, typ: Type, depth: nat, r: Option<Val>, t: Tree, pos: nat,
                                            run: Run<Json>)
    requires depth <= MAX_AVRO_DEPTH + 1 && Computes(r, t, pos, run) && IsYielded(env, typ, depth, run)
    ensures Conforming(env, typ, r, t) && (r.Some? ==> AvroYields(env, typ, depth, View(t)))
    ensures Answerable(env, typ, depth) ==> r.Some?
  {
    if r.Some? { YieldsConform(env, typ, depth, View(t)); }
  }

  class AvroGenerator {
    const synth: Synthesizer

    constructor (synth: Synthesizer)
      ensures this.synth == synth
    {
      this.synth := synth;
    }

    ghost function Source(): Stream { Stream(synth.words, synth.texts) }

    /** Value: one value of the type; none where generation stops with an error. */
    method Value(env: Env, typ: Type) returns (r: Option<Val>, ghost t: Tree)
      requires WellFormed(env)
      modifies synth
      ensures Conforming(env, typ, r, t) && fresh(Objs(t))
      ensures Answerable(env, typ, 0) ==> r.Some?
      ensures Computes(r, t, synth.pos, RunType(env, typ, 0, Source(), old(synth.pos)))
    {
      r, t := Node(env, typ, 0);
    }

    /** value: past the depth bound only a null branch or an empty container ends a cycle. */
    method Node(env: Env, typ: Type, depth: nat) returns (r: Option<Val>, ghost t: Tree)
      requires WellFormed(env) && depth <= MAX_AVRO_DEPTH + 1
      modifies synth
      ensures Conforming(env, typ, r, t) && fresh(Objs(t))
      ensures r.Some? ==> AvroYields(env, typ, depth, View(t))
      ensures Answerable(env, typ, depth) ==> r.Some?
      ensures depth > MAX_AVRO_DEPTH && r.Some? ==> Answerable(env, typ, depth)
      ensures Computes(r, t, synth.pos, RunType(env, typ, depth, Source(), old(synth.pos)))
      decreases MAX_AVRO_DEPTH + 1 - depth, 4
    {
      RunIsYielded(env, typ, depth, Source(), synth.pos);
      r, t := Dispatch(env, typ, depth);
      ComputedConforms(env, typ, depth, r, t, synth.pos, RunType(env, typ, depth, Source(), old(synth.pos)));
    }

    method Dispatch(env: Env, typ: Type, depth: nat) returns (r: Option<Val>, ghost t: Tree)
      requires WellFormed(env) && depth <= MAX_AVRO_DEPTH + 1
      modifies synth
      ensures fresh(Objs(t)) && Computes(r, t, synth.pos, RunType(env, typ, depth, Source(), old(synth.pos)))
      decreases MAX_AVRO_DEPTH + 1 - depth, 3
    {
      if depth > MAX_AVRO_DEPTH {
        r, t := Escape(typ);
        return;
      }
      match typ
      case NullType => r, t := Some(Scalar(Null)), TScalar(Null);
      case Primitive(k, l) => r, t := DrawPrimitive(k, l);
      case Array(items) => r, t := DrawArray(env, items, depth);
      case Map(values) => r, t := DrawMap(env, values, depth);
      case Union(branches) => r, t := DrawUnion(env, branches, depth);
      case Named(full) =>
        if full !in env { return None, TScalar(Null); }
        match env[full] {
          case Record(fields) => r, t := DrawRecord(env, full, fields, depth);
          case Enum(symbols) =>
            t := TScalar(Null);
            if |symbols| == 0 { return None, t; }
            var i := synth.Pick(|symbols|);
            r, t := Some(Scalar(Str(symbols[i]))), TScalar(Str(symbols[i]));
          case Fixed(size, l) => r, t := DrawFixed(size, l);
        }
    }

    method Escape(typ: Type) returns (r: Option<Val>, ghost t: Tree)
      ensures fresh(Objs(t)) && Computes(r, t, 0, Run(EscapeOf(typ), 0))
    {
      r, t := None, TScalar(Null);
      match typ
      case Union(branches) =>
        if NullType in branches { r, t := NullBranch(); }
      case Array(_) =>
        var v;
        v, t := NewList([], []);
        ListViewed(t, []);
        assert Views([]) == [];
        r := Some(v);
      case Map(_) =>
        var v;
        NoEntries();
        v, t := NewDict(map[], map[]);
        DictViewed(t, map[]);
        r := Some(v);
      case _ =>
    }

    method NullBranch() returns (r: Option<Val>, ghost t: Tree)
      ensures fresh(Objs(t)) && r.Some? && Owns(r.value, t) && Proper(t) && View(t) == Obj(map["null" := Null])
    {
      var v;
      v, t := Wrap(NullType, Scalar(Null), TScalar(Null));
      r := Some(v);
    }

    /** A union value: one entry, keyed by the name of the branch it is of. */
    method Wrap(b: Type, v: Val, ghost bt: Tree) returns (w: Val, ghost t: Tree)
      requires Owns(v, bt) && Proper(bt)
      ensures Owns(w, t) && Proper(t) && View(t) == Obj(map[BranchName(b) := View(bt)])
      ensures forall o | o in Objs(t) :: o in Objs(bt) || fresh(o)
    {
      var name := BranchName(b);
      ghost var ts := map[name := bt];
      assert EntrySet(ts) == Objs(bt) by {
        forall o | o in Objs(bt) ensures o in EntrySet(ts) { assert name in ts && o in Objs(ts[name]); }
      }
      w, t := NewDict(map[name := v], ts);
      DictViewed(t, ts);
      assert ViewsByName(ts) == map[name := View(bt)];
    }

    /** union: null at thirty in a hundred where it is a branch, and otherwise one of the others. */
    method DrawUnion(env: Env, branches: seq<Type>, depth: nat) returns (r: Option<Val>, ghost t: Tree)
      requires WellFormed(env) && depth <= MAX_AVRO_DEPTH
      modifies synth
      ensures Conforming(env, Union(branches), r, t) && fresh(Objs(t))
      ensures NonNull(branches) != [] && AnswerableAll(env, NonNull(branches), depth + 1) ==> r.Some?
      ensures Computes(r, t, synth.pos, RunType(env, Union(branches), depth, Source(), old(synth.pos)))
      decreases MAX_AVRO_DEPTH + 1 - depth, 2
    {
      RunIsYielded(env, Union(branches), depth, Source(), synth.pos);
      var values := NonNull(branches);
      var null_ := false;
      if NullType in branches { null_ := synth.Chance(30); }
      if null_ {
        r, t := NullBranch();
      } else {
        r, t := DrawBranch(env, values, depth);
      }
      ComputedConforms(env, Union(branches), depth, r, t, synth.pos,
                       RunType(env, Union(branches), depth, Source(), old(synth.pos)));
    }

    method DrawBranch(env: Env, values: seq<Type>, depth: nat) returns (r: Option<Val>, ghost t: Tree)
      requires WellFormed(env) && depth <= MAX_AVRO_DEPTH
      modifies synth
      ensures fresh(Objs(t)) && Computes(r, t, synth.pos, RunBranch(env, values, depth, Source(), old(synth.pos)))
      decreases MAX_AVRO_DEPTH + 1 - depth, 1
    {
      t := TScalar(Null);
      if |values| == 0 { return None, t; }
      var i := synth.Pick(|values|);
      r, t := BranchOf(env, values[i], depth);
    }

    method BranchOf(env: Env, b: Type, depth: nat) returns (r: Option<Val>, ghost t: Tree)
      requires WellFormed(env) && depth <= MAX_AVRO_DEPTH
      modifies synth
      ensures fresh(Objs(t))
      ensures Computes(r, t, synth.pos, AsBranch(b, RunType(env, b, depth + 1, Source(), old(synth.pos))))
      decreases MAX_AVRO_DEPTH + 1 - depth, 0
    {
      t := TScalar(Null);
      var v, bt := Dispatch(env, b, depth + 1);
      if v.None? { return None, t; }
      ObjsAllocated(bt);
      var w;
      w, t := Wrap(b, v.value, bt);
      r := Some(w);
    }

    method DrawArray(env: Env, items: Type, depth: nat) returns (r: Option<Val>, ghost t: Tree)
      requires WellFormed(env) && depth <= MAX_AVRO_DEPTH
      modifies synth
      ensures Conforming(env, Array(items), r, t) && fresh(Objs(t))
      ensures r.Some? ==> 1 <= |View(t).items| <= 5
      ensures Answerable(env, items, depth + 1) ==> r.Some?
      ensures Computes(r, t, synth.pos, RunType(env, Array(items), depth, Source(), old(synth.pos)))
      decreases MAX_AVRO_DEPTH + 1 - depth, 2
    {
      RunIsYielded(env, Array(items), depth, Source(), synth.pos);
      var count := synth.Int(1, 5);
      assert count == CountAt(Source(), old(synth.pos), 5);
      r, t := ListOf(env, items, count, depth);
      ComputedConforms(env, Array(items), depth, r, t, synth.pos,
                       RunType(env, Array(items), depth, Source(), old(synth.pos)));
    }

    method ListOf(env: Env, items: Type, count: nat, depth: nat) returns (r: Option<Val>, ghost t: Tree)
      requires WellFormed(env) && depth <= MAX_AVRO_DEPTH
      modifies synth
      ensures fresh(Objs(t))
      ensures Computes(r, t, synth.pos,
                       AsList(RunTypes(env, Times(items, count), count, depth + 1, Source(), old(synth.pos))))
      decreases MAX_AVRO_DEPTH + 1 - depth, 1
    {
      t := TScalar(Null);
      var ok, result, ts := DrawItems(env, items, count, depth);
      if !ok { return None, t; }
      KidsAllocated(ts);
      var v;
      v, t := NewList(result, ts);
      ListViewed(t, ts);
      r := Some(v);
    }

    method DrawItems(env: Env, items: Type, count: nat, depth: nat)
      returns (ok: bool, result: seq<Val>, ghost ts: seq<Tree>)
      requires WellFormed(env) && depth <= MAX_AVRO_DEPTH
      modifies synth
      ensures ok ==> Row(result, ts) && RowApart(ts) && fresh(KidObjs(ts))
      ensures Ran(env, Times(items, count), count, depth + 1, Source(), old(synth.pos), ok, Views(ts), synth.pos)
      decreases MAX_AVRO_DEPTH + 1 - depth, 0, 1
    {
      ok, result, ts := true, [], [];
      ghost var types := Times(items, count);
      assert Views([]) == [];
      for i := 0 to count
        invariant Row(result, ts) && RowApart(ts) && fresh(KidObjs(ts))
        invariant Ran(env, types, i, depth + 1, Source(), old(synth.pos), true, Views(ts), synth.pos)
      {
        ok, result, ts := DrawItem(env, types, items, result, ts, i, depth, old(synth.pos));
        if !ok {
          StopsThere(env, types, count, i + 1, depth + 1, Source(), old(synth.pos), Views(ts), synth.pos);
          return;
        }
      }
    }

    method DrawItem(env: Env, ghost types: seq<Type>, items: Type, result: seq<Val>, ghost ts: seq<Tree>, ghost i: nat,
                    depth: nat, ghost start: nat)
      returns (ok: bool, result': seq<Val>, ghost ts': seq<Tree>)
      requires WellFormed(env) && depth <= MAX_AVRO_DEPTH && i < |types| && types[i] == items
      requires Row(result, ts) && RowApart(ts) && synth !in KidObjs(ts)
      requires Ran(env, types, i, depth + 1, Source(), start, true, Views(ts), synth.pos)
      modifies synth
      ensures ok ==> Row(result', ts') && RowApart(ts')
      ensures ok ==> forall o | o in KidObjs(ts') :: o in KidObjs(ts) || fresh(o)
      ensures Ran(env, types, i + 1, depth + 1, Source(), start, ok, Views(ts'), synth.pos)
      decreases MAX_AVRO_DEPTH + 1 - depth, 0, 0
    {
      KidsAllocated(ts);
      ghost var here := synth.pos;
      var item, it := Dispatch(env, items, depth + 1);
      OneMoreRun(env, types, i, depth + 1, Source(), start, Views(ts), here, item, it, synth.pos);
      if item.None? { return false, result, ts; }
      RowSnoc(result, ts, item.value, it);
      ViewsSnoc(ts, it);
      ok, result', ts' := true, result + [item.value], ts + [it];
    }

    method DrawMap(env: Env, values: Type, depth: nat) returns (r: Option<Val>, ghost t: Tree)
      requires WellFormed(env) && depth <= MAX_AVRO_DEPTH
      modifies synth
      ensures Conforming(env, Map(values), r, t) && fresh(Objs(t))
      ensures r.Some? ==> MapSized(View(t).fields)
      ensures Answerable(env, values, depth + 1) ==> r.Some?
      ensures Computes(r, t, synth.pos, RunType(env, Map(values), depth, Source(), old(synth.pos)))
      decreases MAX_AVRO_DEPTH + 1 - depth, 2
    {
      RunIsYielded(env, Map(values), depth, Source(), synth.pos);
      var count := synth.Int(1, 4);
      assert count == CountAt(Source(), old(synth.pos), 4);
      r, t := MapOf(env, values, count, depth);
      ComputedConforms(env, Map(values), depth, r, t, synth.pos,
                       RunType(env, Map(values), depth, Source(), old(synth.pos)));
    }

    /** The entries of a map, under the keys k0, k1, ... */
    method MapOf(env: Env, values: Type, count: nat, depth: nat) returns (r: Option<Val>, ghost t: Tree)
      requires WellFormed(env) && depth <= MAX_AVRO_DEPTH
      modifies synth
      ensures fresh(Objs(t))
      ensures Computes(r, t, synth.pos, AsObject(MapKeys(count),
                RunTypes(env, Times(values, count), count, depth + 1, Source(), old(synth.pos))))
      decreases MAX_AVRO_DEPTH + 1 - depth, 1
    {
      var ok, result, ts, vals := DrawEntries(env, values, count, depth);
      if ok { r, t := Dict(MapKeys(count), result, ts, vals); } else { r, t := None, TScalar(Null); }
    }

    method DrawEntries(env: Env, values: Type, count: nat, depth: nat)
      returns (ok: bool, result: map<string, Val>, ghost ts: map<string, Tree>, ghost vals: seq<Json>)
      requires WellFormed(env) && depth <= MAX_AVRO_DEPTH
      modifies synth
      ensures ok ==> fresh(EntrySet(ts)) && EntriesSoFar(MapKeys(count), result, ts, vals, count)
      ensures Ran(env, Times(values, count), count, depth + 1, Source(), old(synth.pos), ok, vals, synth.pos)
      decreases MAX_AVRO_DEPTH + 1 - depth, 0, 1
    {
      ok, result, ts, vals := true, map[], map[], [];
      ghost var types, keys := Times(values, count), MapKeys(count);
      MapKeysApart(count);
      NoneEntered(keys);
      for i := 0 to count
        invariant fresh(EntrySet(ts)) && EntriesSoFar(keys, result, ts, vals, i)
        invariant Ran(env, types, i, depth + 1, Source(), old(synth.pos), true, vals, synth.pos)
      {
        ok, result, ts, vals := DrawEntry(env, types, keys, values, MapKey(i), result, ts, vals, i, depth,
                                          old(synth.pos));
        if !ok {
          StopsThere(env, types, count, i + 1, depth + 1, Source(), old(synth.pos), vals, synth.pos);
          return;
        }
      }
    }

    /** One entry more, of a map or of a record. */
    method DrawEntry(env: Env, ghost types: seq<Type>, ghost keys: seq<string>, typ: Type, key: string,
                     result: map<string, Val>, ghost ts: map<string, Tree>, ghost vals: seq<Json>, ghost i: nat,
                     depth: nat, ghost start: nat)
      returns (ok: bool, result': map<string, Val>, ghost ts': map<string, Tree>, ghost vals': seq<Json>)
      requires WellFormed(env) && depth <= MAX_AVRO_DEPTH && synth !in EntrySet(ts)
      requires i < |types| == |keys| && types[i] == typ && keys[i] == key
      requires EntriesSoFar(keys, result, ts, vals, i)
      requires Ran(env, types, i, depth + 1, Source(), start, true, vals, synth.pos)
      modifies synth
      ensures ok ==> EntriesSoFar(keys, result', ts', vals', i + 1)
      ensures ok ==> forall o | o in EntrySet(ts') :: o in EntrySet(ts) || fresh(o)
      ensures Ran(env, types, i + 1, depth + 1, Source(), start, ok, vals', synth.pos)
      decreases MAX_AVRO_DEPTH + 1 - depth, 0, 0
    {
      EntriesAllocated(ts);
      ghost var here := synth.pos;
      var v, vt := Dispatch(env, typ, depth + 1);
      OneMoreRun(env, types, i, depth + 1, Source(), start, vals, here, v, vt, synth.pos);
      if v.None? { return false, result, ts, vals; }
      OneMoreEntry(keys, result, ts, vals, i, v.value, vt);
      ok, result', ts', vals' := true, result[key := v.value], ts[key := vt], vals + [View(vt)];
    }

    /** record: every field, in order; all are mandatory. */
    method DrawRecord(env: Env, full: string, fields: seq<Field>, depth: nat) returns (r: Option<Val>, ghost t: Tree)
      requires WellFormed(env) && depth <= MAX_AVRO_DEPTH && full in env && env[full] == Record(fields)
      modifies synth
      ensures Conforming(env, Named(full), r, t) && fresh(Objs(t))
      ensures AnswerableAll(env, TypesOf(fields), depth + 1) ==> r.Some?
      ensures Computes(r, t, synth.pos, RunType(env, Named(full), depth, Source(), old(synth.pos)))
      decreases MAX_AVRO_DEPTH + 1 - depth, 2
    {
      RunIsYielded(env, Named(full), depth, Source(), synth.pos);
      r, t := RecordOf(env, fields, depth);
      ComputedConforms(env, Named(full), depth, r, t, synth.pos,
                       RunType(env, Named(full), depth, Source(), old(synth.pos)));
    }

    method RecordOf(env: Env, fields: seq<Field>, depth: nat) returns (r: Option<Val>, ghost t: Tree)
      requires WellFormed(env) && depth <= MAX_AVRO_DEPTH && DistinctNames(fields)
      modifies synth
      ensures fresh(Objs(t))
      ensures Computes(r, t, synth.pos, AsObject(FieldNames(fields),
                RunTypes(env, TypesOf(fields), |fields|, depth + 1, Source(), old(synth.pos))))
      decreases MAX_AVRO_DEPTH + 1 - depth, 1
    {
      var ok, result, ts, vals := DrawFields(env, fields, depth);
      if ok { r, t := Dict(FieldNames(fields), result, ts, vals); } else { r, t := None, TScalar(Null); }
    }

    method DrawFields(env: Env, fields: seq<Field>, depth: nat)
      returns (ok: bool, result: map<string, Val>, ghost ts: map<string, Tree>, ghost vals: seq<Json>)
      requires WellFormed(env) && depth <= MAX_AVRO_DEPTH && DistinctNames(fields)
      modifies synth
      ensures ok ==> fresh(EntrySet(ts)) && EntriesSoFar(FieldNames(fields), result, ts, vals, |fields|)
      ensures Ran(env, TypesOf(fields), |fields|, depth + 1, Source(), old(synth.pos), ok, vals, synth.pos)
      decreases MAX_AVRO_DEPTH + 1 - depth, 0, 1
    {
      ok, result, ts, vals := true, map[], map[], [];
      ghost var types, keys := TypesOf(fields), FieldNames(fields);
      NoneEntered(keys);
      for i := 0 to |fields|
        invariant fresh(EntrySet(ts)) && EntriesSoFar(keys, result, ts, vals, i)
        invariant Ran(env, types, i, depth + 1, Source(), old(synth.pos), true, vals, synth.pos)
      {
        ok, result, ts, vals := DrawEntry(env, types, keys, fields[i].typ, fields[i].name, result, ts, vals, i, depth,
                                          old(synth.pos));
        if !ok {
          StopsThere(env, types, |fields|, i + 1, depth + 1, Source(), old(synth.pos), vals, synth.pos);
          return;
        }
      }
    }

    method Dict(ghost keys: seq<string>, result: map<string, Val>, ghost ts: map<string, Tree>, ghost vals: seq<Json>)
      returns (r: Option<Val>, ghost t: Tree)
      requires EntriesSoFar(keys, result, ts, vals, |keys|)
      ensures r.Some? && Owns(r.value, t) && Proper(t) && |vals| == |keys| && View(t) == Obj(Keyed(keys, vals))
      ensures forall o | o in Objs(t) :: o in EntrySet(ts) || fresh(o)
    {
      EntriesAllocated(ts);
      var w;
      w, t := NewDict(result, ts);
      DictViewed(t, ts);
      assert keys[..|keys|] == keys;
      r := Some(w);
    }

    method DrawFixed(size: nat, logical: Option<Logical>) returns (r: Option<Val>, ghost t: Tree)
      modifies synth
      ensures fresh(Objs(t)) && (Drawable(logical) <==> r.Some?)
      ensures r.Some? ==> match logical
                          case Some(l) => LogicalShape(l, View(t))
                          case None => View(t).Native? && View(t).go.FixedBytes? && |View(t).go.bytes| == size
      ensures Computes(r, t, synth.pos, RunFixed(size, logical, Source(), old(synth.pos)))
    {
      if logical.Some? {
        r, t := DrawLogical(logical.value);
        return;
      }
      var b := DrawBytes(size);
      var j := Native(FixedBytes(b));
      r, t := Some(Scalar(j)), TScalar(j);
    }

    method DrawBytes(n: nat) returns (b: seq<nat>)
      modifies synth
      ensures b == RunBytes(n, Source(), old(synth.pos)) && synth.pos == old(synth.pos) + n
    {
      b := [];
      for i := 0 to n
        invariant b == RunBytes(i, Source(), old(synth.pos)) && synth.pos == old(synth.pos) + i
      {
        var x := synth.Pick(256);
        b := b + [x];
      }
    }

    method DrawPrimitive(k: Kind, logical: Option<Logical>) returns (r: Option<Val>, ghost t: Tree)
      modifies synth
      ensures fresh(Objs(t)) && (Drawable(logical) <==> r.Some?)
      ensures r.Some? ==> PrimitiveShape(k, logical, View(t))
      ensures Computes(r, t, synth.pos, RunPrimitive(k, logical, Source(), old(synth.pos)))
    {
      if logical.Some? {
        r, t := DrawLogical(logical.value);
        return;
      }
      var j := DrawKind(k);
      r, t := Some(Scalar(j)), TScalar(j);
    }

    method DrawKind(k: Kind) returns (j: Json)
      modifies synth
      ensures KindShape(k, j) && RunKind(k, Source(), old(synth.pos)) == Run(Some(j), synth.pos)
    {
      match k
      case KBoolean =>
        var b := synth.Chance(50);
        j := Bool(b);
      case KInt =>
        var n := synth.Int(0, 999);
        j := Native(Int32(n));
      case KLong =>
        var n := synth.Int(0, 999);
        j := Native(Int64(n));
      case KFloat =>
        var x := synth.Float(0.0, 1000.0);
        j := Native(Float32(x));
      case KDouble =>
        var x := synth.Float(0.0, 1000.0);
        j := Native(Float64(x));
      case KBytes =>
        var n := synth.Int(4, 8);
        var b := DrawBytes(n);
        j := Native(Bytes(b));
      case KString =>
        var s := synth.Text();
        j := Str(s);
    }

    /** The convention table's synth column. */
    method DrawLogical(l: Logical) returns (r: Option<Val>, ghost t: Tree)
      modifies synth
      ensures fresh(Objs(t)) && (Drawable(Some(l)) <==> r.Some?) && (r.Some? ==> LogicalShape(l, View(t)))
      ensures Computes(r, t, synth.pos, RunLogical(l, Source(), old(synth.pos)))
    {
      LogicalYielded(l, Source(), synth.pos);
      t := TScalar(Null);
      if l.kind.Decimal? && l.precision < 1 { return None, t; }
      var j := Synthesize(l);
      LogicalConforms(l, j);
      r, t := Some(Scalar(j)), TScalar(j);
    }

    method Synthesize(l: Logical) returns (j: Json)
      requires Drawable(Some(l))
      modifies synth
      ensures RunLogical(l, Source(), old(synth.pos)) == Run(Some(j), synth.pos)
    {
      match l.kind
      case Uuid =>
        var s := synth.Text();
        j := Str(s);
      case TimeMillis =>
        var n := synth.Int(0, 86399999);
        j := Native(Duration(n * 1000000));
      case TimeMicros =>
        var n := synth.Int(0, 86399999999);
        j := Native(Duration(n * 1000));
      case Decimal =>
        var m := DrawMantissa(if l.precision > 15 then 15 else l.precision);
        j := Native(Rat(m, Pow10(l.scale)));
      case _ =>
        var n := synth.Word();
        j := Native(Instant(n));
    }

    /** decimalValue's digit buffer: a first digit 1 to 9, then any digits. */
    method DrawMantissa(digits: nat) returns (m: nat)
      requires digits >= 1
      modifies synth
      ensures Pow10(digits - 1) <= m < Pow10(digits)
      ensures m == RunMantissa(digits, Source(), old(synth.pos)) && synth.pos == old(synth.pos) + digits
    {
      var first := synth.Pick(9);
      m := 1 + first;
      FirstDigit(Source(), old(synth.pos), first);
      for i := 1 to digits
        invariant m == RunMantissa(i, Source(), old(synth.pos)) && synth.pos == old(synth.pos) + i
      {
        var d := synth.Pick(10);
        OneMoreDigit(i, Source(), old(synth.pos), d);
        m := m * 10 + d;
      }
    }
  }

  // ----- Values drawn one more -----

  lemma {:induction false} FirstDigit(st: Stream, pos: nat, d: nat)
    requires d == Below(st.words(pos), 9)
    ensures RunMantissa(1, st, pos) == 1 + d
  {
  }

  lemma {:induction false} OneMoreDigit(i: nat, st: Stream, pos: nat, d: nat)
    requires i >= 1 && d == Below(st.words(pos + i), 10)
    ensures RunMantissa(i + 1, st, pos) == RunMantissa(i, st, pos) * 10 + d
  {
  }

  /** What the first n types come to: these values and this position, or an error. */
  ghost predicate Ran(env: Env, types: seq<Type>, n: nat, depth: nat, st: Stream, start: nat, ok: bool, vals: seq<Json>,
                      pos: nat)
    requires depth <= MAX_AVRO_DEPTH + 1 && n <= |types|
  {
    forall m: nat | m == n ::
      var run := RunTypes(env, types, m, depth, st, start);
      if ok then run == Run(Some(vals), pos) else run.made.None?
  }

  lemma {:induction false} OneMoreRun(env: Env, types: seq<Type>, i: nat, depth: nat, st: Stream, start: nat,
                                      vals: seq<Json>, here: nat, r: Option<Val>, t: Tree, pos: nat)
    requires depth <= MAX_AVRO_DEPTH + 1 && i < |types| && Ran(env, types, i, depth, st, start, true, vals, here)
    requires Computes(r, t, pos, RunType(env, types[i], depth, st, here))
    ensures r.Some? ==> Ran(env, types, i + 1, depth, st, start, true, vals + [View(t)], pos)
    ensures r.None? ==> Ran(env, types, i + 1, depth, st, start, false, vals, pos)
  {
    assert RunTypes(env, types, i, depth, st, start) == Run(Some(vals), here);
    var next := RunTypes(env, types, i + 1, depth, st, start);
    assert next.made.None? <==> r.None?;
  }

  lemma {:induction false} StopsThere(env: Env, types: seq<Type>, count: nat, n: nat, depth: nat, st: Stream,
                                      start: nat, vals: seq<Json>, pos: nat)
    requires depth <= MAX_AVRO_DEPTH + 1 && n <= count <= |types|
    requires Ran(env, types, n, depth, st, start, false, vals, pos)
    ensures Ran(env, types, count, depth, st, start, false, vals, pos)
    decreases count
  {
    if n < count {
      StopsThere(env, types, count - 1, n, depth, st, start, vals, pos);
      assert RunTypes(env, types, count - 1, depth, st, start).made.None?;
    }
  }

  /** The first i keys have their values, laid out as ts. */
  ghost predicate EntriesSoFar(keys: seq<string>, result: map<string, Val>, ts: map<string, Tree>, vals: seq<Json>,
                               i: nat)
    reads EntrySet(ts)
  {
    && (forall a, b | 0 <= a < b < |keys| :: keys[a] != keys[b])
    && Entries(result, ts) && EntriesDisjoint(ts)
    && i <= |keys| && |vals| == i && ViewsByName(ts) == Keyed(keys[..i], vals)
  }

  lemma {:induction false} OneMoreEntry(keys: seq<string>, result: map<string, Val>, ts: map<string, Tree>,
                                        vals: seq<Json>, i: nat, v: Val, t: Tree)
    requires i < |keys| && EntriesSoFar(keys, result, ts, vals, i)
    requires Owns(v, t) && Proper(t) && Objs(t) !! EntrySet(ts)
    ensures EntriesSoFar(keys, result[keys[i] := v], ts[keys[i] := t], vals + [View(t)], i + 1)
    ensures EntrySet(ts[keys[i] := t]) == EntrySet(ts) + Objs(t)
  {
    OneMoreKeyed(keys, ts, vals, i, t);
    EntryAdded(ts, keys[i], t);
    EntryOwned(result, ts, keys[i], v, t);
  }

  lemma {:induction false} OneMoreKeyed(keys: seq<string>, ts: map<string, Tree>, vals: seq<Json>, i: nat, t: Tree)
    requires i < |keys| && i == |vals| && forall a, b | 0 <= a < b < |keys| :: keys[a] != keys[b]
    requires ViewsByName(ts) == Keyed(keys[..i], vals)
    ensures keys[i] !in ts && ViewsByName(ts[keys[i] := t]) == Keyed(keys[..i + 1], vals + [View(t)])
  {
    NotYetKeyed(keys, vals, i);
    assert keys[i] !in ViewsByName(ts);
    ViewsWith(ts, keys[i], t);
    KeyedMore(keys[..i], vals, keys[i], View(t));
    assert keys[..i + 1] == keys[..i] + [keys[i]];
  }

  lemma {:induction false} NotYetKeyed(keys: seq<string>, vals: seq<Json>, i: nat)
    requires i < |keys| && i == |vals| && forall a, b | 0 <= a < b < |keys| :: keys[a] != keys[b]
    ensures keys[i] !in Keyed(keys[..i], vals)
  {
    KeyedAt(keys[..i], vals);
  }

  lemma {:induction false} NoneEntered(keys: seq<string>)
    requires forall a, b | 0 <= a < b < |keys| :: keys[a] != keys[b]
    ensures EntrySet(map[]) == {} && EntriesSoFar(keys, map[], map[], [], 0)
  {
    NoEntries();
    assert keys[..0] == [];
  }

  lemma {:induction false} KeyedMore(keys: seq<string>, vals: seq<Json>, k: string, v: Json)
    requires |keys| == |vals|
    ensures Keyed(keys + [k], vals + [v]) == Keyed(keys, vals)[k := v]
  {
    assert (keys + [k])[..|keys|] == keys && (vals + [v])[..|vals|] == vals;
  }

  lemma {:induction false} MapKeysApart(n: nat)
    ensures forall a, b | 0 <= a < b < n :: MapKeys(n)[a] != MapKeys(n)[b]
  {
    forall a, b | 0 <= a < b < n ensures MapKeys(n)[a] != MapKeys(n)[b] { MapKeysDistinct(a, b); }
  }
}
