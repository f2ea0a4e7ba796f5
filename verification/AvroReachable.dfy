/** Every value an Avro type yields is what some stream of draws makes of it, and where the generator
    does not answer a type some stream stops it (internal/avro/generate.go). */
module AvroReachable {
  import opened JsonValues
  import opened Sorting
  import opened Draws
  import opened Streams
  import opened AvroModel
  import opened AvroGeneration
  import opened AvroReplay

  /** Whatever stream goes on with the draws makes the value, and nothing more is drawn. */
  ghost predicate Makes(env: Env, typ: Type, depth: nat, ds: seq<Draw>, v: Json)
    requires depth <= MAX_AVRO_DEPTH + 1
  {
    forall st, pos: nat | Feeds(st, pos, ds) :: RunType(env, typ, depth, st, pos) == Run(Some(v), pos + |ds|)
  }

  /** Whatever stream goes on with the draws is stopped. */
  ghost predicate Stops(env: Env, typ: Type, depth: nat, ds: seq<Draw>)
    requires depth <= MAX_AVRO_DEPTH + 1
  {
    forall st, pos: nat | Feeds(st, pos, ds) :: RunType(env, typ, depth, st, pos).made.None?
  }

  ghost predicate MakesEach(env: Env, types: seq<Type>, n: nat, depth: nat, ds: seq<Draw>, vals: seq<Json>)
    requires depth <= MAX_AVRO_DEPTH + 1 && n <= |types|
  {
    forall st, pos: nat | Feeds(st, pos, ds) :: RunTypes(env, types, n, depth, st, pos) == Run(Some(vals), pos + |ds|)
  }

  ghost predicate StopsAmong(env: Env, types: seq<Type>, n: nat, depth: nat, ds: seq<Draw>)
    requires depth <= MAX_AVRO_DEPTH + 1 && n <= |types|
  {
    forall st, pos: nat | Feeds(st, pos, ds) :: RunTypes(env, types, n, depth, st, pos).made.None?
  }

  // ----- Leaves -----

  lemma {:induction false} WordReached(st: Stream, pos: nat, w: nat)
    requires w < TWO_64 && Feeds(st, pos, [Draw(w, "")])
    ensures st.Word(pos) == w
  {
    assert [Draw(w, "")][0] == Draw(w, "") && st.words(pos + 0) == w;
    SmallMod(w, TWO_64);
  }

  lemma {:induction false} TextReached(st: Stream, pos: nat, s: string)
    requires Feeds(st, pos, [Draw(0, s)])
    ensures st.texts(pos) == s
  {
    assert [Draw(0, s)][0] == Draw(0, s) && st.texts(pos + 0) == s;
  }

  function BytesDraws(b: seq<nat>): seq<Draw> { seq(|b|, i requires 0 <= i < |b| => Draw(b[i], "")) }

  lemma {:induction false} BytesReached(b: seq<nat>, st: Stream, pos: nat)
    requires AreBytes(b) && Feeds(st, pos, BytesDraws(b))
    ensures RunBytes(|b|, st, pos) == b
  {
    if b != [] {
      var init := b[..|b| - 1];
      assert BytesDraws(b) == BytesDraws(init) + [Draw(b[|b| - 1], "")];
      FeedsBoth(st, pos, BytesDraws(init), [Draw(b[|b| - 1], "")]);
      BytesReached(init, st, pos);
      PickReached(st, pos + |init|, b[|b| - 1], 256);
      assert b == init + [b[|b| - 1]];
    }
  }

  ghost predicate MakesKind(k: Kind, ds: seq<Draw>, v: Json) {
    forall st, pos: nat | Feeds(st, pos, ds) :: RunKind(k, st, pos) == Run(Some(v), pos + |ds|)
  }

  lemma {:induction false} KindReached(k: Kind, v: Json) returns (ds: seq<Draw>)
    requires YieldsKind(k, v)
    ensures MakesKind(k, ds, v)
  {
    match k
    case KBoolean =>
      ds := [Draw(if v.b then 0 else 99, "")];
      forall st, pos: nat | Feeds(st, pos, ds) ensures RunKind(k, st, pos) == Run(Some(v), pos + |ds|) {
        ChanceReached(st, pos, 50, v.b);
      }
    case KString =>
      ds := [Draw(0, v.s)];
      forall st, pos: nat | Feeds(st, pos, ds) ensures RunKind(k, st, pos) == Run(Some(v), pos + |ds|) {
        TextReached(st, pos, v.s);
      }
    case KBytes => ds := ByteStringReached(v.go.bytes);
    case _ => ds := NumberReached(k, v);
  }

  lemma {:induction false} NumberReached(k: Kind, v: Json) returns (ds: seq<Draw>)
    requires YieldsKind(k, v) && (k.KInt? || k.KLong? || k.KFloat? || k.KDouble?)
    ensures MakesKind(k, ds, v)
  {
    var w: nat;
    if k.KInt? || k.KLong? {
      w := IntCovers(0, 999, v.go.i);
    } else {
      var x: nat :| x < TWO_64 && v.go.r == FloatOf(x, 0.0, 1000.0);
      w := x;
    }
    ds := [Draw(w, "")];
    forall st, pos: nat | Feeds(st, pos, ds) ensures RunKind(k, st, pos) == Run(Some(v), pos + |ds|) {
      WordReached(st, pos, w);
    }
  }

  lemma {:induction false} ByteStringReached(b: seq<nat>) returns (ds: seq<Draw>)
    requires AreBytes(b) && Drawn(|b|, 4, 8)
    ensures MakesKind(KBytes, ds, Native(Bytes(b)))
  {
    var w := IntCovers(4, 8, |b|);
    ds := [Draw(w, "")] + BytesDraws(b);
    forall st, pos: nat | Feeds(st, pos, ds)
      ensures RunKind(KBytes, st, pos) == Run(Some(Native(Bytes(b))), pos + |ds|)
    {
      FeedsBoth(st, pos, [Draw(w, "")], BytesDraws(b));
      WordReached(st, pos, w);
      BytesReached(b, st, pos + 1);
    }
  }

  ghost predicate MakesLogical(l: Logical, ds: seq<Draw>, v: Json) {
    forall st, pos: nat | Feeds(st, pos, ds) :: RunLogical(l, st, pos) == Run(Some(v), pos + |ds|)
  }

  lemma {:induction false} LogicalReached(l: Logical, v: Json) returns (ds: seq<Draw>)
    requires YieldsLogical(l, v)
    ensures MakesLogical(l, ds, v)
  {
    match l.kind
    case Uuid =>
      ds := [Draw(0, v.s)];
      forall st, pos: nat | Feeds(st, pos, ds) ensures RunLogical(l, st, pos) == Run(Some(v), pos + |ds|) {
        TextReached(st, pos, v.s);
      }
    case Decimal =>
      ds := MantissaReached(Digits(l), v.go.num);
      forall st, pos: nat | Feeds(st, pos, ds) ensures RunLogical(l, st, pos) == Run(Some(v), pos + |ds|) {
        assert RunMantissa(Digits(l), st, pos) == v.go.num;
      }
    case _ => ds := TimeReached(l, v);
  }

  lemma {:induction false} TimeReached(l: Logical, v: Json) returns (ds: seq<Draw>)
    requires YieldsLogical(l, v) && !l.kind.Uuid? && !l.kind.Decimal?
    ensures MakesLogical(l, ds, v)
  {
    var w: nat;
    if l.kind.TimeMillis? {
      var n :| Drawn(n, 0, 86399999) && v == Native(Duration(n * 1000000));
      w := IntCovers(0, 86399999, n);
    } else if l.kind.TimeMicros? {
      var n :| Drawn(n, 0, 86399999999) && v == Native(Duration(n * 1000));
      w := IntCovers(0, 86399999999, n);
    } else {
      w := v.go.ticks;
    }
    ds := [Draw(w, "")];
    forall st, pos: nat | Feeds(st, pos, ds) ensures RunLogical(l, st, pos) == Run(Some(v), pos + |ds|) {
      WordReached(st, pos, w);
    }
  }

  lemma {:induction false} MantissaReached(digits: nat, m: nat) returns (ds: seq<Draw>)
    requires digits >= 1 && Pow10(digits - 1) <= m < Pow10(digits)
    ensures |ds| == digits
    ensures forall st, pos: nat | Feeds(st, pos, ds) :: RunMantissa(digits, st, pos) == m
  {
    if digits == 1 {
      ds := [Draw(m - 1, "")];
      forall st, pos: nat | Feeds(st, pos, ds) ensures RunMantissa(digits, st, pos) == m {
        PickReached(st, pos, m - 1, 9);
      }
    } else {
      var before := MantissaReached(digits - 1, m / 10);
      ds := before + [Draw(m % 10, "")];
      forall st, pos: nat | Feeds(st, pos, ds) ensures RunMantissa(digits, st, pos) == m {
        FeedsBoth(st, pos, before, [Draw(m % 10, "")]);
        PickReached(st, pos + digits - 1, m % 10, 10);
      }
    }
  }

  // ----- Several types -----

  lemma {:induction false} EachReached(env: Env, types: seq<Type>, n: nat, depth: nat, vals: seq<Json>)
    returns (ds: seq<Draw>)
    requires WellFormed(env) && depth <= MAX_AVRO_DEPTH + 1 && n <= |types| && YieldsEach(env, types, n, depth, vals)
    ensures MakesEach(env, types, n, depth, ds, vals)
    decreases MAX_AVRO_DEPTH + 1 - depth, 3, n
  {
    ds := [];
    if n > 0 {
      var before := EachReached(env, types, n - 1, depth, vals[..n - 1]);
      var last := Reached(env, types[n - 1], depth, vals[n - 1]);
      ds := before + last;
      assert vals == vals[..n - 1] + [vals[n - 1]];
      OneMoreReached(env, types, n, depth, before, vals[..n - 1], last, vals[n - 1]);
    }
  }

  lemma {:induction false} OneMoreReached(env: Env, types: seq<Type>, n: nat, depth: nat, before: seq<Draw>,
                                          init: seq<Json>, ds: seq<Draw>, v: Json)
    requires depth <= MAX_AVRO_DEPTH + 1 && 0 < n <= |types| && MakesEach(env, types, n - 1, depth, before, init)
    requires Makes(env, types[n - 1], depth, ds, v)
    ensures MakesEach(env, types, n, depth, before + ds, init + [v])
  {
    forall st, pos: nat | Feeds(st, pos, before + ds)
      ensures RunTypes(env, types, n, depth, st, pos) == Run(Some(init + [v]), pos + |before + ds|)
    {
      FeedsBoth(st, pos, before, ds);
    }
  }

  // ----- Types -----

  /** Some draws make any value the type yields. */
  lemma {:induction false} Reached(env: Env, typ: Type, depth: nat, v: Json) returns (ds: seq<Draw>)
    requires WellFormed(env) && depth <= MAX_AVRO_DEPTH + 1 && AvroYields(env, typ, depth, v)
    ensures Makes(env, typ, depth, ds, v)
    decreases MAX_AVRO_DEPTH + 1 - depth, 2
  {
    ds := [];
    if depth <= MAX_AVRO_DEPTH {
      match typ
      case NullType =>
      case Primitive(k, Some(l)) => ds := LogicalReached(l, v);
      case Primitive(k, None) => ds := KindReached(k, v);
      case Array(items) => ds := ArrayReached(env, items, depth, v.items);
      case Map(values) => ds := MapReached(env, values, depth, v.fields);
      case Union(branches) => ds := UnionReached(env, branches, depth, v.fields);
      case Named(full) => ds := NamedReached(env, full, depth, v);
    }
  }

  /** The draw makes the count. */
  ghost predicate Counts(ds: seq<Draw>, n: nat, most: nat)
    requires 1 < most < 100
  {
    |ds| == 1 && forall st, pos: nat | Feeds(st, pos, ds) :: CountAt(st, pos, most) == n
  }

  lemma {:induction false} CountDraw(n: nat, most: nat) returns (ds: seq<Draw>)
    requires 1 <= n <= most && 1 < most < 100
    ensures Counts(ds, n, most)
  {
    var w := IntCovers(1, most, n);
    ds := [Draw(w, "")];
    forall st, pos: nat | Feeds(st, pos, ds) ensures CountAt(st, pos, most) == n { WordReached(st, pos, w); }
  }

  lemma {:induction false} ArrayReached(env: Env, items: Type, depth: nat, vals: seq<Json>) returns (ds: seq<Draw>)
    requires WellFormed(env) && depth <= MAX_AVRO_DEPTH && 1 <= |vals| <= 5 && YieldsItems(env, items, depth, vals)
    ensures Makes(env, Array(items), depth, ds, Arr(vals))
    decreases MAX_AVRO_DEPTH + 1 - depth, 1
  {
    assert YieldsEach(env, Times(items, |vals|), |vals|, depth + 1, vals);
    ds := CountedReached(env, items, |vals|, 5, depth, vals);
    ArrayMade(env, items, depth, ds, vals);
  }

  /** These draws make the count, and then as many values of the type. */
  ghost predicate MakesCounted(env: Env, typ: Type, n: nat, most: nat, depth: nat, ds: seq<Draw>, vals: seq<Json>)
    requires depth <= MAX_AVRO_DEPTH && 1 < most < 100
  {
    forall st, pos: nat | Feeds(st, pos, ds) ::
      CountAt(st, pos, most) == n &&
      RunTypes(env, Times(typ, n), n, depth + 1, st, pos + 1) == Run(Some(vals), pos + |ds|)
  }

  lemma {:induction false} CountedReached(env: Env, typ: Type, n: nat, most: nat, depth: nat, vals: seq<Json>)
    returns (ds: seq<Draw>)
    requires WellFormed(env) && depth <= MAX_AVRO_DEPTH && 1 <= n <= most && 1 < most < 100
    requires YieldsEach(env, Times(typ, n), n, depth + 1, vals)
    ensures MakesCounted(env, typ, n, most, depth, ds, vals)
    decreases MAX_AVRO_DEPTH + 1 - depth, 0
  {
    var first := CountDraw(n, most);
    var rest := EachReached(env, Times(typ, n), n, depth + 1, vals);
    ds := first + rest;
    forall st, pos: nat | Feeds(st, pos, ds)
      ensures CountAt(st, pos, most) == n
      ensures RunTypes(env, Times(typ, n), n, depth + 1, st, pos + 1) == Run(Some(vals), pos + |ds|)
    {
      FeedsBoth(st, pos, first, rest);
    }
  }

  lemma {:induction false} ArrayMade(env: Env, items: Type, depth: nat, ds: seq<Draw>, vals: seq<Json>)
    requires depth <= MAX_AVRO_DEPTH && MakesCounted(env, items, |vals|, 5, depth, ds, vals)
    ensures Makes(env, Array(items), depth, ds, Arr(vals))
  {
  }

  lemma {:induction false} MapReached(env: Env, values: Type, depth: nat, m: map<string, Json>) returns (ds: seq<Draw>)
    requires WellFormed(env) && depth <= MAX_AVRO_DEPTH && MapSized(m) && YieldsEntries(env, values, depth, m)
    ensures Makes(env, Map(values), depth, ds, Obj(m))
    decreases MAX_AVRO_DEPTH + 1 - depth, 1
  {
    var n, vals := MapValues(env, values, depth, m);
    ds := CountedReached(env, values, n, 4, depth, vals);
    MapMade(env, values, n, depth, ds, vals);
  }

  lemma {:induction false} MapValues(env: Env, values: Type, depth: nat, m: map<string, Json>)
    returns (n: nat, vals: seq<Json>)
    requires depth <= MAX_AVRO_DEPTH && MapSized(m) && YieldsEntries(env, values, depth, m)
    ensures 1 <= n <= 4 && |vals| == n && Keyed(MapKeys(n), vals) == m
    ensures YieldsEach(env, Times(values, n), n, depth + 1, vals)
  {
    n :| 1 <= n <= 4 && HasMapKeys(m, n);
    vals := MapInOrder(m, n);
    EntriesEach(env, values, n, depth, m, vals);
  }

  /** The values of a map are those under the keys, in order. */
  ghost predicate InKeyOrder(keys: seq<string>, m: map<string, Json>, vals: seq<Json>) {
    |vals| == |keys| && m == Keyed(keys, vals) && forall i | 0 <= i < |keys| :: keys[i] in m && vals[i] == m[keys[i]]
  }

  lemma {:induction false} EntriesEach(env: Env, values: Type, n: nat, depth: nat, m: map<string, Json>,
                                       vals: seq<Json>)
    requires depth <= MAX_AVRO_DEPTH && YieldsEntries(env, values, depth, m) && InKeyOrder(MapKeys(n), m, vals)
    ensures YieldsEach(env, Times(values, n), n, depth + 1, vals)
  {
    forall i | 0 <= i < n ensures AvroYields(env, Times(values, n)[i], depth + 1, vals[i]) {
      assert MapKeys(n)[i] in m;
    }
  }

  lemma {:induction false} MapMade(env: Env, values: Type, n: nat, depth: nat, ds: seq<Draw>, vals: seq<Json>)
    requires depth <= MAX_AVRO_DEPTH && |vals| == n && MakesCounted(env, values, n, 4, depth, ds, vals)
    ensures Makes(env, Map(values), depth, ds, Obj(Keyed(MapKeys(n), vals)))
  {
  }

  /** A map's values in the order of its keys. */
  lemma {:induction false} MapInOrder(m: map<string, Json>, n: nat) returns (vals: seq<Json>)
    requires HasMapKeys(m, n)
    ensures InKeyOrder(MapKeys(n), m, vals)
  {
    forall i, j | 0 <= i < j < n ensures MapKeys(n)[i] != MapKeys(n)[j] { MapKeysDistinct(i, j); }
    vals := UnderKeys(MapKeys(n), m);
  }

  lemma {:induction false} UnderKeys(keys: seq<string>, m: map<string, Json>) returns (vals: seq<Json>)
    requires (forall k :: k in m <==> k in keys) && forall i, j | 0 <= i < j < |keys| :: keys[i] != keys[j]
    ensures InKeyOrder(keys, m, vals)
  {
    vals := seq(|keys|, i requires 0 <= i < |keys| => m[keys[i]]);
    KeyedAt(keys, vals);
    var n := Keyed(keys, vals);
    forall k ensures k in n <==> k in m {}
    forall k | k in m ensures n[k] == m[k] { var i :| 0 <= i < |keys| && keys[i] == k; }
    assert n == m;
  }

  lemma {:induction false} UnionReached(env: Env, branches: seq<Type>, depth: nat, m: map<string, Json>)
    returns (ds: seq<Draw>)
    requires WellFormed(env) && depth <= MAX_AVRO_DEPTH
    requires (NullType in branches && m == map["null" := Null]) || YieldsBranch(env, branches, depth, m)
    ensures Makes(env, Union(branches), depth, ds, Obj(m))
    decreases MAX_AVRO_DEPTH + 1 - depth, 1
  {
    if NullType in branches && m == map["null" := Null] {
      ds := [Draw(0, "")];
      NullReached(env, branches, depth);
    } else {
      var i, v := BranchOf(env, branches, depth, m);
      var rest := Reached(env, NonNull(branches)[i], depth + 1, v);
      ds := BranchDraws(branches, i) + rest;
      BranchReached(env, branches, i, depth, rest, v);
    }
  }

  lemma {:induction false} NullReached(env: Env, branches: seq<Type>, depth: nat)
    requires depth <= MAX_AVRO_DEPTH && NullType in branches
    ensures Makes(env, Union(branches), depth, [Draw(0, "")], Obj(map["null" := Null]))
  {
    forall st, pos: nat | Feeds(st, pos, [Draw(0, "")])
      ensures RunType(env, Union(branches), depth, st, pos) == Run(Some(Obj(map["null" := Null])), pos + 1)
    {
      ChanceReached(st, pos, 30, true);
    }
  }

  /** The branch an entry is of. */
  lemma {:induction false} BranchOf(env: Env, branches: seq<Type>, depth: nat, m: map<string, Json>)
    returns (i: nat, v: Json)
    requires depth <= MAX_AVRO_DEPTH && YieldsBranch(env, branches, depth, m)
    ensures i < |NonNull(branches)| && AvroYields(env, NonNull(branches)[i], depth + 1, v)
    ensures m == map[BranchName(NonNull(branches)[i]) := v]
  {
    var b :| b in branches && b != NullType && m.Keys == {BranchName(b)} &&
             AvroYields(env, b, depth + 1, m[BranchName(b)]);
    NonNullAre(branches, b);
    i :| 0 <= i < |NonNull(branches)| && NonNull(branches)[i] == b;
    v := m[BranchName(b)];
  }

  function BranchDraws(branches: seq<Type>, i: nat): seq<Draw> {
    (if NullType in branches then [Draw(99, "")] else []) + [Draw(i, "")]
  }

  /** Those draws lead to the branch. */
  lemma {:induction false} BranchDrawn(env: Env, branches: seq<Type>, i: nat, depth: nat, rest: seq<Draw>, st: Stream,
                                       pos: nat)
    requires depth <= MAX_AVRO_DEPTH && i < |NonNull(branches)| && Feeds(st, pos, BranchDraws(branches, i) + rest)
    ensures var b := NonNull(branches)[i]; var next := pos + |BranchDraws(branches, i)|;
            Feeds(st, next, rest) &&
            RunType(env, Union(branches), depth, st, pos) == AsBranch(b, RunType(env, b, depth + 1, st, next))
  {
    FeedsBoth(st, pos, BranchDraws(branches, i), rest);
    if NullType in branches {
      FeedsBoth(st, pos, [Draw(99, "")], [Draw(i, "")]);
      ChanceReached(st, pos, 30, false);
      PickReached(st, pos + 1, i, |NonNull(branches)|);
    } else {
      assert BranchDraws(branches, i) == [Draw(i, "")];
      PickReached(st, pos, i, |NonNull(branches)|);
    }
  }

  lemma {:induction false} BranchReached(env: Env, branches: seq<Type>, i: nat, depth: nat, rest: seq<Draw>, v: Json)
    requires depth <= MAX_AVRO_DEPTH && i < |NonNull(branches)|
    requires Makes(env, NonNull(branches)[i], depth + 1, rest, v)
    ensures Makes(env, Union(branches), depth, BranchDraws(branches, i) + rest,
                  Obj(map[BranchName(NonNull(branches)[i]) := v]))
  {
    forall st, pos: nat | Feeds(st, pos, BranchDraws(branches, i) + rest)
      ensures RunType(env, Union(branches), depth, st, pos) ==
                Run(Some(Obj(map[BranchName(NonNull(branches)[i]) := v])), pos + |BranchDraws(branches, i) + rest|)
    {
      BranchDrawn(env, branches, i, depth, rest, st, pos);
    }
  }

  lemma {:induction false} NamedReached(env: Env, full: string, depth: nat, v: Json) returns (ds: seq<Draw>)
    requires WellFormed(env) && depth <= MAX_AVRO_DEPTH && AvroYields(env, Named(full), depth, v)
    ensures Makes(env, Named(full), depth, ds, v)
    decreases MAX_AVRO_DEPTH + 1 - depth, 1
  {
    match env[full]
    case Record(fields) => ds := RecordReached(env, full, depth, v.fields);
    case Enum(symbols) =>
      var i :| 0 <= i < |symbols| && symbols[i] == v.s;
      ds := [Draw(i, "")];
      SymbolReached(env, full, depth, i);
    case Fixed(size, l) => ds := FixedReached(env, full, depth, v);
  }

  lemma {:induction false} RecordReached(env: Env, full: string, depth: nat, m: map<string, Json>)
    returns (ds: seq<Draw>)
    requires WellFormed(env) && depth <= MAX_AVRO_DEPTH && full in env && env[full].Record?
    requires m.Keys == NamesIn(env[full].fields) && YieldsFields(env, env[full].fields, depth, m)
    ensures Makes(env, Named(full), depth, ds, Obj(m))
    decreases MAX_AVRO_DEPTH + 1 - depth, 0
  {
    var fields := env[full].fields;
    var vals := FieldsInOrder(fields, m);
    FieldsEach(env, fields, depth, m, vals);
    ds := EachReached(env, TypesOf(fields), |fields|, depth + 1, vals);
    RecordMade(env, full, depth, m, ds, vals);
  }

  lemma {:induction false} FieldsEach(env: Env, fields: seq<Field>, depth: nat, m: map<string, Json>, vals: seq<Json>)
    requires depth <= MAX_AVRO_DEPTH && YieldsFields(env, fields, depth, m) && InKeyOrder(FieldNames(fields), m, vals)
    ensures YieldsEach(env, TypesOf(fields), |fields|, depth + 1, vals)
  {
    forall i | 0 <= i < |fields| ensures AvroYields(env, TypesOf(fields)[i], depth + 1, vals[i]) {
      assert fields[i] in fields && FieldNames(fields)[i] == fields[i].name;
    }
  }

  lemma {:induction false} RecordMade(env: Env, full: string, depth: nat, m: map<string, Json>, ds: seq<Draw>,
                                      vals: seq<Json>)
    requires depth <= MAX_AVRO_DEPTH && full in env && env[full].Record?
    requires InKeyOrder(FieldNames(env[full].fields), m, vals)
    requires MakesEach(env, TypesOf(env[full].fields), |env[full].fields|, depth + 1, ds, vals)
    ensures Makes(env, Named(full), depth, ds, Obj(m))
  {
  }

  lemma {:induction false} SymbolReached(env: Env, full: string, depth: nat, i: nat)
    requires depth <= MAX_AVRO_DEPTH && full in env && env[full].Enum? && i < |env[full].symbols|
    ensures Makes(env, Named(full), depth, [Draw(i, "")], Str(env[full].symbols[i]))
  {
    forall st, pos: nat | Feeds(st, pos, [Draw(i, "")])
      ensures RunType(env, Named(full), depth, st, pos) == Run(Some(Str(env[full].symbols[i])), pos + 1)
    {
      PickReached(st, pos, i, |env[full].symbols|);
    }
  }

  lemma {:induction false} FixedReached(env: Env, full: string, depth: nat, v: Json) returns (ds: seq<Draw>)
    requires depth <= MAX_AVRO_DEPTH && full in env && env[full].Fixed? && AvroYields(env, Named(full), depth, v)
    ensures Makes(env, Named(full), depth, ds, v)
  {
    if env[full].logical.Some? {
      ds := LogicalReached(env[full].logical.value, v);
    } else {
      ds := BytesDraws(v.go.bytes);
      forall st, pos: nat | Feeds(st, pos, ds)
        ensures RunType(env, Named(full), depth, st, pos) == Run(Some(v), pos + |ds|)
      {
        BytesReached(v.go.bytes, st, pos);
      }
    }
  }

  lemma {:induction false} FieldsInOrder(fields: seq<Field>, m: map<string, Json>) returns (vals: seq<Json>)
    requires DistinctNames(fields) && m.Keys == NamesIn(fields)
    ensures InKeyOrder(FieldNames(fields), m, vals)
  {
    var names := FieldNames(fields);
    forall k ensures k in m <==> k in names {
      if k in m {
        assert k in NamesIn(fields);
        var i :| 0 <= i < |fields| && fields[i].name == k;
        assert names[i] == k;
      }
      if k in names {
        var i :| 0 <= i < |fields| && names[i] == k;
        assert fields[i] in fields && k in NamesIn(fields);
      }
    }
    vals := UnderKeys(names, m);
  }

  // ----- Where the generator can be stopped -----

  ghost function Zeros(): Stream { Stream((i: nat) => 0, (i: nat) => "") }

  /** Types that are answered can be passed. */
  lemma {:induction false} EachPassed(env: Env, types: seq<Type>, n: nat, depth: nat)
    returns (ds: seq<Draw>, vals: seq<Json>)
    requires WellFormed(env) && depth <= MAX_AVRO_DEPTH + 1 && n <= |types|
    requires forall i | 0 <= i < n :: Answerable(env, types[i], depth)
    ensures MakesEach(env, types, n, depth, ds, vals)
  {
    ds, vals := [], [];
    if n > 0 {
      var before, init := EachPassed(env, types, n - 1, depth);
      RunIsYielded(env, types[n - 1], depth, Zeros(), 0);
      var v := RunType(env, types[n - 1], depth, Zeros(), 0).made.value;
      var last := Reached(env, types[n - 1], depth, v);
      OneMoreReached(env, types, n, depth, before, init, last, v);
      ds, vals := before + last, init + [v];
    }
  }

  lemma {:induction false} AmongStopped(env: Env, types: seq<Type>, n: nat, depth: nat, i: nat) returns (ds: seq<Draw>)
    requires WellFormed(env) && depth <= MAX_AVRO_DEPTH + 1 && i < n <= |types| && !Answerable(env, types[i], depth)
    ensures StopsAmong(env, types, n, depth, ds)
    decreases MAX_AVRO_DEPTH + 1 - depth, 3, n
  {
    if j :| 0 <= j < n - 1 && !Answerable(env, types[j], depth) {
      ds := AmongStopped(env, types, n - 1, depth, j);
    } else {
      var before, vals := EachPassed(env, types, n - 1, depth);
      var last := Stopped(env, types[n - 1], depth);
      ds := before + last;
      forall st, pos: nat | Feeds(st, pos, ds) ensures RunTypes(env, types, n, depth, st, pos).made.None? {
        FeedsBoth(st, pos, before, last);
      }
    }
  }

  /** Some draws stop the generator at a type it does not answer. */
  lemma {:induction false} Stopped(env: Env, typ: Type, depth: nat) returns (ds: seq<Draw>)
    requires WellFormed(env) && depth <= MAX_AVRO_DEPTH + 1 && !Answerable(env, typ, depth)
    ensures Stops(env, typ, depth, ds)
    decreases MAX_AVRO_DEPTH + 1 - depth, 2
  {
    ds := [];
    if depth <= MAX_AVRO_DEPTH {
      match typ
      case Array(items) => ds := ArrayStopped(env, items, depth);
      case Map(values) => ds := MapStopped(env, values, depth);
      case Union(branches) => ds := UnionStopped(env, branches, depth);
      case Named(full) =>
        if full in env && env[full].Record? {
          var types := TypesOf(env[full].fields);
          var i :| 0 <= i < |types| && !Answerable(env, types[i], depth + 1);
          ds := AmongStopped(env, types, |types|, depth + 1, i);
        }
      case _ =>
    }
  }

  lemma {:induction false} ArrayStopped(env: Env, items: Type, depth: nat) returns (ds: seq<Draw>)
    requires WellFormed(env) && depth <= MAX_AVRO_DEPTH && !Answerable(env, items, depth + 1)
    ensures Stops(env, Array(items), depth, ds)
    decreases MAX_AVRO_DEPTH + 1 - depth, 1
  {
    ds := OneStopped(env, items, 5, depth);
    forall st, pos: nat | Feeds(st, pos, ds) ensures RunType(env, Array(items), depth, st, pos).made.None? {
      assert CountAt(st, pos, 5) == 1;
    }
  }

  /** These draws make the count one, and stop at the one value. */
  ghost predicate StopsCounted(env: Env, typ: Type, most: nat, depth: nat, ds: seq<Draw>)
    requires depth <= MAX_AVRO_DEPTH && 1 < most < 100
  {
    forall st, pos: nat | Feeds(st, pos, ds) ::
      CountAt(st, pos, most) == 1 && RunTypes(env, Times(typ, 1), 1, depth + 1, st, pos + 1).made.None?
  }

  lemma {:induction false} OneStopped(env: Env, typ: Type, most: nat, depth: nat) returns (ds: seq<Draw>)
    requires WellFormed(env) && depth <= MAX_AVRO_DEPTH && 1 < most < 100 && !Answerable(env, typ, depth + 1)
    ensures StopsCounted(env, typ, most, depth, ds)
    decreases MAX_AVRO_DEPTH + 1 - depth, 0
  {
    var first := CountDraw(1, most);
    var rest := AmongStopped(env, Times(typ, 1), 1, depth + 1, 0);
    ds := first + rest;
    forall st, pos: nat | Feeds(st, pos, ds)
      ensures CountAt(st, pos, most) == 1 && RunTypes(env, Times(typ, 1), 1, depth + 1, st, pos + 1).made.None?
    {
      FeedsBoth(st, pos, first, rest);
    }
  }

  lemma {:induction false} MapStopped(env: Env, values: Type, depth: nat) returns (ds: seq<Draw>)
    requires WellFormed(env) && depth <= MAX_AVRO_DEPTH && !Answerable(env, values, depth + 1)
    ensures Stops(env, Map(values), depth, ds)
    decreases MAX_AVRO_DEPTH + 1 - depth, 1
  {
    ds := OneStopped(env, values, 4, depth);
    forall st, pos: nat | Feeds(st, pos, ds) ensures RunType(env, Map(values), depth, st, pos).made.None? {
      assert CountAt(st, pos, 4) == 1;
    }
  }

  lemma {:induction false} UnionStopped(env: Env, branches: seq<Type>, depth: nat) returns (ds: seq<Draw>)
    requires WellFormed(env) && depth <= MAX_AVRO_DEPTH && !Answerable(env, Union(branches), depth)
    ensures Stops(env, Union(branches), depth, ds)
    decreases MAX_AVRO_DEPTH + 1 - depth, 1
  {
    var values := NonNull(branches);
    if values == [] {
      ds := [Draw(99, "")];
      forall st, pos: nat | Feeds(st, pos, ds) ensures RunType(env, Union(branches), depth, st, pos).made.None? {
        ChanceReached(st, pos, 30, false);
      }
    } else {
      var i :| 0 <= i < |values| && !Answerable(env, values[i], depth + 1);
      var rest := Stopped(env, values[i], depth + 1);
      ds := BranchDraws(branches, i) + rest;
      forall st, pos: nat | Feeds(st, pos, ds) ensures RunType(env, Union(branches), depth, st, pos).made.None? {
        BranchDrawn(env, branches, i, depth, rest, st, pos);
      }
    }
  }

  // ----- All streams together -----

  /** The values a type yields are what streams make of it, each by some stream. */
  lemma {:induction false} EveryValueReached(env: Env, typ: Type, depth: nat, v: Json)
    requires WellFormed(env) && depth <= MAX_AVRO_DEPTH + 1
    ensures AvroYields(env, typ, depth, v) <==> exists st: Stream :: RunType(env, typ, depth, st, 0).made == Some(v)
  {
    if AvroYields(env, typ, depth, v) {
      var ds := Reached(env, typ, depth, v);
      assert Feeds(Going(ds), 0, ds);
      assert RunType(env, typ, depth, Going(ds), 0).made == Some(v);
    }
    if st: Stream :| RunType(env, typ, depth, st, 0).made == Some(v) {
      RunIsYielded(env, typ, depth, st, 0);
      assert IsYielded(env, typ, depth, RunType(env, typ, depth, st, 0));
    }
  }

  /** The generator answers a type if and only if no stream stops it there. */
  lemma {:induction false} AnswersExactly(env: Env, typ: Type, depth: nat)
    requires WellFormed(env) && depth <= MAX_AVRO_DEPTH + 1
    ensures Answerable(env, typ, depth) <==> forall st: Stream :: RunType(env, typ, depth, st, 0).made.Some?
  {
    if Answerable(env, typ, depth) {
      forall st: Stream ensures RunType(env, typ, depth, st, 0).made.Some? { RunIsYielded(env, typ, depth, st, 0); }
    } else {
      var ds := Stopped(env, typ, depth);
      assert Feeds(Going(ds), 0, ds);
      assert RunType(env, typ, depth, Going(ds), 0).made.None?;
    }
  }
}
