/** Whether what the generator draws keeps the bounds a schema declares (internal/generator/generator.go):
    minimum, maximum, exclusiveMinimum and exclusiveMaximum of integers and numbers, minItems and
    maxItems of arrays. It does exactly where the bounds leave room above the lower end it draws from. */
module DeclaredBounds {
  import opened JsonValues
  import opened Draws
  import opened SchemaTypes
  import opened SchemaMerge
  import opened AllOfMeaning
  import opened Generation

  predicate Sets(s: Node, k: string) { NumAt(s, k).Some? }

  predicate SetsLower(s: Node) { Sets(s, "minimum") || Sets(s, "exclusiveMinimum") }

  predicate SetsUpper(s: Node) { Sets(s, "maximum") || Sets(s, "exclusiveMaximum") }

  // ----- Integers -----

  /** A whole number an int64 holds with room for one more either way. */
  predicate IsWhole(x: real) { x == x.Floor as real && -TWO_63 < x.Floor < TWO_63 - 1 }

  ghost predicate WholeBounds(s: Node) { forall k | IsBound(k) && Sets(s, k) :: IsWhole(s[k].n) }

  /** Where a bound is set both ways, the exclusive one is no looser: it is the one drawn from. */
  predicate ExclusiveRules(s: Node, step: real) {
    (Sets(s, "minimum") && Sets(s, "exclusiveMinimum") ==> s["minimum"].n <= s["exclusiveMinimum"].n + step) &&
    (Sets(s, "maximum") && Sets(s, "exclusiveMaximum") ==> s["exclusiveMaximum"].n - step <= s["maximum"].n)
  }

  /** The integer keeps the bounds, and the defaults 0 and 1000 where none is set. */
  ghost predicate InRange(s: Node, n: int) {
    WithinBounds(s, Num(n as real)) && (!SetsLower(s) ==> 0 <= n) && (!SetsUpper(s) ==> n <= 1000)
  }

  lemma {:induction false} WholeToInt64(x: real)
    requires IsWhole(x)
    ensures ToInt64(x) == x.Floor
  {
  }

  lemma {:induction false} BoundsMeet(s: Node, n: int)
    requires WholeBounds(s) && ExclusiveRules(s, 1.0)
    ensures InRange(s, n) <==> IntegerMin(s) <= n <= IntegerMax(s)
  {
    LowerMeets(s, n);
    UpperMeets(s, n);
  }

  lemma {:induction false} LowerMeets(s: Node, n: int)
    requires WholeBounds(s) && ExclusiveRules(s, 1.0)
    ensures IntegerMin(s) <= n <==>
              KeepsBound(s, "minimum", Num(n as real)) && KeepsBound(s, "exclusiveMinimum", Num(n as real)) &&
              (!SetsLower(s) ==> 0 <= n)
  {
    if Sets(s, "minimum") { WholeToInt64(s["minimum"].n); }
    if Sets(s, "exclusiveMinimum") { WholeToInt64(s["exclusiveMinimum"].n); }
  }

  lemma {:induction false} UpperMeets(s: Node, n: int)
    requires WholeBounds(s) && ExclusiveRules(s, 1.0)
    ensures n <= IntegerMax(s) <==>
              KeepsBound(s, "maximum", Num(n as real)) && KeepsBound(s, "exclusiveMaximum", Num(n as real)) &&
              (!SetsUpper(s) ==> n <= 1000)
  {
    if Sets(s, "maximum") { WholeToInt64(s["maximum"].n); }
    if Sets(s, "exclusiveMaximum") { WholeToInt64(s["exclusiveMaximum"].n); }
  }

  lemma {:induction false} IntegerLeaf(s: Node, v: Json)
    ensures YieldsLeaf(s, "integer", v) <==>
              v.Num? && v.n == v.n.Floor as real && Drawn(v.n.Floor, IntegerMin(s), IntegerMax(s))
  {
    if YieldsLeaf(s, "integer", v) { var n :| Drawn(n, IntegerMin(s), IntegerMax(s)) && v == Num(n as real); }
  }

  /** Where some integer is in range, the integers drawn are exactly those in range. */
  lemma {:induction false} IntegersExactly(s: Node, some: int, n: int)
    requires WholeBounds(s) && ExclusiveRules(s, 1.0) && InRange(s, some)
    ensures YieldsLeaf(s, "integer", Num(n as real)) <==> InRange(s, n)
  {
    BoundsMeet(s, some);
    BoundsMeet(s, n);
    IntegerLeaf(s, Num(n as real));
  }

  /** Every integer drawn keeps the bounds, if and only if no upper bound is set or some integer is
      in range. */
  lemma {:induction false} IntegersKeepBounds(s: Node)
    requires WholeBounds(s) && ExclusiveRules(s, 1.0)
    ensures (forall v | YieldsLeaf(s, "integer", v) :: WithinBounds(s, v)) <==>
              !SetsUpper(s) || exists n :: InRange(s, n)
  {
    var lo, hi := IntegerMin(s), IntegerMax(s);
    if some :| InRange(s, some) {
      forall v | YieldsLeaf(s, "integer", v) ensures WithinBounds(s, v) {
        IntegerLeaf(s, v);
        IntegersExactly(s, some, v.n.Floor);
      }
    } else {
      BoundsMeet(s, lo);
      assert !InRange(s, lo);
      LowerMeets(s, lo);
      UpperMeets(s, lo);
      IntegerLeaf(s, Num(lo as real));
      if !SetsUpper(s) { forall v | YieldsLeaf(s, "integer", v) ensures WithinBounds(s, v) { IntegerLeaf(s, v); } }
    }
  }

  /** A maximum below zero with no minimum: 0 is drawn. */
  lemma {:induction false} MaximumBelowZero()
    ensures var s := map["type" := Str("integer"), "maximum" := Num(-5.0)];
      YieldsLeaf(s, "integer", Num(0.0)) && !WithinBounds(s, Num(0.0))
  {
    var s := map["type" := Str("integer"), "maximum" := Num(-5.0)];
    assert IntegerMin(s) == 0 && IntegerMax(s) == -5;
    IntegerLeaf(s, Num(0.0));
  }

  // ----- Numbers -----

  /** Every number drawn keeps the bounds, if and only if the least of them does; and a minimum set
      alone is that least one. */
  lemma {:induction false} NumbersKeepBounds(s: Node)
    requires ExclusiveRules(s, 0.01)
    ensures YieldsLeaf(s, "number", Num(NumberMin(s)))
    ensures forall v | YieldsLeaf(s, "number", v) :: v.Num? && NumberMin(s) <= v.n
    ensures (forall v | YieldsLeaf(s, "number", v) :: WithinBounds(s, v)) <==> WithinBounds(s, Num(NumberMin(s)))
    ensures Sets(s, "minimum") && !Sets(s, "exclusiveMinimum") ==> NumberMin(s) == s["minimum"].n
  {
    var lo, hi := NumberMin(s), NumberMax(s);
    assert FloatOf(0, lo, hi) == lo;
    forall v | YieldsLeaf(s, "number", v)
      ensures v.Num? && lo <= v.n && (WithinBounds(s, Num(lo)) ==> WithinBounds(s, v))
    {
      var w: nat :| w < TWO_64 && v == Num(FloatOf(w, lo, hi));
      if lo < hi { FloatInRange(w, lo, hi); }
    }
  }

  // ----- Arrays -----

  /** The counts are whole and not negative. */
  predicate WholeCounts(s: Node) {
    (Sets(s, "minItems") ==> IsWhole(s["minItems"].n) && s["minItems"].n >= 0.0) &&
    (Sets(s, "maxItems") ==> IsWhole(s["maxItems"].n) && s["maxItems"].n >= 0.0)
  }

  /** An array of so many items has as many as minItems and maxItems ask for, where they are set. */
  predicate KeepsCounts(s: Node, n: nat) {
    (Sets(s, "minItems") ==> s["minItems"].n <= n as real) && (Sets(s, "maxItems") ==> n as real <= s["maxItems"].n)
  }

  /** The least and the most items asked for, 1 and 5 where nothing is. */
  function LeastItems(s: Node): real { if Sets(s, "minItems") then s["minItems"].n else 1.0 }

  function MostAllowed(s: Node): real { if Sets(s, "maxItems") then s["maxItems"].n else 5.0 }

  /** Where no item comes out absent, every array has as many items as asked for, as long as the
      least is not above the most; where it is, every array has the least. */
  lemma {:induction false} ArraysKeepCounts(defs: Node, s: Node, depth: nat, vals: seq<Json>)
    requires depth <= MAX_DEPTH && WholeCounts(s) && NodeAt(s, "items").Some? && YieldsArray(defs, s, depth, vals)
    requires (HeightField(s, "items"); !Yields(defs, s["items"].fields, depth, Absent))
    ensures if LeastItems(s) <= MostAllowed(s) then LeastItems(s) <= |vals| as real <= MostAllowed(s)
            else |vals| as real == LeastItems(s)
    ensures KeepsCounts(s, |vals|) <==> !Sets(s, "maxItems") || LeastItems(s) <= MostAllowed(s)
  {
    HeightField(s, "items");
    var count :| Drawn(count, MinItems(s), MaxItems(s)) && 0 <= count && |vals| <= count &&
                 (|vals| < count ==> Yields(defs, s["items"].fields, depth, Absent));
    if Sets(s, "minItems") { WholeToInt64(s["minItems"].n); }
    if Sets(s, "maxItems") { WholeToInt64(s["maxItems"].n); }
    assert MinItems(s) as real == LeastItems(s) && MaxItems(s) as real == MostAllowed(s);
  }

  /** Where no item is allowed and no least number is set, one comes out. */
  lemma {:induction false} NoItemsAllowed(s: Node, items: Node)
    requires items == map["type" := Str("null")]
    requires s == map["type" := Str("array"), "items" := Obj(items), "maxItems" := Num(0.0)]
    ensures YieldsArray(map[], s, 0, [Null]) && !KeepsCounts(s, 1)
  {
    NullIsYielded(items);
    OneItem(map[], s, items, 0);
  }

  lemma {:induction false} NullIsYielded(s: Node)
    requires s == map["type" := Str("null")]
    ensures Yields(map[], s, 0, Value(Null))
  {
    assert LiteralsOf(s) == [] && Branches(s) == [];
    assert TypeList(s) == Some(["null"]) && "null" in ["null"];
    assert YieldsTyped(map[], s, "null", 0, Value(Null));
  }

  lemma {:induction false} OneItem(defs: Node, s: Node, items: Node, depth: nat)
    requires depth <= MAX_DEPTH && NodeAt(s, "items") == Some(items) && MinItems(s) == 1 && MaxItems(s) == 0
    requires Yields(defs, items, depth, Value(Null))
    ensures YieldsArray(defs, s, depth, [Null])
  {
    HeightField(s, "items");
    assert Drawn(1, MinItems(s), MaxItems(s));
  }
}
