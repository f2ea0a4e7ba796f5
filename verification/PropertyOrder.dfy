/** The order a schema declares its properties in (internal/generator/ordered.go). */
module PropertyOrder {
  import opened JsonValues
  import opened Sorting

  /** ordered.Keyword and ordered.LiteralKeyword. */
  const ORDER_KEYWORD := "x-kafka-testdata-generator-property-order"
  const LITERAL_KEYWORD := "x-kafka-testdata-generator-literal-order"

  /** The recorded names that are declared, each where it is first recorded. */
  ghost function Picked(recorded: seq<Json>, props: set<string>): (r: seq<string>)
    ensures Distinct(r) && Elements(r) <= props
  {
    if recorded == [] then [] else
      var before := Picked(recorded[..|recorded| - 1], props);
      var last := recorded[|recorded| - 1];
      if last.Str? && last.s in props && last.s !in before then
        assert Elements(before + [last.s]) == Elements(before) + {last.s};
        before + [last.s]
      else before
  }

  ghost function Recorded(s: Node): seq<Json> { ListAt(s, ORDER_KEYWORD).GetOr([]) }

  /** The names of a set: those recorded first, where first recorded, the others sorted. */
  ghost function OrderBy(recorded: seq<Json>, names: set<string>): seq<string> {
    Picked(recorded, names) + SortStrings(names - Elements(Picked(recorded, names)))
  }

  ghost function DeclaredOrder(s: Node, props: set<string>): seq<string> { OrderBy(Recorded(s), props) }

  /** A name is recorded at i for the first time. */
  ghost predicate FirstAt(recorded: seq<Json>, name: string, i: int) {
    0 <= i < |recorded| && recorded[i] == Str(name) && forall j | 0 <= j < i :: recorded[j] != Str(name)
  }

  /** Recorded names come first, in the order they are first recorded, and the rest follow
      sorted. */
  ghost predicate InOrder(recorded: seq<Json>, names: seq<string>) {
    && (forall a, b, i, j |
          0 <= a < b < |names| && FirstAt(recorded, names[a], i) && FirstAt(recorded, names[b], j) :: i < j)
    && (forall a, b | 0 <= a < b < |names| && Str(names[a]) !in recorded ::
          Str(names[b]) !in recorded && Leq(names[a], names[b]))
  }

  lemma {:induction false} PickedFirst(recorded: seq<Json>, props: set<string>)
    ensures forall name | name in props :: name in Picked(recorded, props) <==> Str(name) in recorded
    ensures forall a, b, i, j | 0 <= a < b < |Picked(recorded, props)|
              && FirstAt(recorded, Picked(recorded, props)[a], i)
              && FirstAt(recorded, Picked(recorded, props)[b], j) :: i < j
  {
    if recorded != [] {
      var n := |recorded| - 1;
      var init := recorded[..n];
      PickedFirst(init, props);
      assert recorded == init + [recorded[n]];
      var before := Picked(init, props);
      forall a, b, i, j | 0 <= a < b < |Picked(recorded, props)|
          && FirstAt(recorded, Picked(recorded, props)[a], i)
          && FirstAt(recorded, Picked(recorded, props)[b], j)
        ensures i < j
      {
        var x, y := Picked(recorded, props)[a], Picked(recorded, props)[b];
        assert before[a] in before && Str(x) in init;
        var i' :| 0 <= i' < n && init[i'] == Str(x);
        assert i <= i';
        assert FirstAt(init, x, i);
        if j < n { assert FirstAt(init, y, j); assert Str(y) in init; }
      }
    }
  }

  lemma OrderByShape(recorded: seq<Json>, names: set<string>)
    ensures Distinct(OrderBy(recorded, names)) && Elements(OrderBy(recorded, names)) == names
  {
    OrderByIsPermutation(recorded, names);
  }

  /** The order is a permutation of the names, in the order recorded. */
  lemma OrderByIsPermutation(recorded: seq<Json>, names: set<string>)
    ensures Distinct(OrderBy(recorded, names)) && Elements(OrderBy(recorded, names)) == names
    ensures InOrder(recorded, OrderBy(recorded, names))
  {
    var p := Picked(recorded, names);
    var rest := SortStrings(names - Elements(p));
    var all := OrderBy(recorded, names);
    PickedFirst(recorded, names);
    assert forall x | x in rest :: x in Elements(rest);
    assert Elements(all) == Elements(p) + Elements(rest);
    forall a, b | 0 <= a < b < |all| ensures all[a] != all[b] {
      if a < |p| <= b { assert all[a] in Elements(p) && all[b] in Elements(rest); }
    }
    forall a | 0 <= a < |all| ensures a < |p| <==> Str(all[a]) in recorded {
      if a < |p| {
        assert all[a] in p && all[a] in Elements(p);
      } else {
        assert all[a] in Elements(rest) && all[a] !in Elements(p);
      }
    }
    forall a, b, i, j | 0 <= a < b < |all| && FirstAt(recorded, all[a], i) && FirstAt(recorded, all[b], j)
      ensures i < j
    {
      assert Str(all[b]) in recorded;
      assert p[a] == all[a] && p[b] == all[b];
    }
  }

  /** declaredOrder: the recorded order, then any property it misses, sorted. */
  method ReadDeclaredOrder(s: Node, props: set<string>) returns (r: seq<string>)
    ensures r == DeclaredOrder(s, props)
  {
    r := ReadOrder(ListAt(s, ORDER_KEYWORD).GetOr([]), props);
  }

  method ReadOrder(recorded: seq<Json>, props: set<string>) returns (r: seq<string>)
    ensures r == OrderBy(recorded, props)
  {
    var names: seq<string> := [];
    var listed: set<string> := {};
    for i := 0 to |recorded|
      invariant names == Picked(recorded[..i], props) && listed == Elements(names)
    {
      assert recorded[..i + 1][..i] == recorded[..i];
      if recorded[i].Str? && recorded[i].s in props && recorded[i].s !in listed {
        names := names + [recorded[i].s];
        listed := listed + {recorded[i].s};
      }
    }
    assert recorded[..|recorded|] == recorded;
    r := names + SortStrings(props - listed);
  }
}
