/** Literals in the order they are written (internal/generator/ordered.go), and Plain
    (internal/ordered/ordered.go). */
module Literals {
  import opened JsonValues
  import opened Sorting
  import opened PropertyOrder
  import opened SchemaTypes

  /** Values decoded from JSON hold no ordered objects. */
  ghost predicate Decoded(v: Json) {
    match v
    case Obj(m) => forall k | k in m :: Decoded(m[k])
    case Arr(s) => forall i | 0 <= i < |s| :: Decoded(s[i])
    case Ord(_, _) => false
    case _ => true
  }

  /** The keys an order tree gives an object, and the tree it gives one key's value. */
  function TreeKeys(tree: Json): seq<string> { if tree.Ord? then tree.keys else [] }

  function SubTree(tree: Json, k: string): Json {
    if tree.Ord? && IndexOf(tree.keys, k) < |tree.vals| then tree.vals[IndexOf(tree.keys, k)] else Null
  }

  function ItemTree(tree: Json, i: nat): Json {
    if tree.Arr? && i < |tree.items| then tree.items[i] else Null
  }

  ghost function LiteralKeys(m: Node, tree: Json): (r: seq<string>)
    ensures Distinct(r) && Elements(r) == m.Keys
  {
    OrderByShape(Strs(TreeKeys(tree)), m.Keys);
    OrderBy(Strs(TreeKeys(tree)), m.Keys)
  }

  /** orderLiteral: every object of v as an ordered one, its keys as the tree orders them.
      Decoded literals hold no ordered object yet; one would keep its own order. */
  ghost function OrderLiteral(v: Json, tree: Json): Json
    decreases v
  {
    match v
    case Obj(m) =>
      var keys := LiteralKeys(m, tree);
      Ord(keys, seq(|keys|, i requires 0 <= i < |keys| =>
                      assert keys[i] in Elements(keys); OrderLiteral(m[keys[i]], SubTree(tree, keys[i]))))
    case Arr(s) => Arr(seq(|s|, i requires 0 <= i < |s| => OrderLiteral(s[i], ItemTree(tree, i))))
    case Ord(keys, s) => Ord(keys, seq(|s|, i requires 0 <= i < |s| => OrderLiteral(s[i], Null)))
    case _ => v
  }

  /** Plain: every ordered object as a map; a later entry under a key replaces an earlier one. */
  ghost function Plain(v: Json): Json {
    match v
    case Obj(m) => Obj(map k | k in m :: Plain(m[k]))
    case Arr(s) => Arr(seq(|s|, i requires 0 <= i < |s| => Plain(s[i])))
    case Ord(keys, vals) =>
      if |keys| == |vals| then Obj(Fields(keys, seq(|vals|, i requires 0 <= i < |vals| => Plain(vals[i])))) else v
    case _ => v
  }

  ghost function Fields(keys: seq<string>, vals: seq<Json>): Node
    requires |keys| == |vals|
  {
    if keys == [] then map[] else
      var n := |keys| - 1;
      Fields(keys[..n], vals[..n])[keys[n] := vals[n]]
  }

  /** With each key once, the fields are exactly the entries. */
  lemma {:induction false} FieldsAre(keys: seq<string>, vals: seq<Json>, m: Node)
    requires |keys| == |vals| && Distinct(keys) && Elements(keys) == m.Keys
    requires forall i | 0 <= i < |keys| :: keys[i] in m && vals[i] == m[keys[i]]
    ensures Fields(keys, vals) == m
  {
    if keys == [] {
      assert m.Keys == {};
    } else {
      var n := |keys| - 1;
      var less := m - {keys[n]};
      ElementsSnoc(keys[..n], keys[n]);
      assert keys == keys[..n] + [keys[n]];
      assert keys[n] !in keys[..n];
      assert Elements(keys[..n]) == less.Keys;
      FieldsAre(keys[..n], vals[..n], less);
      assert m == less[keys[n] := vals[n]];
    }
  }

  /** An ordered literal is the literal: whatever the tree, only the order of keys changes. */
  lemma {:induction false} OrderedLiteralIsLiteral(v: Json, tree: Json)
    requires Decoded(v)
    ensures Plain(OrderLiteral(v, tree)) == v
    decreases v, 1
  {
    match v
    case Obj(m) => OrderedObjectIsObject(m, tree);
    case Arr(s) => OrderedListIsList(s, tree);
    case _ =>
  }

  lemma {:induction false} OrderedListIsList(s: seq<Json>, tree: Json)
    requires Decoded(Arr(s))
    ensures Plain(OrderLiteral(Arr(s), tree)) == Arr(s)
    decreases Arr(s), 0
  {
    var o := OrderLiteral(Arr(s), tree).items;
    forall i | 0 <= i < |s| ensures Plain(o[i]) == s[i] { OrderedLiteralIsLiteral(s[i], ItemTree(tree, i)); }
    PlainList(o, s);
  }

  lemma {:induction false} PlainList(o: seq<Json>, s: seq<Json>)
    requires |o| == |s| && forall i | 0 <= i < |s| :: Plain(o[i]) == s[i]
    ensures Plain(Arr(o)) == Arr(s)
  {
  }

  lemma {:induction false} OrderedObjectIsObject(m: Node, tree: Json)
    requires Decoded(Obj(m))
    ensures Plain(OrderLiteral(Obj(m), tree)) == Obj(m)
    decreases Obj(m), 0
  {
    var keys, o := LiteralKeys(m, tree), OrderLiteral(Obj(m), tree).vals;
    forall i | 0 <= i < |keys| ensures keys[i] in m && Plain(o[i]) == m[keys[i]] {
      assert keys[i] in Elements(keys);
      OrderedLiteralIsLiteral(m[keys[i]], SubTree(tree, keys[i]));
    }
    PlainObject(keys, o, m);
  }

  lemma {:induction false} PlainObject(keys: seq<string>, o: seq<Json>, m: Node)
    requires |o| == |keys| && Distinct(keys) && Elements(keys) == m.Keys
    requires forall i | 0 <= i < |keys| :: keys[i] in m && Plain(o[i]) == m[keys[i]]
    ensures Plain(Ord(keys, o)) == Obj(m)
  {
    FieldsAre(keys, seq(|o|, i requires 0 <= i < |o| => Plain(o[i])), m);
  }

  /** Every object of v stands in o as an ordered one: each of its keys once, those of its tree
      first and in the tree's order, then the others sorted. */
  ghost predicate Follows(v: Json, o: Json, tree: Json)
    decreases v
  {
    match v
    case Obj(m) =>
      && o.Ord? && |o.keys| == |o.vals|
      && Distinct(o.keys) && Elements(o.keys) == m.Keys && InOrder(Strs(TreeKeys(tree)), o.keys)
      && forall i | 0 <= i < |o.keys| :: o.keys[i] in m && Follows(m[o.keys[i]], o.vals[i], SubTree(tree, o.keys[i]))
    case Arr(s) => o.Arr? && |o.items| == |s| && forall i | 0 <= i < |s| :: Follows(s[i], o.items[i], ItemTree(tree, i))
    case _ => o == v
  }

  lemma {:induction false} OrderedLiteralFollows(v: Json, tree: Json)
    requires Decoded(v)
    ensures Follows(v, OrderLiteral(v, tree), tree)
    decreases v
  {
    match v
    case Obj(m) =>
      var keys := LiteralKeys(m, tree);
      OrderByIsPermutation(Strs(TreeKeys(tree)), m.Keys);
      forall i | 0 <= i < |keys|
        ensures keys[i] in m && Follows(m[keys[i]], OrderLiteral(v, tree).vals[i], SubTree(tree, keys[i]))
      {
        assert keys[i] in Elements(keys);
        OrderedLiteralFollows(m[keys[i]], SubTree(tree, keys[i]));
      }
    case Arr(s) =>
      forall i | 0 <= i < |s| ensures Follows(s[i], OrderLiteral(v, tree).items[i], ItemTree(tree, i)) {
        OrderedLiteralFollows(s[i], ItemTree(tree, i));
      }
    case _ =>
  }
}
