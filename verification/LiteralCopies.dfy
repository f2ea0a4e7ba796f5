/** orderLiteral: the fresh copy a literal comes back as (internal/generator/ordered.go). */
module LiteralCopies {
  import opened JsonValues
  import opened Sorting
  import opened PropertyOrder
  import opened SchemaTypes
  import opened Literals
  import opened Records

  /** The copy is laid out in objects of its own, so writing into a record reaches neither
      the schema's literal nor another record. */
  method CopyLiteral(v: Json, tree: Json) returns (r: Val, ghost t: Tree)
    ensures Owns(r, t) && Proper(t) && fresh(Objs(t))
    ensures View(t) == OrderLiteral(v, tree)
    decreases v, 1
  {
    match v
    case Obj(_) => r, t := CopyObject(v, tree);
    case Arr(s) =>
      var vals, ts := CopyRow(v, s, seq(|s|, i requires 0 <= i < |s| => ItemTree(tree, i)));
      r, t := NewList(vals, ts);
      assert View(t).items == OrderLiteral(v, tree).items;
    case Ord(keys, s) =>
      r, t := CopyEntries(v, keys, s, seq(|s|, i requires 0 <= i < |s| => Null));
      assert View(t).vals == OrderLiteral(v, tree).vals;
    case _ => r, t := Scalar(v), TScalar(v);
  }

  /** A plain object of a literal, in the order of its tree. */
  method CopyObject(v: Json, tree: Json) returns (r: Val, ghost t: Tree)
    requires v.Obj?
    ensures Owns(r, t) && Proper(t) && fresh(Objs(t))
    ensures View(t) == OrderLiteral(v, tree)
    decreases v, 0, 2
  {
    var m := v.fields;
    var keys := ReadOrder(Strs(TreeKeys(tree)), m.Keys);
    assert keys == LiteralKeys(m, tree);
    assert forall i | 0 <= i < |keys| :: keys[i] in Elements(keys);
    var parts := seq(|keys|, i requires 0 <= i < |keys| => m[keys[i]]);
    r, t := CopyEntries(v, keys, parts, seq(|keys|, i requires 0 <= i < |keys| => SubTree(tree, keys[i])));
    ObjectIsCopied(m, tree, keys, View(t).vals);
  }

  lemma {:induction false} ObjectIsCopied(m: Node, tree: Json, keys: seq<string>, vals: seq<Json>)
    requires keys == LiteralKeys(m, tree) && |vals| == |keys|
    requires forall i | 0 <= i < |keys| :: keys[i] in m && vals[i] == OrderLiteral(m[keys[i]], SubTree(tree, keys[i]))
    ensures Ord(keys, vals) == OrderLiteral(Obj(m), tree)
  {
    assert OrderLiteral(Obj(m), tree).vals == vals;
  }

  /** An object of a literal, its values copied. */
  method CopyEntries(whole: Json, keys: seq<string>, parts: seq<Json>, trees: seq<Json>) returns (r: Val, ghost t: Tree)
    requires |parts| == |trees| && forall i | 0 <= i < |parts| :: parts[i] < whole
    ensures Owns(r, t) && Proper(t) && fresh(Objs(t))
    ensures t.TObject? && t.keys == keys && |t.kids| == |parts|
    ensures forall i | 0 <= i < |parts| :: View(t.kids[i]) == OrderLiteral(parts[i], trees[i])
    decreases whole, 0, 1
  {
    var vals, ts := CopyRow(whole, parts, trees);
    r, t := NewObject(keys, vals, ts);
  }

  /** The copies of a literal's parts, side by side. */
  method CopyRow(whole: Json, parts: seq<Json>, trees: seq<Json>) returns (vals: seq<Val>, ghost ts: seq<Tree>)
    requires |parts| == |trees| && forall i | 0 <= i < |parts| :: parts[i] < whole
    ensures Row(vals, ts) && RowApart(ts) && |ts| == |parts| && fresh(KidObjs(ts))
    ensures forall i | 0 <= i < |ts| :: View(ts[i]) == OrderLiteral(parts[i], trees[i])
    decreases whole, 0, 0
  {
    vals, ts := [], [];
    for i := 0 to |parts|
      invariant Row(vals, ts) && RowApart(ts) && fresh(KidObjs(ts)) && Copies(ts, parts[..i], trees[..i])
    {
      KidsAllocated(ts);
      var r, t := CopyLiteral(parts[i], trees[i]);
      RowSnoc(vals, ts, r, t);
      CopiesMore(ts, parts, trees, i, t);
      vals, ts := vals + [r], ts + [t];
    }
    assert parts[..|parts|] == parts && trees[..|trees|] == trees;
  }

  ghost predicate Copies(ts: seq<Tree>, parts: seq<Json>, trees: seq<Json>) {
    |ts| == |parts| == |trees| && forall i | 0 <= i < |ts| :: View(ts[i]) == OrderLiteral(parts[i], trees[i])
  }

  lemma {:induction false} CopiesMore(ts: seq<Tree>, parts: seq<Json>, trees: seq<Json>, i: nat, t: Tree)
    requires i < |parts| == |trees| && Copies(ts, parts[..i], trees[..i]) && View(t) == OrderLiteral(parts[i], trees[i])
    ensures Copies(ts + [t], parts[..i + 1], trees[..i + 1])
  {
  }
}
