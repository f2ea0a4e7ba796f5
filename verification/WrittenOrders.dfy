/** What recording orders is for (internal/asyncapi/order.go): a generated record has its properties,
    and a literal its keys, in the order the spec writes them. */
module WrittenOrders {
  import opened JsonValues
  import opened Sorting
  import opened SchemaTypes
  import opened SchemaMerge
  import opened PropertyOrder
  import opened Literals
  import opened Generation
  import opened OrderStamps
  import opened AllOfKeywords

  /** The order of every object in a value is recorded, each of its keys once. */
  ghost predicate Recorded(orders: map<Json, seq<string>>, v: Json)
    decreases v
  {
    match v
    case Obj(m) =>
      v in orders && Distinct(orders[v]) && Elements(orders[v]) == m.Keys && forall k | k in m :: Recorded(orders, m[k])
    case Arr(l) => forall i | 0 <= i < |l| :: Recorded(orders, l[i])
    case _ => true
  }

  /** o is v with the keys of every object as they are written. */
  ghost predicate AsWritten(orders: map<Json, seq<string>>, v: Json, o: Json)
    decreases v
  {
    match v
    case Obj(m) =>
      o.Ord? && v in orders && o.keys == orders[v] && |o.vals| == |o.keys| &&
      forall i | 0 <= i < |o.keys| :: o.keys[i] in m && AsWritten(orders, m[o.keys[i]], o.vals[i])
    case Arr(l) => o.Arr? && |o.items| == |l| && forall i | 0 <= i < |l| :: AsWritten(orders, l[i], o.items[i])
    case _ => o == v
  }

  // ----- Literals -----

  lemma {:induction false} AllPresent(names: seq<string>, m: Node)
    requires forall i | 0 <= i < |names| :: names[i] in m
    ensures Present(names, m) == names
  {
    if names != [] {
      AllPresent(names[..|names| - 1], m);
      assert names == names[..|names| - 1] + [names[|names| - 1]];
    }
  }

  /** The tree recorded for an object: its keys as written, each with its value's tree. */
  lemma {:induction false} TreeOfObject(orders: map<Json, seq<string>>, m: Node)
    requires Recorded(orders, Obj(m))
    ensures var names, tree := orders[Obj(m)], OrderTree(orders, Obj(m));
            TreeKeys(tree) == names && LiteralKeys(m, tree) == names &&
            forall k | k in m :: SubTree(tree, k) == OrderTree(orders, m[k])
  {
    var names := orders[Obj(m)];
    assert forall i | 0 <= i < |names| :: names[i] in Elements(names);
    AllPresent(names, m);
    var tree := OrderTree(orders, Obj(m));
    assert tree.keys == names;
    AllRecorded(names, m.Keys);
    forall k | k in m ensures SubTree(tree, k) == OrderTree(orders, m[k]) {
      assert k in Elements(names);
      assert names[IndexOf(names, k)] == k;
    }
  }

  /** With its recorded tree a literal comes out as it is written. */
  lemma {:induction false} LiteralAsWritten(orders: map<Json, seq<string>>, v: Json)
    requires Decoded(v) && Recorded(orders, v)
    ensures AsWritten(orders, v, OrderLiteral(v, OrderTree(orders, v)))
    decreases v
  {
    match v
    case Obj(m) =>
      TreeOfObject(orders, m);
      var names, o := orders[v], OrderLiteral(v, OrderTree(orders, v));
      forall i | 0 <= i < |names| ensures names[i] in m && AsWritten(orders, m[names[i]], o.vals[i]) {
        assert names[i] in Elements(names);
        LiteralAsWritten(orders, m[names[i]]);
      }
    case Arr(l) =>
      forall i | 0 <= i < |l|
        ensures AsWritten(orders, l[i], OrderLiteral(v, OrderTree(orders, v)).items[i])
      {
        LiteralAsWritten(orders, l[i]);
      }
    case _ =>
  }

  /** A value without an object needs no tree. */
  lemma {:induction false} PlainAsWritten(orders: map<Json, seq<string>>, v: Json, tree: Json)
    requires Decoded(v) && !HoldsObject(v)
    ensures AsWritten(orders, v, OrderLiteral(v, tree))
    decreases v
  {
    if v.Arr? {
      forall i | 0 <= i < |v.items|
        ensures AsWritten(orders, v.items[i], OrderLiteral(v, tree).items[i])
      {
        PlainAsWritten(orders, v.items[i], ItemTree(tree, i));
      }
    }
  }

  /** Beside a schema object, the tree recorded for a literal keyword's value. */
  lemma {:induction false} TreeStamped(orders: map<Json, seq<string>>, n: Node, out: Node, k: string)
    requires IsLiteralKeyword(k) && k in n && LITERAL_KEYWORD !in out
    ensures LiteralTree(Stamped(orders, n, out, InSchema), k, -1) ==
              if HoldsObject(n[k]) then OrderTree(orders, n[k]) else Null
  {
    var trees := LiteralTrees(orders, n);
    assert k in trees <==> HoldsObject(n[k]);
  }

  /** From a stamped copy, an example and a const come out as the spec writes them. */
  lemma {:induction false} StampedLiteralAsWritten(orders: map<Json, seq<string>>, n: Node, out: Node, k: string)
    requires (k == "example" || k == "const") && k in n && LITERAL_KEYWORD !in out
    requires Decoded(n[k]) && Recorded(orders, n[k])
    ensures AsWritten(orders, n[k], OrderLiteral(n[k], LiteralTree(Stamped(orders, n, out, InSchema), k, -1)))
  {
    TreeStamped(orders, n, out, k);
    if HoldsObject(n[k]) { LiteralAsWritten(orders, n[k]); } else { PlainAsWritten(orders, n[k], Null); }
  }

  /** And so do the members of examples and enum. */
  lemma {:induction false} StampedMemberAsWritten(orders: map<Json, seq<string>>, n: Node, out: Node, k: string, i: nat)
    requires (k == "examples" || k == "enum") && ListAt(n, k).Some? && i < |n[k].items| && LITERAL_KEYWORD !in out
    requires Decoded(n[k]) && Recorded(orders, n[k])
    ensures AsWritten(orders, n[k].items[i],
                      OrderLiteral(n[k].items[i], LiteralTree(Stamped(orders, n, out, InSchema), k, i)))
  {
    var l := n[k].items;
    var tree := LiteralTree(Stamped(orders, n, out, InSchema), k, -1);
    TreeStamped(orders, n, out, k);
    assert LiteralTree(Stamped(orders, n, out, InSchema), k, i) == ItemTree(tree, i);
    if HoldsObject(l[i]) {
      assert ItemTree(tree, i) == OrderTree(orders, l[i]);
      LiteralAsWritten(orders, l[i]);
    } else {
      PlainAsWritten(orders, l[i], ItemTree(tree, i));
    }
  }

  // ----- Properties -----

  /** From a stamped copy, properties are declared in the order the spec writes them. */
  lemma {:induction false} StampedPropertiesAsWritten(orders: map<Json, seq<string>>, n: Node, out: Node)
    requires NodeAt(n, "properties").Some? && n["properties"] in orders
    requires var names := orders[n["properties"]]; Distinct(names) && Elements(names) == PropsOf(out).Keys
    ensures Order(Stamped(orders, n, out, InSchema)) == orders[n["properties"]]
  {
    var names, s := orders[n["properties"]], Stamped(orders, n, out, InSchema);
    assert PropsOf(s) == PropsOf(out);
    assert s[ORDER_KEYWORD] == Arr(Strs(names));
    AllRecorded(names, PropsOf(out).Keys);
  }

  // ----- Where orders are recorded -----

  /** The place a path of keys leads to. */
  function PlaceAt(at: Place, path: seq<string>): Place
    decreases |path|
  {
    if path == [] then at else PlaceAt(at.Child(path[0]), path[1..])
  }

  /** Whatever lies in a literal is literal; under a keyword of names each name has a schema, whatever
      it is called; and only a schema is stamped. */
  lemma {:induction false} PlacesAre(orders: map<Json, seq<string>>, path: seq<string>, names: string, name: string,
                                     n: Node, out: Node)
    ensures PlaceAt(InLiteral, path) == InLiteral
    ensures PlaceAt(InSchema, [names, name]) == InSchema <==>
              IsNameKeyword(names) ||
              (names != "default" && !IsLiteralKeyword(names) && PlaceAt(InSchema, [name]) == InSchema)
    ensures Stamped(orders, n, out, PlaceAt(InLiteral, path)) == out
    decreases |path|
  {
    if path != [] { PlacesAre(orders, path[1..], names, name, n, out); }
    OneKey(InSchema, name);
    OneKey(InSchema.Child(names), name);
    assert [names, name][1..] == [name];
    assert PlaceAt(InSchema, [names, name]) == InSchema.Child(names).Child(name);
  }

  lemma {:induction false} OneKey(at: Place, key: string)
    ensures PlaceAt(at, [key]) == at.Child(key)
  {
    assert [key][1..] == [];
  }
}
