/** The orders the resolver records beside a schema object (internal/asyncapi/order.go). */
module OrderStamps {
  import opened JsonValues
  import opened SchemaTypes
  import opened PropertyOrder
  import opened SpecRefs

  /** Where in a schema a node is copied: a schema object, an object of names, or a literal. */
  datatype Place = InSchema | InNames | InLiteral {
    function Child(key: string): Place {
      if InLiteral? then InLiteral
      else if InNames? then InSchema
      else if IsNameKeyword(key) then InNames
      else if key == "default" || IsLiteralKeyword(key) then InLiteral
      else InSchema
    }

    function Referenced(): Place { if InLiteral? then InLiteral else InSchema }
  }

  predicate IsNameKeyword(k: string) {
    k == "properties" || k == "patternProperties" || k == "$defs" || k == "definitions" || k == "dependencies" ||
      k == "dependentSchemas"
  }

  predicate IsLiteralKeyword(k: string) { k == "example" || k == "examples" || k == "const" || k == "enum" }

  predicate HoldsObject(v: Json)
    decreases v
  {
    v.Obj? || (v.Arr? && exists i :: 0 <= i < |v.items| && HoldsObject(v.items[i]))
  }

  function Present(names: seq<string>, m: Node): seq<string> {
    if names == [] then []
    else
      var rest := Present(names[..|names| - 1], m);
      if names[|names| - 1] in m then rest + [names[|names| - 1]] else rest
  }

  lemma {:induction false} PresentIn(names: seq<string>, m: Node)
    ensures forall x | x in Present(names, m) :: x in m
  {
    if names != [] { PresentIn(names[..|names| - 1], m); }
  }

  function WrittenOrder(orders: map<Json, seq<string>>, v: Json): seq<string> { if v in orders then orders[v] else [] }

  /** Document.tree: a literal's keys in the order it is written in. */
  function OrderTree(orders: map<Json, seq<string>>, v: Json): Json
    decreases v
  {
    match v
    case Obj(m) =>
      var keys := Present(WrittenOrder(orders, v), m);
      PresentIn(WrittenOrder(orders, v), m);
      Ord(keys, seq(|keys|, i requires 0 <= i < |keys| => assert keys[i] in m; OrderTree(orders, m[keys[i]])))
    case Arr(l) => Arr(seq(|l|, i requires 0 <= i < |l| => OrderTree(orders, l[i])))
    case _ => Null
  }

  /** Document.stamp */
  function Stamped(orders: map<Json, seq<string>>, n: Node, out: Node, at: Place): Node {
    if !at.InSchema? then out else
      var props := if NodeAt(n, "properties").Some? && n["properties"] in orders
        then out[ORDER_KEYWORD := Arr(Strs(orders[n["properties"]]))] else out;
      var trees := LiteralTrees(orders, n);
      if trees != map[] then props[LITERAL_KEYWORD := Obj(trees)] else props
  }

  predicate IsStamp(k: string) { k == ORDER_KEYWORD || k == LITERAL_KEYWORD }

  /** Stamping touches no other key, and what it writes holds no reference. */
  lemma {:induction false} StampAddsOnly(orders: map<Json, seq<string>>, n: Node, out: Node, at: Place)
    ensures var s := Stamped(orders, n, out, at);
      (forall k | !IsStamp(k) :: k in s <==> k in out) && (forall k | k in out && !IsStamp(k) :: s[k] == out[k]) &&
      (forall k | k in s && IsStamp(k) :: (k in out && s[k] == out[k]) || Refs(s[k]) == {})
  {
    TreesHaveNoRefs(orders, n);
    if NodeAt(n, "properties").Some? && n["properties"] in orders { StrsHaveNoRefs(orders[n["properties"]]); }
  }

  function LiteralTrees(orders: map<Json, seq<string>>, n: Node): Node {
    map k | k in n && IsLiteralKeyword(k) && HoldsObject(n[k]) :: OrderTree(orders, n[k])
  }

  lemma {:induction false} TreesHaveNoRefs(orders: map<Json, seq<string>>, n: Node)
    ensures Refs(Obj(LiteralTrees(orders, n))) == {}
  {
    var trees := LiteralTrees(orders, n);
    forall k | k in trees ensures Refs(trees[k]) == {} { TreeHasNoRefs(orders, n[k]); }
    assert StrAt(trees, "$ref").None?;
  }

  lemma {:induction false} StrsHaveNoRefs(names: seq<string>)
    ensures Refs(Arr(Strs(names))) == {}
  {
    forall i | 0 <= i < |Strs(names)| ensures Refs(Strs(names)[i]) == {} {}
  }

  lemma {:induction false} TreeHasNoRefs(orders: map<Json, seq<string>>, v: Json)
    ensures Refs(OrderTree(orders, v)) == {}
  {
    if v.Arr? {
      forall i | 0 <= i < |v.items|
        ensures Refs(OrderTree(orders, v.items[i])) == {}
      {
        TreeHasNoRefs(orders, v.items[i]);
      }
    }
  }
}
