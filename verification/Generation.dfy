/** What the JSON Schema generator can produce (internal/generator/generator.go), as a relation
    over every stream of draws: Yields(defs, s, depth, o) holds of each outcome o that some
    draws lead Generator.value to. The methods of module Generator refine it. */
module Generation {
  import opened JsonValues
  import opened Sorting
  import opened PropertyOrder
  import opened SchemaTypes
  import opened SchemaMerge
  import opened Literals
  import opened PointerTokens
  import opened Draws

  /** The $ref depth budget, maxRecursionDepth. */
  const MAX_DEPTH: nat := 8

  /** What one node comes to: a value, or errAbsent. Errors that stop the run are not outcomes. */
  datatype Outcome = Value(v: Json) | Absent

  const DEFS_PREFIX := "#/$defs/"

  /** lookupDef: a local $ref into the schema's own $defs. */
  function LookupDef(defs: Node, ref: string): Option<Node> {
    if !HasPrefix(ref, DEFS_PREFIX) then None
    else NodeAt(defs, UnescapeToken(ref[|DEFS_PREFIX|..]))
  }

  function DefsOf(s: Node): Node { NodeAt(s, "$defs").GetOr(map[]) }

  // ----- Literals the generator returns as they are -----

  /** literalOf's order tree: the keyword's, or the index-th of a list of them. */
  function LiteralTree(s: Node, keyword: string, index: int): Json {
    var trees := NodeAt(s, LITERAL_KEYWORD).GetOr(map[]);
    var tree := if keyword in trees then trees[keyword] else Null;
    if index >= 0 then ItemTree(tree, index) else tree
  }

  function NonEmpty(l: Option<seq<Json>>): bool { l.Some? && l.value != [] }

  /** literalKeyword: whether the generator answers s with a literal. */
  predicate IsLiteral(s: Node) {
    "example" in s || NonEmpty(ListAt(s, "examples")) || "const" in s || NonEmpty(ListAt(s, "enum"))
  }

  /** The literals value answers s with, in place of building a value; [] when it builds one. */
  ghost function LiteralsOf(s: Node): seq<Json> {
    if "example" in s then [OrderLiteral(s["example"], LiteralTree(s, "example", -1))]
    else if NonEmpty(ListAt(s, "examples")) then
      [OrderLiteral(s["examples"].items[0], LiteralTree(s, "examples", 0))]
    else if "const" in s then [OrderLiteral(s["const"], LiteralTree(s, "const", -1))]
    else if NonEmpty(ListAt(s, "enum")) then
      seq(|s["enum"].items|, i requires 0 <= i < |s["enum"].items| =>
            OrderLiteral(s["enum"].items[i], LiteralTree(s, "enum", i)))
    else []
  }

  /** The alternatives value picks from. */
  function Branches(s: Node): seq<Json> {
    if NonEmpty(ListAt(s, "oneOf")) then s["oneOf"].items
    else if NonEmpty(ListAt(s, "anyOf")) then s["anyOf"].items
    else []
  }

  lemma BranchHeight(s: Node, i: nat)
    requires i < |Branches(s)|
    ensures Height(Branches(s)[i]) < Height(Obj(s))
  {
    var k := if NonEmpty(ListAt(s, "oneOf")) then "oneOf" else "anyOf";
    HeightField(s, k);
    HeightItem(s[k].items, i);
  }

  lemma BranchesHeight(s: Node)
    requires Branches(s) != []
    ensures Height(Arr(Branches(s))) < Height(Obj(s))
  {
    var k := if NonEmpty(ListAt(s, "oneOf")) then "oneOf" else "anyOf";
    HeightField(s, k);
  }

  // ----- Leaves -----

  function MinItems(s: Node): int {
    if NumAt(s, "minItems").Some? then ToInt64(s["minItems"].n) else 1
  }

  function MaxItems(s: Node): int {
    if NumAt(s, "maxItems").Some? then ToInt64(s["maxItems"].n) else 5
  }

  function IntegerMin(s: Node): int {
    if NumAt(s, "exclusiveMinimum").Some? then Wrap64(ToInt64(s["exclusiveMinimum"].n) + 1)
    else if NumAt(s, "minimum").Some? then ToInt64(s["minimum"].n) else 0
  }

  function IntegerMax(s: Node): int {
    if NumAt(s, "exclusiveMaximum").Some? then Wrap64(ToInt64(s["exclusiveMaximum"].n) - 1)
    else if NumAt(s, "maximum").Some? then ToInt64(s["maximum"].n) else 1000
  }

  function NumberMin(s: Node): real {
    if NumAt(s, "exclusiveMinimum").Some? then s["exclusiveMinimum"].n + 0.01
    else if NumAt(s, "minimum").Some? then s["minimum"].n else 0.0
  }

  function NumberMax(s: Node): real {
    if NumAt(s, "exclusiveMaximum").Some? then s["exclusiveMaximum"].n - 0.01
    else if NumAt(s, "maximum").Some? then s["maximum"].n else 1000.0
  }

  ghost predicate YieldsLeaf(s: Node, t: string, v: Json) {
    if t == "string" then v.Str?
    else if t == "integer" then exists n :: Drawn(n, IntegerMin(s), IntegerMax(s)) && v == Num(n as real)
    else if t == "number" then
      exists w: nat :: w < TWO_64 && v == Num(FloatOf(w, NumberMin(s), NumberMax(s)))
    else if t == "boolean" then v.Bool?
    else t == "null" && v == Null
  }

  // ----- The relation -----

  ghost predicate Yields(defs: Node, s: Node, depth: nat, o: Outcome)
    requires depth <= MAX_DEPTH
    decreases MAX_DEPTH - depth, Height(Obj(s)), 3
  {
    if StrAt(s, "$ref").Some? then YieldsRef(defs, s["$ref"].s, depth, o)
    else if LiteralsOf(s) != [] then o.Value? && o.v in LiteralsOf(s)
    else if ListAt(s, "allOf").Some? then
      MergeAll(s["allOf"].items).Some? &&
      (AllOfShrinks(s); Yields(defs, MergeAll(s["allOf"].items).value, depth, o))
    else if Branches(s) != [] then
      exists i :: 0 <= i < |Branches(s)| && Branches(s)[i].Obj? &&
                  (BranchHeight(s, i); Yields(defs, Branches(s)[i].fields, depth, o))
    else TypeList(s).Some? && exists t :: t in TypeList(s).value && YieldsTyped(defs, s, t, depth, o)
  }

  /** refValue: past the budget a node is absent, or null where its type allows. */
  ghost predicate YieldsRef(defs: Node, ref: string, depth: nat, o: Outcome)
    requires depth <= MAX_DEPTH
    decreases MAX_DEPTH - depth, 0, 0
  {
    LookupDef(defs, ref).Some? &&
    var target := LookupDef(defs, ref).value;
    if depth == MAX_DEPTH then
      o == if TypeList(target).Some? && "null" in TypeList(target).value then Value(Null) else Absent
    else Yields(defs, target, depth + 1, o)
  }

  ghost predicate YieldsTyped(defs: Node, s: Node, t: string, depth: nat, o: Outcome)
    requires depth <= MAX_DEPTH
    decreases MAX_DEPTH - depth, Height(Obj(s)), 2
  {
    o.Value? &&
    if t == "object" then o.v.Ord? && YieldsObject(defs, s, depth, o.v.keys, o.v.vals)
    else if t == "array" then o.v.Arr? && YieldsArray(defs, s, depth, o.v.items)
    else YieldsLeaf(s, t, o.v)
  }

  lemma PropsHeight(s: Node)
    ensures Height(Obj(PropsOf(s))) <= Height(Obj(s))
  {
    if NodeAt(s, "properties").Some? { HeightField(s, "properties"); }
    else { var none: Node := map[]; HeightObjBound(none, 1); }
  }

  ghost predicate Required(s: Node, name: string) {
    ListAt(s, "required").Some? && Str(name) in s["required"].items
  }

  /** The keys an object comes out with: those drawn, in declared order. */
  ghost function Emitted(order: seq<string>, drawn: set<string>): seq<string> {
    if order == [] then [] else
      var before := Emitted(order[..|order| - 1], drawn);
      if order[|order| - 1] in drawn then before + [order[|order| - 1]] else before
  }

  lemma {:induction false} EmittedExact(order: seq<string>, drawn: set<string>)
    requires Distinct(order)
    ensures Distinct(Emitted(order, drawn))
    ensures Elements(Emitted(order, drawn)) == Elements(order) * drawn
  {
    if order != [] {
      var init := order[..|order| - 1];
      var last := order[|order| - 1];
      EmittedExact(init, drawn);
      assert order == init + [last];
      ElementsSnoc(init, last);
      ElementsSnoc(Emitted(init, drawn), last);
      assert last !in Elements(init);
      assert forall x | x in Emitted(init, drawn) :: x in Elements(Emitted(init, drawn));
    }
  }

  /** The keys drawn stand in the declared order. */
  lemma {:induction false} EmittedInOrder(order: seq<string>, drawn: set<string>, i: nat, j: nat)
    requires i < j < |Emitted(order, drawn)| && Distinct(order)
    ensures exists p, q :: 0 <= p < q < |order| && order[p] == Emitted(order, drawn)[i] &&
                           order[q] == Emitted(order, drawn)[j]
  {
    var init, keys := order[..|order| - 1], Emitted(order[..|order| - 1], drawn);
    assert keys <= Emitted(order, drawn);
    if j < |keys| {
      EmittedInOrder(init, drawn, i, j);
      var p, q :| 0 <= p < q < |init| && init[p] == keys[i] && init[q] == keys[j];
      assert order[p] == keys[i] && order[q] == keys[j];
    } else {
      EmittedExact(init, drawn);
      assert keys[i] in Elements(keys);
      var p :| 0 <= p < |init| && init[p] == keys[i];
      assert order[p] == keys[i] && order[|order| - 1] == Emitted(order, drawn)[j];
    }
  }

  /** shouldInclude reads its way to name, or to the end, without meeting an entry that is no string. */
  ghost predicate Readable(required: seq<Json>, name: string) {
    forall i | 0 <= i < |required| && !required[i].Str? :: Str(name) in required[..i]
  }

  /** No property stops the generator whatever is drawn: each is a schema, and required can be read. */
  ghost predicate PropsReadable(s: Node) {
    forall name | name in PropsOf(s) :: PropsOf(s)[name].Obj? && Readable(ListAt(s, "required").GetOr([]), name)
  }

  /** An object: every property it holds has a value its schema yields, every required one
      it lacks came out absent, and the keys stand in declared order. */
  ghost predicate YieldsObject(defs: Node, s: Node, depth: nat, keys: seq<string>, vals: seq<Json>)
    requires depth <= MAX_DEPTH
    decreases MAX_DEPTH - depth, Height(Obj(s)), 1
  {
    var props := PropsOf(s);
    PropsHeight(s);
    && |keys| == |vals| && Distinct(keys) && PropsReadable(s)
    && keys == Emitted(DeclaredOrder(s, props.Keys), Elements(keys))
    && (forall i | 0 <= i < |keys| ::
          keys[i] in props && YieldsProp(defs, props, keys[i], depth, Value(vals[i])))
    && (forall name | name in props && name !in keys && Required(s, name) ::
          YieldsProp(defs, props, name, depth, Absent))
  }

  ghost predicate YieldsProp(defs: Node, props: Node, name: string, depth: nat, o: Outcome)
    requires depth <= MAX_DEPTH && name in props
    decreases MAX_DEPTH - depth, Height(Obj(props)), 0
  {
    HeightField(props, name);
    props[name].Obj? && Yields(defs, props[name].fields, depth, o)
  }

  /** An array: no longer than the count drawn, and shorter only where an item came out absent. */
  ghost predicate YieldsArray(defs: Node, s: Node, depth: nat, vals: seq<Json>)
    requires depth <= MAX_DEPTH
    decreases MAX_DEPTH - depth, Height(Obj(s)), 1
  {
    if NodeAt(s, "items").None? then vals == [] else
      var items := s["items"].fields;
      HeightField(s, "items");
      && (forall i | 0 <= i < |vals| :: Yields(defs, items, depth, Value(vals[i])))
      && exists count :: Drawn(count, MinItems(s), MaxItems(s)) && 0 <= count && |vals| <= count
                         && (|vals| < count ==> Yields(defs, items, depth, Absent))
  }

  // ----- When generation cannot fail -----

  /** No draws stop the generator at this node: everything it can reach within the depth budget
      is a schema it handles. */
  ghost predicate Answerable(defs: Node, s: Node, depth: nat)
    requires depth <= MAX_DEPTH
    decreases MAX_DEPTH - depth, Height(Obj(s)), 3
  {
    if StrAt(s, "$ref").Some? then AnswerableRef(defs, s["$ref"].s, depth)
    else if IsLiteral(s) then true
    else if ListAt(s, "allOf").Some? then
      MergeAll(s["allOf"].items).Some? &&
      (AllOfShrinks(s); Answerable(defs, MergeAll(s["allOf"].items).value, depth))
    else if Branches(s) != [] then
      forall i | 0 <= i < |Branches(s)| ::
        Branches(s)[i].Obj? && (BranchHeight(s, i); Answerable(defs, Branches(s)[i].fields, depth))
    else
      TypeList(s).Some?
      && ("object" in TypeList(s).value ==> AnswerableObject(defs, s, depth))
      && ("array" in TypeList(s).value ==> AnswerableArray(defs, s, depth))
  }

  ghost predicate AnswerableRef(defs: Node, ref: string, depth: nat)
    requires depth <= MAX_DEPTH
    decreases MAX_DEPTH - depth, 0, 0
  {
    LookupDef(defs, ref).Some? && (depth < MAX_DEPTH ==> Answerable(defs, LookupDef(defs, ref).value, depth + 1))
  }

  ghost predicate AnswerableObject(defs: Node, s: Node, depth: nat)
    requires depth <= MAX_DEPTH
    decreases MAX_DEPTH - depth, Height(Obj(s)), 2
  {
    forall name | name in PropsOf(s) :: AnswerableProp(defs, s, name, depth)
  }

  ghost predicate AnswerableProp(defs: Node, s: Node, name: string, depth: nat)
    requires depth <= MAX_DEPTH && name in PropsOf(s)
    decreases MAX_DEPTH - depth, Height(Obj(s)), 1
  {
    PropsHeight(s);
    HeightField(PropsOf(s), name);
    && Readable(ListAt(s, "required").GetOr([]), name)
    && PropsOf(s)[name].Obj? && Answerable(defs, PropsOf(s)[name].fields, depth)
  }

  /** The largest count an array can be drawn with. */
  function MostItems(s: Node): int { if MaxItems(s) <= MinItems(s) then MinItems(s) else MaxItems(s) }

  /** Past a negative minItems a negative count can be drawn, at which the program panics; an array
      that is always empty asks nothing of its items. */
  ghost predicate AnswerableArray(defs: Node, s: Node, depth: nat)
    requires depth <= MAX_DEPTH
    decreases MAX_DEPTH - depth, Height(Obj(s)), 1
  {
    NodeAt(s, "items").Some? ==>
      (HeightField(s, "items");
       0 <= MinItems(s) && (MostItems(s) > 0 ==> Answerable(defs, s["items"].fields, depth)))
  }
}
