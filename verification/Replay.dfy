/** What one stream of draws makes of a schema (internal/generator/generator.go): Generator.value as a
    function of the stream. The methods of module Generator compute it; what all streams together
    make is the relation Yields. */
module Replay {
  import opened JsonValues
  import opened Sorting
  import opened SchemaTypes
  import opened SchemaMerge
  import opened Draws
  import opened Streams
  import opened Generation
  import opened Outcomes

  // ----- Single draws -----

  /** The types of a list but null, in order. */
  function Others(types: seq<string>): seq<string> {
    if types == [] then [] else
      var before := Others(types[..|types| - 1]);
      if types[|types| - 1] == "null" then before else before + [types[|types| - 1]]
  }

  /** drawType; a list of one type draws nothing. */
  function TypeDrawn(types: seq<string>, st: Stream, pos: nat): (string, nat)
    requires types != []
  {
    if |types| == 1 then (types[0], pos)
    else if |Others(types)| == 0 then ("null", pos + 1)
    else if |Others(types)| == |types| then (Others(types)[st.Pick(pos, |types|)], pos + 1)
    else if st.Chance(pos, 30) then ("null", pos + 1)
    else (Others(types)[st.Pick(pos + 1, |Others(types)|)], pos + 2)
  }

  /** shouldInclude: none where it panics. */
  ghost function IncludeDrawn(required: seq<Json>, name: string, st: Stream, pos: nat): Run<bool> {
    if !Readable(required, name) then Run(None, pos)
    else if Str(name) in required then Run(Some(true), pos)
    else Run(Some(st.Chance(pos, 85)), pos + 1)
  }

  ghost function RunLiteral(s: Node, st: Stream, pos: nat): Run<Outcome>
    requires LiteralsOf(s) != []
  {
    if "example" in s || NonEmpty(ListAt(s, "examples")) || "const" in s then Run(Some(Value(LiteralsOf(s)[0])), pos)
    else Run(Some(Value(LiteralsOf(s)[st.Pick(pos, |LiteralsOf(s)|)])), pos + 1)
  }

  function RunLeaf(s: Node, t: string, st: Stream, pos: nat): (r: Run<Outcome>)
    ensures r.made.Some? && r.made.value.Value?
  {
    if t == "string" then Run(Some(Value(Str(st.texts(pos)))), pos + 1)
    else if t == "integer" then
      Run(Some(Value(Num(IntOf(st.Word(pos), IntegerMin(s), IntegerMax(s)) as real))),
          if IntegerMax(s) <= IntegerMin(s) then pos else pos + 1)
    else if t == "number" then
      Run(Some(Value(Num(FloatOf(st.Word(pos), NumberMin(s), NumberMax(s))))),
          if NumberMax(s) <= NumberMin(s) then pos else pos + 1)
    else if t == "boolean" then Run(Some(Value(Bool(st.Chance(pos, 50)))), pos + 1)
    else Run(Some(Value(Null)), pos)
  }

  // ----- The generator -----

  ghost function RunNode(defs: Node, s: Node, depth: nat, st: Stream, pos: nat): Run<Outcome>
    requires depth <= MAX_DEPTH
    decreases MAX_DEPTH - depth, Height(Obj(s)), 5
  {
    if StrAt(s, "$ref").Some? then RunRef(defs, s["$ref"].s, depth, st, pos)
    else if LiteralsOf(s) != [] then RunLiteral(s, st, pos)
    else if ListAt(s, "allOf").Some? then
      if MergeAll(s["allOf"].items).None? then Run(None, pos) else
        AllOfShrinks(s);
        RunNode(defs, MergeAll(s["allOf"].items).value, depth, st, pos)
    else if Branches(s) != [] then
      BranchesHeight(s);
      RunChoice(defs, Branches(s), depth, st, pos)
    else RunTyped(defs, s, depth, st, pos)
  }

  /** One of some branches. */
  ghost function RunChoice(defs: Node, branches: seq<Json>, depth: nat, st: Stream, pos: nat): Run<Outcome>
    requires depth <= MAX_DEPTH && branches != []
    decreases MAX_DEPTH - depth, Height(Arr(branches)), 0
  {
    var i := st.Pick(pos, |branches|);
    HeightItem(branches, i);
    if branches[i].Obj? then RunNode(defs, branches[i].fields, depth, st, pos + 1) else Run(None, pos + 1)
  }

  ghost function RunRef(defs: Node, ref: string, depth: nat, st: Stream, pos: nat): Run<Outcome>
    requires depth <= MAX_DEPTH
    decreases MAX_DEPTH - depth, 0, 0
  {
    if LookupDef(defs, ref).None? then Run(None, pos) else
      var target := LookupDef(defs, ref).value;
      if depth == MAX_DEPTH then
        Run(Some(if TypeList(target).Some? && "null" in TypeList(target).value then Value(Null) else Absent), pos)
      else RunNode(defs, target, depth + 1, st, pos)
  }

  ghost function RunTyped(defs: Node, s: Node, depth: nat, st: Stream, pos: nat): (r: Run<Outcome>)
    requires depth <= MAX_DEPTH
    ensures r.made.Some? ==> r.made.value.Value?
    decreases MAX_DEPTH - depth, Height(Obj(s)), 4
  {
    if TypeList(s).None? then Run(None, pos) else
      TypesOfShape(s["type"]);
      var (t, next) := TypeDrawn(TypeList(s).value, st, pos);
      RunOfType(defs, s, t, depth, st, next)
  }

  ghost function RunOfType(defs: Node, s: Node, t: string, depth: nat, st: Stream, pos: nat): (r: Run<Outcome>)
    requires depth <= MAX_DEPTH
    ensures r.made.Some? ==> r.made.value.Value?
    decreases MAX_DEPTH - depth, Height(Obj(s)), 3
  {
    if t == "object" then
      var vals := RunProps(defs, s, depth, DrawOrder(s), |DrawOrder(s)|, st, pos);
      if vals.made.None? then Run(None, vals.pos) else Run(Some(Value(ObjectOf(s, vals.made.value))), vals.pos)
    else if t == "array" then RunArray(defs, s, depth, st, pos)
    else RunLeaf(s, t, st, pos)
  }

  /** The properties in the order they are drawn in. */
  function DrawOrder(s: Node): (names: seq<string>)
    ensures Distinct(names) && Elements(names) == PropsOf(s).Keys
    ensures forall i | 0 <= i < |names| :: names[i] in PropsOf(s)
  {
    var names := SortStrings(PropsOf(s).Keys);
    assert forall i | 0 <= i < |names| :: names[i] in Elements(names);
    names
  }

  /** The first n of some properties: the values of those drawn that are not absent. */
  ghost function RunProps(defs: Node, s: Node, depth: nat, names: seq<string>, n: nat, st: Stream, pos: nat)
    : (r: Run<map<string, Json>>)
    requires depth <= MAX_DEPTH && n <= |names| && forall i | 0 <= i < |names| :: names[i] in PropsOf(s)
    ensures r.made.Some? ==> r.made.value.Keys <= PropsOf(s).Keys
    decreases MAX_DEPTH - depth, Height(Obj(s)), 1, n
  {
    if n == 0 then Run(Some(map[]), pos) else
      var before := RunProps(defs, s, depth, names, n - 1, st, pos);
      if before.made.None? then before else
        var o := RunProp(defs, s, names[n - 1], depth, st, before.pos);
        Run(if o.made.None? then None else Some(WithProp(before.made.value, names[n - 1], o.made.value)), o.pos)
  }

  function WithProp(vals: map<string, Json>, name: string, o: Outcome): map<string, Json> {
    if o.Value? then vals[name := o.v] else vals
  }

  /** One property: absent where it is drawn so. */
  ghost function RunProp(defs: Node, s: Node, name: string, depth: nat, st: Stream, pos: nat): Run<Outcome>
    requires depth <= MAX_DEPTH && name in PropsOf(s)
    decreases MAX_DEPTH - depth, Height(Obj(s)), 0, 0
  {
    if !PropsOf(s)[name].Obj? then Run(None, pos) else
      var wanted := IncludeDrawn(ListAt(s, "required").GetOr([]), name, st, pos);
      if wanted.made.None? then Run(None, wanted.pos)
      else if !wanted.made.value then Run(Some(Absent), wanted.pos)
      else
        PropsHeight(s);
        HeightField(PropsOf(s), name);
        RunNode(defs, PropsOf(s)[name].fields, depth, st, wanted.pos)
  }

  ghost function RunArray(defs: Node, s: Node, depth: nat, st: Stream, pos: nat): (r: Run<Outcome>)
    requires depth <= MAX_DEPTH
    ensures r.made.Some? ==> r.made.value.Value?
    decreases MAX_DEPTH - depth, Height(Obj(s)), 1, 0
  {
    if NodeAt(s, "items").None? then Run(Some(Value(Arr([]))), pos) else
      HeightField(s, "items");
      var count := IntOf(st.Word(pos), MinItems(s), MaxItems(s));
      var next := if MaxItems(s) <= MinItems(s) then pos else pos + 1;
      if count < 0 then Run(None, next) else
        var vals := RunItems(defs, s["items"].fields, count, depth, st, next);
        Run(if vals.made.None? then None else Some(Value(Arr(vals.made.value))), vals.pos)
  }

  /** count items, absent ones left out. */
  ghost function RunItems(defs: Node, items: Node, count: nat, depth: nat, st: Stream, pos: nat): Run<seq<Json>>
    requires depth <= MAX_DEPTH
    decreases MAX_DEPTH - depth, Height(Obj(items)), 6, count
  {
    if count == 0 then Run(Some([]), pos) else
      var before := RunItems(defs, items, count - 1, depth, st, pos);
      if before.made.None? then before else
        var o := RunNode(defs, items, depth, st, before.pos);
        Run(if o.made.None? then None else Some(WithItem(before.made.value, o.made.value)), o.pos)
  }

  lemma {:induction false} RunCounted(defs: Node, s: Node, count: nat, depth: nat, st: Stream, pos: nat, next: nat)
    requires depth <= MAX_DEPTH && NodeAt(s, "items").Some?
    requires IntOf(st.Word(pos), MinItems(s), MaxItems(s)) == count
    requires next == if MaxItems(s) <= MinItems(s) then pos else pos + 1
    ensures var vals := RunItems(defs, s["items"].fields, count, depth, st, next);
            RunArray(defs, s, depth, st, pos) ==
              Run(if vals.made.None? then None else Some(Value(Arr(vals.made.value))), vals.pos)
  {
    HeightField(s, "items");
  }

  function WithItem(vals: seq<Json>, o: Outcome): seq<Json> { if o.Value? then vals + [o.v] else vals }

  // ----- Whatever a stream makes is an outcome -----

  lemma {:induction false} OthersAre(types: seq<string>)
    ensures forall t :: t in Others(types) <==> t in types && t != "null"
    ensures |Others(types)| <= |types| && (|Others(types)| == |types| <==> "null" !in types)
    ensures "null" !in types ==> Others(types) == types
  {
    if types != [] {
      OthersAre(types[..|types| - 1]);
      assert types == types[..|types| - 1] + [types[|types| - 1]];
    }
  }

  lemma {:induction false} SomeOther(types: seq<string>)
    requires |types| > 1 && Distinct(types)
    ensures |Others(types)| > 0
  {
    OthersAre(types);
    assert types[0] in types && types[1] in types;
    assert types[0] in Others(types) || types[1] in Others(types);
  }

  lemma {:induction false} TypeIsListed(types: seq<string>, st: Stream, pos: nat)
    requires types != []
    ensures TypeDrawn(types, st, pos).0 in types
  {
    OthersAre(types);
  }

  /** What a stream makes of a node is one of its outcomes, and where it makes none the generator
      does not answer. */
  lemma {:induction false} RunIsOutcome(defs: Node, s: Node, depth: nat, st: Stream, pos: nat)
    requires depth <= MAX_DEPTH
    ensures var r := RunNode(defs, s, depth, st, pos).made;
            if r.Some? then Yields(defs, s, depth, r.value) else !Answerable(defs, s, depth)
    decreases MAX_DEPTH - depth, Height(Obj(s)), 5
  {
    if StrAt(s, "$ref").Some? {
      var target := LookupDef(defs, s["$ref"].s);
      if target.Some? && depth < MAX_DEPTH { RunIsOutcome(defs, target.value, depth + 1, st, pos); }
    } else if LiteralsOf(s) != [] {
    } else if ListAt(s, "allOf").Some? {
      if MergeAll(s["allOf"].items).Some? {
        AllOfShrinks(s);
        RunIsOutcome(defs, MergeAll(s["allOf"].items).value, depth, st, pos);
      }
    } else if Branches(s) != [] {
      var i := st.Pick(pos, |Branches(s)|);
      if Branches(s)[i].Obj? {
        BranchHeight(s, i);
        RunIsOutcome(defs, Branches(s)[i].fields, depth, st, pos + 1);
      }
    } else if TypeList(s).Some? {
      TypesOfShape(s["type"]);
      var (t, next) := TypeDrawn(TypeList(s).value, st, pos);
      TypeIsListed(TypeList(s).value, st, pos);
      TypedIsOutcome(defs, s, t, depth, st, next);
    }
  }

  lemma {:induction false} TypedIsOutcome(defs: Node, s: Node, t: string, depth: nat, st: Stream, pos: nat)
    requires depth <= MAX_DEPTH && JsonType(t)
    ensures var r := RunOfType(defs, s, t, depth, st, pos).made;
            if r.Some? then YieldsTyped(defs, s, t, depth, r.value)
            else (t == "object" && !AnswerableObject(defs, s, depth)) ||
                 (t == "array" && !AnswerableArray(defs, s, depth))
    decreases MAX_DEPTH - depth, Height(Obj(s)), 3
  {
    if t == "object" {
      var names := DrawOrder(s);
      PropsAreChosen(defs, s, depth, names, |names|, st, pos);
      var r := RunProps(defs, s, depth, names, |names|, st, pos).made;
      if r.Some? { AllChosen(defs, s, depth, names, r.value); }
    } else if t == "array" {
      ArrayIsOutcome(defs, s, depth, st, pos);
    } else {
      LeafIsOutcome(s, t, st, pos);
    }
  }

  lemma {:induction false} AllChosen(defs: Node, s: Node, depth: nat, names: seq<string>, vals: map<string, Json>)
    requires depth <= MAX_DEPTH && Elements(names) == PropsOf(s).Keys && Elements(names[..|names|]) <= PropsOf(s).Keys
    requires ChosenFrom(defs, s, depth, Elements(names[..|names|]), vals)
    ensures YieldsObject(defs, s, depth, ObjectOf(s, vals).keys, ObjectOf(s, vals).vals)
  {
    assert names[..|names|] == names;
    assert forall name | name in PropsOf(s) :: PropReadable(s, name);
    ObjectIsYielded(defs, s, depth, vals);
  }

  lemma {:induction false} LeafIsOutcome(s: Node, t: string, st: Stream, pos: nat)
    requires JsonType(t) && t != "object" && t != "array"
    ensures YieldsLeaf(s, t, RunLeaf(s, t, st, pos).made.value.v)
  {
    if t == "integer" { IntInRange(st.Word(pos), IntegerMin(s), IntegerMax(s)); }
  }

  ghost predicate PropReadable(s: Node, name: string) {
    name in PropsOf(s) && PropsOf(s)[name].Obj? && Readable(ListAt(s, "required").GetOr([]), name)
  }

  /** Of the first n properties, values for those that have one and absences for the required ones
      that have none. */
  ghost predicate ChosenFrom(defs: Node, s: Node, depth: nat, names: set<string>, vals: map<string, Json>)
    requires depth <= MAX_DEPTH && names <= PropsOf(s).Keys
  {
    vals.Keys <= names
    && (forall name | name in names :: PropReadable(s, name))
    && (forall name | name in vals :: YieldsProp(defs, PropsOf(s), name, depth, Outcome.Value(vals[name])))
    && (forall name | name in names && name !in vals && Required(s, name) ::
          YieldsProp(defs, PropsOf(s), name, depth, Absent))
  }

  lemma {:induction false} PropsAreChosen(defs: Node, s: Node, depth: nat, names: seq<string>, n: nat, st: Stream,
                                          pos: nat)
    requires depth <= MAX_DEPTH && n <= |names| && forall i | 0 <= i < |names| :: names[i] in PropsOf(s)
    requires Distinct(names)
    ensures var r := RunProps(defs, s, depth, names, n, st, pos).made;
            if r.Some? then
              Elements(names[..n]) <= PropsOf(s).Keys && ChosenFrom(defs, s, depth, Elements(names[..n]), r.value)
            else !AnswerableObject(defs, s, depth)
    decreases MAX_DEPTH - depth, Height(Obj(s)), 1, n
  {
    if n > 0 {
      PropsAreChosen(defs, s, depth, names, n - 1, st, pos);
      var before := RunProps(defs, s, depth, names, n - 1, st, pos);
      if before.made.Some? {
        var name := names[n - 1];
        PropIsOutcome(defs, s, name, depth, st, before.pos);
        var o := RunProp(defs, s, name, depth, st, before.pos).made;
        if o.Some? {
          NextName(names, n - 1);
          OneMoreChosen(defs, s, depth, Elements(names[..n - 1]), before.made.value, name, o.value);
        }
      }
    }
  }

  lemma {:induction false} NextName(names: seq<string>, i: nat)
    requires Distinct(names) && i < |names|
    ensures names[i] !in Elements(names[..i]) && Elements(names[..i + 1]) == Elements(names[..i]) + {names[i]}
  {
    assert names[..i + 1] == names[..i] + [names[i]];
  }

  lemma {:induction false} OneMoreChosen(defs: Node, s: Node, depth: nat, names: set<string>, vals: map<string, Json>,
                                         name: string, o: Outcome)
    requires depth <= MAX_DEPTH && names <= PropsOf(s).Keys && name in PropsOf(s) && name !in names
    requires ChosenFrom(defs, s, depth, names, vals) && PropReadable(s, name)
    requires o.Value? || Required(s, name) ==> YieldsProp(defs, PropsOf(s), name, depth, o)
    ensures ChosenFrom(defs, s, depth, names + {name}, WithProp(vals, name, o))
  {
  }

  lemma {:induction false} PropIsOutcome(defs: Node, s: Node, name: string, depth: nat, st: Stream, pos: nat)
    requires depth <= MAX_DEPTH && name in PropsOf(s)
    ensures var r := RunProp(defs, s, name, depth, st, pos).made;
            if r.Some? then
              PropReadable(s, name) &&
              (r.value.Value? || Required(s, name) ==> YieldsProp(defs, PropsOf(s), name, depth, r.value))
            else !AnswerableProp(defs, s, name, depth)
    decreases MAX_DEPTH - depth, Height(Obj(s)), 0, 0
  {
    if PropsOf(s)[name].Obj? {
      var wanted := IncludeDrawn(ListAt(s, "required").GetOr([]), name, st, pos);
      PropsHeight(s);
      HeightField(PropsOf(s), name);
      if wanted.made == Some(true) { RunIsOutcome(defs, PropsOf(s)[name].fields, depth, st, wanted.pos); }
    }
  }

  lemma {:induction false} ArrayIsOutcome(defs: Node, s: Node, depth: nat, st: Stream, pos: nat)
    requires depth <= MAX_DEPTH
    ensures var r := RunArray(defs, s, depth, st, pos).made;
            if r.Some? then r.value.v.Arr? && YieldsArray(defs, s, depth, r.value.v.items)
            else !AnswerableArray(defs, s, depth)
    decreases MAX_DEPTH - depth, Height(Obj(s)), 1, 0
  {
    if NodeAt(s, "items").Some? {
      HeightField(s, "items");
      var count := IntOf(st.Word(pos), MinItems(s), MaxItems(s));
      IntInRange(st.Word(pos), MinItems(s), MaxItems(s));
      if count >= 0 {
        var next := if MaxItems(s) <= MinItems(s) then pos else pos + 1;
        ItemsAreOutcomes(defs, s["items"].fields, count, depth, st, next);
      }
    }
  }

  lemma {:induction false} ItemsAreOutcomes(defs: Node, items: Node, count: nat, depth: nat, st: Stream, pos: nat)
    requires depth <= MAX_DEPTH
    ensures var r := RunItems(defs, items, count, depth, st, pos).made;
            if r.Some? then ItemsFrom(defs, items, depth, r.value, count)
            else count > 0 && !Answerable(defs, items, depth)
    decreases MAX_DEPTH - depth, Height(Obj(items)), 6, count
  {
    if count > 0 {
      ItemsAreOutcomes(defs, items, count - 1, depth, st, pos);
      var before := RunItems(defs, items, count - 1, depth, st, pos);
      if before.made.Some? {
        RunIsOutcome(defs, items, depth, st, before.pos);
        var o := RunNode(defs, items, depth, st, before.pos).made;
        if o.Some? { ItemsFurther(defs, items, depth, before.made.value, count - 1, o.value); }
      }
    }
  }

  lemma {:induction false} ItemsFurther(defs: Node, items: Node, depth: nat, vals: seq<Json>, count: nat, o: Outcome)
    requires depth <= MAX_DEPTH && ItemsFrom(defs, items, depth, vals, count) && Yields(defs, items, depth, o)
    ensures ItemsFrom(defs, items, depth, WithItem(vals, o), count + 1)
  {
  }

  /** Items made in so many turns: each an outcome, and fewer only where the items can be absent. */
  ghost predicate ItemsFrom(defs: Node, items: Node, depth: nat, vals: seq<Json>, count: nat)
    requires depth <= MAX_DEPTH
  {
    |vals| <= count && (forall i | 0 <= i < |vals| :: Yields(defs, items, depth, Outcome.Value(vals[i]))) &&
    (|vals| < count ==> Yields(defs, items, depth, Absent))
  }
}
