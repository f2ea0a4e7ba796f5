/** Every outcome of a schema is what some stream of draws makes of it, and where the generator does
    not answer a schema some stream stops it (internal/generator/generator.go). */
module Reachable {
  import opened JsonValues
  import opened Sorting
  import opened PropertyOrder
  import opened SchemaTypes
  import opened SchemaMerge
  import opened Draws
  import opened Streams
  import opened Generation
  import opened Outcomes
  import opened Replay

  /** Whatever stream goes on with the draws makes the outcome of the node, and nothing more is drawn. */
  ghost predicate Makes(defs: Node, s: Node, depth: nat, ds: seq<Draw>, o: Outcome)
    requires depth <= MAX_DEPTH
  {
    forall st, pos: nat | Feeds(st, pos, ds) :: RunNode(defs, s, depth, st, pos) == Run(Some(o), pos + |ds|)
  }

  /** Whatever stream goes on with the draws is stopped at the node. */
  ghost predicate Stops(defs: Node, s: Node, depth: nat, ds: seq<Draw>)
    requires depth <= MAX_DEPTH
  {
    forall st, pos: nat | Feeds(st, pos, ds) :: RunNode(defs, s, depth, st, pos).made.None?
  }

  // ----- Single draws -----

  /** Draws that pick a type of a list. */
  ghost function TypeDraws(types: seq<string>, t: string): seq<Draw>
    requires t in types
  {
    if |types| == 1 then []
    else if "null" !in types then [Draw(IndexOf(types, t), "")]
    else if t == "null" then [Draw(0, "")]
    else [Draw(99, "")] + [Draw(IndexOf(Others(types), t), "")]
  }

  /** Whatever stream goes on with the draws draws the type, and nothing more. */
  ghost predicate DrawsType(types: seq<string>, t: string, ds: seq<Draw>)
    requires types != []
  {
    forall st, pos: nat | Feeds(st, pos, ds) :: TypeDrawn(types, st, pos) == (t, pos + |ds|)
  }

  lemma {:induction false} TypeReached(types: seq<string>, t: string)
    requires t in types && Distinct(types)
    ensures DrawsType(types, t, TypeDraws(types, t))
  {
    var ds := TypeDraws(types, t);
    forall st, pos: nat | Feeds(st, pos, ds) ensures TypeDrawn(types, st, pos) == (t, pos + |ds|) {
      TypeReachedBy(types, t, st, pos);
    }
  }

  lemma {:induction false} TypeReachedBy(types: seq<string>, t: string, st: Stream, pos: nat)
    requires t in types && Distinct(types) && Feeds(st, pos, TypeDraws(types, t))
    ensures TypeDrawn(types, st, pos) == (t, pos + |TypeDraws(types, t)|)
  {
    OthersAre(types);
    if |types| > 1 {
      SomeOther(types);
      if "null" !in types {
        PickReached(st, pos, IndexOf(types, t), |types|);
      } else if t == "null" {
        ChanceReached(st, pos, 30, true);
      } else {
        FeedsBoth(st, pos, [Draw(99, "")], [Draw(IndexOf(Others(types), t), "")]);
        ChanceReached(st, pos, 30, false);
        PickReached(st, pos + 1, IndexOf(Others(types), t), |Others(types)|);
      }
    }
  }

  // ----- Leaves and literals -----

  lemma {:induction false} LeafReached(s: Node, t: string, v: Json) returns (ds: seq<Draw>)
    requires JsonType(t) && t != "object" && t != "array" && YieldsLeaf(s, t, v)
    ensures forall st, pos: nat | Feeds(st, pos, ds) :: RunLeaf(s, t, st, pos) == Run(Some(Value(v)), pos + |ds|)
  {
    if t == "string" {
      ds := [Draw(0, v.s)];
    } else if t == "integer" {
      var n :| Drawn(n, IntegerMin(s), IntegerMax(s)) && v == Num(n as real);
      var w := IntCovers(IntegerMin(s), IntegerMax(s), n);
      ds := if IntegerMax(s) <= IntegerMin(s) then [] else [Draw(w, "")];
    } else if t == "number" {
      var w: nat :| w < TWO_64 && v == Num(FloatOf(w, NumberMin(s), NumberMax(s)));
      ds := if NumberMax(s) <= NumberMin(s) then [] else [Draw(w, "")];
    } else if t == "boolean" {
      ds := [Draw(if v.b then 0 else 99, "")];
    } else {
      ds := [];
    }
    forall st, pos: nat | Feeds(st, pos, ds) ensures RunLeaf(s, t, st, pos) == Run(Some(Value(v)), pos + |ds|) {
      LeafFrom(s, t, v, ds, st, pos);
    }
  }

  lemma {:induction false} LeafFrom(s: Node, t: string, v: Json, ds: seq<Draw>, st: Stream, pos: nat)
    requires JsonType(t) && t != "object" && t != "array" && YieldsLeaf(s, t, v) && Feeds(st, pos, ds)
    requires t == "string" ==> ds == [Draw(0, v.s)]
    requires t == "integer" ==>
               if IntegerMax(s) <= IntegerMin(s) then ds == [] else
                 |ds| == 1 && ds[0].word < TWO_64 &&
                 v == Num(IntOf(ds[0].word, IntegerMin(s), IntegerMax(s)) as real)
    requires t == "number" ==>
               if NumberMax(s) <= NumberMin(s) then ds == [] else
                 |ds| == 1 && ds[0].word < TWO_64 && v == Num(FloatOf(ds[0].word, NumberMin(s), NumberMax(s)))
    requires t == "boolean" ==> ds == [Draw(if v.b then 0 else 99, "")]
    requires t == "null" ==> ds == []
    ensures RunLeaf(s, t, st, pos) == Run(Some(Value(v)), pos + |ds|)
  {
    if |ds| > 0 { assert st.words(pos + 0) == ds[0].word && st.texts(pos + 0) == ds[0].text; }
    if t == "boolean" { ChanceReached(st, pos, 50, v.b); }
    if |ds| > 0 && ds[0].word < TWO_64 { SmallMod(ds[0].word, TWO_64); }
  }

  lemma {:induction false} LiteralReached(s: Node, v: Json) returns (ds: seq<Draw>)
    requires v in LiteralsOf(s)
    ensures forall st, pos: nat | Feeds(st, pos, ds) :: RunLiteral(s, st, pos) == Run(Some(Value(v)), pos + |ds|)
  {
    var i :| 0 <= i < |LiteralsOf(s)| && LiteralsOf(s)[i] == v;
    if "example" in s || NonEmpty(ListAt(s, "examples")) || "const" in s {
      ds := [];
    } else {
      ds := [Draw(i, "")];
      forall st, pos: nat | Feeds(st, pos, ds) ensures RunLiteral(s, st, pos) == Run(Some(Value(v)), pos + 1) {
        PickReached(st, pos, i, |LiteralsOf(s)|);
      }
    }
  }

  // ----- Whole nodes -----

  lemma {:induction false} Reached(defs: Node, s: Node, depth: nat, o: Outcome) returns (ds: seq<Draw>)
    requires depth <= MAX_DEPTH && Yields(defs, s, depth, o)
    ensures Makes(defs, s, depth, ds, o)
    decreases MAX_DEPTH - depth, Height(Obj(s)), 5
  {
    if StrAt(s, "$ref").Some? {
      ds := RefReached(defs, s, depth, o);
    } else if LiteralsOf(s) != [] {
      ds := LiteralReached(s, o.v);
    } else if ListAt(s, "allOf").Some? {
      AllOfShrinks(s);
      ds := Reached(defs, MergeAll(s["allOf"].items).value, depth, o);
    } else if Branches(s) != [] {
      ds := BranchReached(defs, s, depth, o);
    } else {
      ds := TypedReached(defs, s, depth, o);
    }
  }

  lemma {:induction false} RefReached(defs: Node, s: Node, depth: nat, o: Outcome) returns (ds: seq<Draw>)
    requires depth <= MAX_DEPTH && StrAt(s, "$ref").Some? && Yields(defs, s, depth, o)
    ensures Makes(defs, s, depth, ds, o)
    decreases MAX_DEPTH - depth, Height(Obj(s)), 4
  {
    ds := [];
    if depth < MAX_DEPTH { ds := Reached(defs, LookupDef(defs, s["$ref"].s).value, depth + 1, o); }
  }

  lemma {:induction false} BranchReached(defs: Node, s: Node, depth: nat, o: Outcome) returns (ds: seq<Draw>)
    requires depth <= MAX_DEPTH && StrAt(s, "$ref").None? && LiteralsOf(s) == [] && ListAt(s, "allOf").None?
    requires Branches(s) != [] && Yields(defs, s, depth, o)
    ensures Makes(defs, s, depth, ds, o)
    decreases MAX_DEPTH - depth, Height(Obj(s)), 4
  {
    var i :| 0 <= i < |Branches(s)| && Branches(s)[i].Obj? &&
             (BranchHeight(s, i); Yields(defs, Branches(s)[i].fields, depth, o));
    BranchHeight(s, i);
    var rest := Reached(defs, Branches(s)[i].fields, depth, o);
    ds := [Draw(i, "")] + rest;
    forall st, pos: nat | Feeds(st, pos, ds) ensures RunNode(defs, s, depth, st, pos) == Run(Some(o), pos + |ds|) {
      BranchFrom(defs, s, depth, i, rest, o, st, pos);
    }
  }

  lemma {:induction false} BranchFrom(defs: Node, s: Node, depth: nat, i: nat, rest: seq<Draw>, o: Outcome, st: Stream,
                                      pos: nat)
    requires depth <= MAX_DEPTH && StrAt(s, "$ref").None? && LiteralsOf(s) == [] && ListAt(s, "allOf").None?
    requires i < |Branches(s)| && Branches(s)[i].Obj? && Makes(defs, Branches(s)[i].fields, depth, rest, o)
    requires Feeds(st, pos, [Draw(i, "")] + rest)
    ensures RunNode(defs, s, depth, st, pos) == Run(Some(o), pos + 1 + |rest|)
  {
    FeedsBoth(st, pos, [Draw(i, "")], rest);
    PickReached(st, pos, i, |Branches(s)|);
    RunOfChoice(defs, s, depth, st, pos);
  }

  lemma {:induction false} RunOfChoice(defs: Node, s: Node, depth: nat, st: Stream, pos: nat)
    requires depth <= MAX_DEPTH && StrAt(s, "$ref").None? && LiteralsOf(s) == [] && ListAt(s, "allOf").None?
    requires Branches(s) != []
    ensures var branch := Branches(s)[st.Pick(pos, |Branches(s)|)];
            RunNode(defs, s, depth, st, pos) ==
              if branch.Obj? then RunNode(defs, branch.fields, depth, st, pos + 1) else Run(None, pos + 1)
  {
    BranchesHeight(s);
  }

  lemma {:induction false} TypedReached(defs: Node, s: Node, depth: nat, o: Outcome) returns (ds: seq<Draw>)
    requires depth <= MAX_DEPTH && ByType(s) && Yields(defs, s, depth, o)
    ensures Makes(defs, s, depth, ds, o)
    decreases MAX_DEPTH - depth, Height(Obj(s)), 4
  {
    var types := TypeList(s).value;
    var t :| t in types && YieldsTyped(defs, s, t, depth, o);
    TypesOfShape(s["type"]);
    var rest := OfTypeReached(defs, s, t, depth, o);
    TypeReached(types, t);
    ds := TypeDraws(types, t) + rest;
    TypeThenValue(defs, s, depth, t, TypeDraws(types, t), rest, o);
  }

  lemma {:induction false} TypeThenValue(defs: Node, s: Node, depth: nat, t: string, first: seq<Draw>, rest: seq<Draw>,
                                         o: Outcome)
    requires depth <= MAX_DEPTH && ByType(s) && TypeList(s).Some? && TypeList(s).value != []
    requires DrawsType(TypeList(s).value, t, first) && MakesOfType(defs, s, t, depth, rest, o)
    ensures Makes(defs, s, depth, first + rest, o)
  {
    var ds := first + rest;
    forall st, pos: nat | Feeds(st, pos, ds) ensures RunNode(defs, s, depth, st, pos) == Run(Some(o), pos + |ds|) {
      FeedsBoth(st, pos, first, rest);
      OfTypeNext(defs, s, depth, t, o, st, pos, pos + |first|, pos + |ds|);
    }
  }

  lemma {:induction false} OfTypeNext(defs: Node, s: Node, depth: nat, t: string, o: Outcome, st: Stream, pos: nat,
                                      next: nat, end: nat)
    requires depth <= MAX_DEPTH && ByType(s) && TypeList(s).Some? && TypeList(s).value != []
    requires TypeDrawn(TypeList(s).value, st, pos) == (t, next)
    requires RunOfType(defs, s, t, depth, st, next) == Run(Some(o), end)
    ensures RunNode(defs, s, depth, st, pos) == Run(Some(o), end)
  {
    RunOfTypeDrawn(defs, s, depth, t, st, pos, next);
  }

  lemma {:induction false} RunOfTypeDrawn(defs: Node, s: Node, depth: nat, t: string, st: Stream, pos: nat, next: nat)
    requires depth <= MAX_DEPTH && ByType(s) && TypeList(s).Some? && TypeList(s).value != []
    requires TypeDrawn(TypeList(s).value, st, pos) == (t, next)
    ensures RunNode(defs, s, depth, st, pos) == RunOfType(defs, s, t, depth, st, next)
  {
  }

  ghost predicate MakesOfType(defs: Node, s: Node, t: string, depth: nat, ds: seq<Draw>, o: Outcome)
    requires depth <= MAX_DEPTH
  {
    forall st, pos: nat | Feeds(st, pos, ds) :: RunOfType(defs, s, t, depth, st, pos) == Run(Some(o), pos + |ds|)
  }

  lemma {:induction false} OfTypeReached(defs: Node, s: Node, t: string, depth: nat, o: Outcome) returns (ds: seq<Draw>)
    requires depth <= MAX_DEPTH && JsonType(t) && YieldsTyped(defs, s, t, depth, o)
    ensures MakesOfType(defs, s, t, depth, ds, o)
    decreases MAX_DEPTH - depth, Height(Obj(s)), 3
  {
    if t == "object" {
      ds := ObjectReached(defs, s, depth, o.v);
    } else if t == "array" {
      ds := ArrayReached(defs, s, depth, o.v.items);
    } else {
      ds := LeafReached(s, t, o.v);
    }
  }

  // ----- Objects -----

  /** The values an object holds, by key. */
  ghost function Held(v: Json): (vals: map<string, Json>)
    requires v.Ord? && |v.keys| == |v.vals| && Distinct(v.keys)
    ensures vals.Keys == Elements(v.keys) && forall i | 0 <= i < |v.keys| :: vals[v.keys[i]] == v.vals[i]
  {
    map k | k in v.keys :: v.vals[IndexOf(v.keys, k)]
  }

  lemma {:induction false} HeldIsObject(defs: Node, s: Node, depth: nat, v: Json)
    requires depth <= MAX_DEPTH && v.Ord? && YieldsObject(defs, s, depth, v.keys, v.vals)
    ensures Chosen(defs, s, depth, Held(v)) && ObjectOf(s, Held(v)) == v
  {
    var vals := Held(v);
    forall name | name in vals ensures YieldsProp(defs, PropsOf(s), name, depth, Outcome.Value(vals[name])) {
      var i :| 0 <= i < |v.keys| && v.keys[i] == name;
    }
    assert forall name | name in PropsOf(s) && name !in vals :: name !in v.keys;
    assert ObjectOf(s, vals).keys == v.keys;
    assert ObjectOf(s, vals).vals == v.vals;
  }

  lemma {:induction false} ObjectReached(defs: Node, s: Node, depth: nat, v: Json) returns (ds: seq<Draw>)
    requires depth <= MAX_DEPTH && v.Ord? && YieldsObject(defs, s, depth, v.keys, v.vals)
    ensures MakesOfType(defs, s, "object", depth, ds, Value(v))
    decreases MAX_DEPTH - depth, Height(Obj(s)), 2
  {
    HeldIsObject(defs, s, depth, v);
    var names := DrawOrder(s);
    ds := PropsReached(defs, s, depth, names, |names|, Held(v));
    AllHeld(names, Held(v));
  }

  /** The values of the first n names. */
  ghost function Upto(names: seq<string>, n: nat, vals: map<string, Json>): map<string, Json>
    requires n <= |names|
  {
    map k | k in vals && k in names[..n] :: vals[k]
  }

  lemma {:induction false} AllHeld(names: seq<string>, vals: map<string, Json>)
    requires vals.Keys <= Elements(names)
    ensures Upto(names, |names|, vals) == vals
  {
    assert names[..|names|] == names;
    assert forall k | k in vals :: k in Elements(names);
  }

  lemma {:induction false} UptoMore(names: seq<string>, n: nat, vals: map<string, Json>)
    requires n < |names| && Distinct(names)
    ensures Upto(names, n + 1, vals) == WithProp(Upto(names, n, vals), names[n], ChosenOutcome(vals, names[n]))
  {
    assert names[..n + 1] == names[..n] + [names[n]];
  }

  ghost predicate MakesProps(defs: Node, s: Node, depth: nat, names: seq<string>, n: nat, ds: seq<Draw>,
                             vals: map<string, Json>)
    requires depth <= MAX_DEPTH && n <= |names| && forall i | 0 <= i < |names| :: names[i] in PropsOf(s)
  {
    forall st, pos: nat | Feeds(st, pos, ds) ::
      RunProps(defs, s, depth, names, n, st, pos) == Run(Some(vals), pos + |ds|)
  }

  function ChosenOutcome(vals: map<string, Json>, name: string): Outcome {
    if name in vals then Outcome.Value(vals[name]) else Absent
  }

  lemma {:induction false} ChosenAt(defs: Node, s: Node, depth: nat, vals: map<string, Json>, name: string)
    requires depth <= MAX_DEPTH && name in PropsOf(s) && Chosen(defs, s, depth, vals)
    ensures var o := ChosenOutcome(vals, name);
            o.Value? || Required(s, name) ==> YieldsProp(defs, PropsOf(s), name, depth, o)
  {
  }

  lemma {:induction false} PropsReached(defs: Node, s: Node, depth: nat, names: seq<string>, n: nat,
                                        vals: map<string, Json>)
    returns (ds: seq<Draw>)
    requires depth <= MAX_DEPTH && n <= |names| && Distinct(names)
    requires (forall i | 0 <= i < |names| :: names[i] in PropsOf(s)) && Chosen(defs, s, depth, vals)
    ensures MakesProps(defs, s, depth, names, n, ds, Upto(names, n, vals))
    decreases MAX_DEPTH - depth, Height(Obj(s)), 1, n
  {
    ds := [];
    if n == 0 {
      NoPropsYet(defs, s, depth, names, vals);
    } else {
      var before := PropsReached(defs, s, depth, names, n - 1, vals);
      var last := ChosenReached(defs, s, depth, names[n - 1], vals);
      ds := before + last;
      LastChosen(defs, s, depth, names, n, before, last, vals);
    }
  }

  lemma {:induction false} NoPropsYet(defs: Node, s: Node, depth: nat, names: seq<string>, vals: map<string, Json>)
    requires depth <= MAX_DEPTH && forall i | 0 <= i < |names| :: names[i] in PropsOf(s)
    ensures MakesProps(defs, s, depth, names, 0, [], Upto(names, 0, vals))
  {
    assert names[..0] == [] && Upto(names, 0, vals) == map[];
  }

  lemma {:induction false} ChosenReached(defs: Node, s: Node, depth: nat, name: string, vals: map<string, Json>)
    returns (ds: seq<Draw>)
    requires depth <= MAX_DEPTH && name in PropsOf(s) && Chosen(defs, s, depth, vals)
    ensures MakesProp(defs, s, name, depth, ds, ChosenOutcome(vals, name))
    decreases MAX_DEPTH - depth, Height(Obj(s)), 0, 1
  {
    ReadableOf(s, name);
    ChosenAt(defs, s, depth, vals, name);
    ds := PropReached(defs, s, name, depth, ChosenOutcome(vals, name));
  }

  lemma {:induction false} LastChosen(defs: Node, s: Node, depth: nat, names: seq<string>, n: nat, before: seq<Draw>,
                                      last: seq<Draw>, vals: map<string, Json>)
    requires depth <= MAX_DEPTH && 0 < n <= |names| && forall i | 0 <= i < |names| :: names[i] in PropsOf(s)
    requires Distinct(names) && MakesProps(defs, s, depth, names, n - 1, before, Upto(names, n - 1, vals))
    requires MakesProp(defs, s, names[n - 1], depth, last, ChosenOutcome(vals, names[n - 1]))
    ensures MakesProps(defs, s, depth, names, n, before + last, Upto(names, n, vals))
  {
    UptoMore(names, n - 1, vals);
    LastProp(defs, s, depth, names, n, before, Upto(names, n - 1, vals), last, ChosenOutcome(vals, names[n - 1]));
  }

  lemma {:induction false} ReadableOf(s: Node, name: string)
    requires PropsReadable(s) && name in PropsOf(s)
    ensures PropReadable(s, name)
  {
  }

  lemma {:induction false} LastProp(defs: Node, s: Node, depth: nat, names: seq<string>, n: nat, before: seq<Draw>,
                                    init: map<string, Json>, last: seq<Draw>, o: Outcome)
    requires depth <= MAX_DEPTH && 0 < n <= |names| && forall i | 0 <= i < |names| :: names[i] in PropsOf(s)
    requires MakesProps(defs, s, depth, names, n - 1, before, init) && MakesProp(defs, s, names[n - 1], depth, last, o)
    ensures MakesProps(defs, s, depth, names, n, before + last, WithProp(init, names[n - 1], o))
  {
    forall st, pos: nat | Feeds(st, pos, before + last)
      ensures RunProps(defs, s, depth, names, n, st, pos) ==
                Run(Some(WithProp(init, names[n - 1], o)), pos + |before + last|)
    {
      FeedsBoth(st, pos, before, last);
    }
  }

  ghost predicate MakesProp(defs: Node, s: Node, name: string, depth: nat, ds: seq<Draw>, o: Outcome)
    requires depth <= MAX_DEPTH && name in PropsOf(s)
  {
    forall st, pos: nat | Feeds(st, pos, ds) :: RunProp(defs, s, name, depth, st, pos) == Run(Some(o), pos + |ds|)
  }

  /** A property comes out as any outcome of its schema, and absent where it need not be there. */
  lemma {:induction false} PropReached(defs: Node, s: Node, name: string, depth: nat, o: Outcome)
    returns (ds: seq<Draw>)
    requires depth <= MAX_DEPTH && PropReadable(s, name)
    requires o.Value? || Required(s, name) ==> YieldsProp(defs, PropsOf(s), name, depth, o)
    ensures MakesProp(defs, s, name, depth, ds, o)
    decreases MAX_DEPTH - depth, Height(Obj(s)), 0, 0
  {
    if o.Absent? && !Required(s, name) {
      ds := [Draw(99, "")];
      forall st, pos: nat | Feeds(st, pos, ds) ensures RunProp(defs, s, name, depth, st, pos) == Run(Some(o), pos + 1) {
        ChanceReached(st, pos, 85, false);
        LeftOut(defs, s, name, depth, st, pos);
      }
    } else {
      PropsHeight(s);
      HeightField(PropsOf(s), name);
      var rest := Reached(defs, PropsOf(s)[name].fields, depth, o);
      ds := (if Required(s, name) then [] else [Draw(0, "")]) + rest;
      PropTaken(defs, s, name, depth, rest, o);
    }
  }

  lemma {:induction false} PropTaken(defs: Node, s: Node, name: string, depth: nat, rest: seq<Draw>, o: Outcome)
    requires depth <= MAX_DEPTH && PropReadable(s, name) && Makes(defs, PropsOf(s)[name].fields, depth, rest, o)
    ensures MakesProp(defs, s, name, depth, (if Required(s, name) then [] else [Draw(0, "")]) + rest, o)
  {
    var wanted := if Required(s, name) then [] else [Draw(0, "")];
    forall st, pos: nat | Feeds(st, pos, wanted + rest)
      ensures RunProp(defs, s, name, depth, st, pos) == Run(Some(o), pos + |wanted + rest|)
    {
      FeedsBoth(st, pos, wanted, rest);
      if !Required(s, name) { ChanceReached(st, pos, 85, true); }
      TakenIn(defs, s, name, depth, st, pos);
    }
  }

  lemma {:induction false} LeftOut(defs: Node, s: Node, name: string, depth: nat, st: Stream, pos: nat)
    requires depth <= MAX_DEPTH && PropReadable(s, name) && !Required(s, name) && !st.Chance(pos, 85)
    ensures RunProp(defs, s, name, depth, st, pos) == Run(Some(Absent), pos + 1)
  {
  }

  lemma {:induction false} TakenIn(defs: Node, s: Node, name: string, depth: nat, st: Stream, pos: nat)
    requires depth <= MAX_DEPTH && PropReadable(s, name) && (Required(s, name) || st.Chance(pos, 85))
    ensures RunProp(defs, s, name, depth, st, pos) ==
              RunNode(defs, PropsOf(s)[name].fields, depth, st, if Required(s, name) then pos else pos + 1)
  {
    PropsHeight(s);
    HeightField(PropsOf(s), name);
  }

  // ----- Arrays -----

  ghost predicate MakesArray(defs: Node, s: Node, depth: nat, ds: seq<Draw>, vals: seq<Json>)
    requires depth <= MAX_DEPTH
  {
    forall st, pos: nat | Feeds(st, pos, ds) ::
      RunArray(defs, s, depth, st, pos) == Run(Some(Value(Arr(vals))), pos + |ds|)
  }

  ghost predicate MakesItems(defs: Node, items: Node, count: nat, depth: nat, ds: seq<Draw>, vals: seq<Json>)
    requires depth <= MAX_DEPTH
  {
    forall st, pos: nat | Feeds(st, pos, ds) ::
      RunItems(defs, items, count, depth, st, pos) == Run(Some(vals), pos + |ds|)
  }

  lemma {:induction false} ArrayReached(defs: Node, s: Node, depth: nat, vals: seq<Json>) returns (ds: seq<Draw>)
    requires depth <= MAX_DEPTH && YieldsArray(defs, s, depth, vals)
    ensures MakesArray(defs, s, depth, ds, vals)
    decreases MAX_DEPTH - depth, Height(Obj(s)), 1, 0
  {
    ds := [];
    if NodeAt(s, "items").Some? {
      HeightField(s, "items");
      var items := s["items"].fields;
      var count :| Drawn(count, MinItems(s), MaxItems(s)) && 0 <= count && |vals| <= count &&
                   (|vals| < count ==> Yields(defs, items, depth, Absent));
      var first := CountDraws(s, count);
      var rest := ItemsReached(defs, items, count, depth, vals);
      ds := first + rest;
      CountedReached(defs, s, count, depth, first, rest, vals);
    }
  }

  lemma {:induction false} CountedReached(defs: Node, s: Node, count: nat, depth: nat, first: seq<Draw>,
                                          rest: seq<Draw>, vals: seq<Json>)
    requires depth <= MAX_DEPTH && NodeAt(s, "items").Some? && Drawn(count, MinItems(s), MaxItems(s))
    requires CountsTo(s, count, first) && MakesItems(defs, s["items"].fields, count, depth, rest, vals)
    ensures MakesArray(defs, s, depth, first + rest, vals)
  {
    forall st, pos: nat | Feeds(st, pos, first + rest)
      ensures RunArray(defs, s, depth, st, pos) == Run(Some(Value(Arr(vals))), pos + |first + rest|)
    {
      FeedsBoth(st, pos, first, rest);
      CountReached(s, count, first, st, pos);
      RunCounted(defs, s, count, depth, st, pos, pos + |first|);
    }
  }

  /** The draw of a count, where one is made. */
  ghost predicate CountsTo(s: Node, count: int, ds: seq<Draw>) {
    if MaxItems(s) <= MinItems(s) then ds == [] else
      |ds| == 1 && ds[0].word < TWO_64 && IntOf(ds[0].word, MinItems(s), MaxItems(s)) == count
  }

  lemma {:induction false} CountDraws(s: Node, count: int) returns (ds: seq<Draw>)
    requires Drawn(count, MinItems(s), MaxItems(s))
    ensures CountsTo(s, count, ds)
  {
    var w := IntCovers(MinItems(s), MaxItems(s), count);
    ds := if MaxItems(s) <= MinItems(s) then [] else [Draw(w, "")];
  }

  lemma {:induction false} CountReached(s: Node, count: int, ds: seq<Draw>, st: Stream, pos: nat)
    requires Drawn(count, MinItems(s), MaxItems(s)) && Feeds(st, pos, ds)
    requires CountsTo(s, count, ds)
    ensures IntOf(st.Word(pos), MinItems(s), MaxItems(s)) == count
    ensures (if MaxItems(s) <= MinItems(s) then pos else pos + 1) == pos + |ds|
  {
    if |ds| > 0 {
      assert st.words(pos + 0) == ds[0].word;
      SmallMod(ds[0].word, TWO_64);
    }
  }

  /** The values first, absences after them. */
  lemma {:induction false} ItemsReached(defs: Node, items: Node, count: nat, depth: nat, vals: seq<Json>)
    returns (ds: seq<Draw>)
    requires depth <= MAX_DEPTH && ItemsFrom(defs, items, depth, vals, count)
    ensures MakesItems(defs, items, count, depth, ds, vals)
    decreases MAX_DEPTH - depth, Height(Obj(items)), 6, count
  {
    if count == 0 {
      ds := [];
    } else {
      var full := |vals| == count;
      var init := if full then vals[..count - 1] else vals;
      var o := if full then Outcome.Value(vals[count - 1]) else Absent;
      var before := ItemsReached(defs, items, count - 1, depth, init);
      var last := Reached(defs, items, depth, o);
      ds := before + last;
      assert WithItem(init, o) == vals;
      LastItem(defs, items, count, depth, before, init, last, o);
    }
  }

  lemma {:induction false} LastItem(defs: Node, items: Node, count: nat, depth: nat, before: seq<Draw>, init: seq<Json>,
                                    last: seq<Draw>, o: Outcome)
    requires depth <= MAX_DEPTH && count > 0 && MakesItems(defs, items, count - 1, depth, before, init)
    requires Makes(defs, items, depth, last, o)
    ensures MakesItems(defs, items, count, depth, before + last, WithItem(init, o))
  {
    forall st, pos: nat | Feeds(st, pos, before + last)
      ensures RunItems(defs, items, count, depth, st, pos) ==
                Run(Some(WithItem(init, o)), pos + |before + last|)
    {
      FeedsBoth(st, pos, before, last);
      RunOneMore(defs, items, count, depth, st, pos);
    }
  }

  lemma {:induction false} RunOneMore(defs: Node, items: Node, count: nat, depth: nat, st: Stream, pos: nat)
    requires depth <= MAX_DEPTH && count > 0
    ensures var before := RunItems(defs, items, count - 1, depth, st, pos);
            RunItems(defs, items, count, depth, st, pos) ==
              if before.made.None? then before else
                var o := RunNode(defs, items, depth, st, before.pos);
                Run(if o.made.None? then None else Some(WithItem(before.made.value, o.made.value)), o.pos)
  {
  }

  // ----- Where the generator can be stopped -----

  /** Some draws stop the generator at a node it does not answer. */
  lemma {:induction false} Stopped(defs: Node, s: Node, depth: nat) returns (ds: seq<Draw>)
    requires depth <= MAX_DEPTH && !Answerable(defs, s, depth)
    ensures Stops(defs, s, depth, ds)
    decreases MAX_DEPTH - depth, Height(Obj(s)), 5
  {
    ds := [];
    if StrAt(s, "$ref").Some? {
      if LookupDef(defs, s["$ref"].s).Some? { ds := Stopped(defs, LookupDef(defs, s["$ref"].s).value, depth + 1); }
    } else if ListAt(s, "allOf").Some? {
      if MergeAll(s["allOf"].items).Some? {
        AllOfShrinks(s);
        ds := Stopped(defs, MergeAll(s["allOf"].items).value, depth);
      }
    } else if Branches(s) != [] {
      ds := BranchStopped(defs, s, depth);
    } else if TypeList(s).Some? {
      ds := TypedStopped(defs, s, depth);
    }
  }

  lemma {:induction false} BranchStopped(defs: Node, s: Node, depth: nat) returns (ds: seq<Draw>)
    requires depth <= MAX_DEPTH && StrAt(s, "$ref").None? && !IsLiteral(s) && ListAt(s, "allOf").None?
    requires Branches(s) != [] && !Answerable(defs, s, depth)
    ensures Stops(defs, s, depth, ds)
    decreases MAX_DEPTH - depth, Height(Obj(s)), 4
  {
    var i :| 0 <= i < |Branches(s)| &&
             !(Branches(s)[i].Obj? && (BranchHeight(s, i); Answerable(defs, Branches(s)[i].fields, depth)));
    if Branches(s)[i].Obj? {
      BranchHeight(s, i);
      var rest := Stopped(defs, Branches(s)[i].fields, depth);
      ds := [Draw(i, "")] + rest;
      forall st, pos: nat | Feeds(st, pos, ds) ensures RunNode(defs, s, depth, st, pos).made.None? {
        BranchStopsAt(defs, s, depth, i, rest, st, pos);
      }
    } else {
      ds := [Draw(i, "")];
      forall st, pos: nat | Feeds(st, pos, ds) ensures RunNode(defs, s, depth, st, pos).made.None? {
        PickReached(st, pos, i, |Branches(s)|);
        RunOfChoice(defs, s, depth, st, pos);
      }
    }
  }

  lemma {:induction false} BranchStopsAt(defs: Node, s: Node, depth: nat, i: nat, rest: seq<Draw>, st: Stream, pos: nat)
    requires depth <= MAX_DEPTH && StrAt(s, "$ref").None? && LiteralsOf(s) == [] && ListAt(s, "allOf").None?
    requires i < |Branches(s)| && Branches(s)[i].Obj? && Stops(defs, Branches(s)[i].fields, depth, rest)
    requires Feeds(st, pos, [Draw(i, "")] + rest)
    ensures RunNode(defs, s, depth, st, pos).made.None?
  {
    FeedsBoth(st, pos, [Draw(i, "")], rest);
    PickReached(st, pos, i, |Branches(s)|);
    RunOfChoice(defs, s, depth, st, pos);
  }

  ghost predicate StopsOfType(defs: Node, s: Node, t: string, depth: nat, ds: seq<Draw>)
    requires depth <= MAX_DEPTH
  {
    forall st, pos: nat | Feeds(st, pos, ds) :: RunOfType(defs, s, t, depth, st, pos).made.None?
  }

  lemma {:induction false} TypedStopped(defs: Node, s: Node, depth: nat) returns (ds: seq<Draw>)
    requires depth <= MAX_DEPTH && ByType(s) && TypeList(s).Some? && !Answerable(defs, s, depth)
    ensures Stops(defs, s, depth, ds)
    decreases MAX_DEPTH - depth, Height(Obj(s)), 4
  {
    var types := TypeList(s).value;
    TypesOfShape(s["type"]);
    var t, rest := "object", [];
    if "object" in types && !AnswerableObject(defs, s, depth) {
      rest := ObjectStopped(defs, s, depth);
    } else {
      t := "array";
      rest := ArrayStopped(defs, s, depth);
    }
    TypeReached(types, t);
    ds := TypeDraws(types, t) + rest;
    TypeThenStop(defs, s, depth, t, TypeDraws(types, t), rest);
  }

  lemma {:induction false} TypeThenStop(defs: Node, s: Node, depth: nat, t: string, first: seq<Draw>, rest: seq<Draw>)
    requires depth <= MAX_DEPTH && ByType(s) && TypeList(s).Some? && TypeList(s).value != []
    requires DrawsType(TypeList(s).value, t, first) && StopsOfType(defs, s, t, depth, rest)
    ensures Stops(defs, s, depth, first + rest)
  {
    forall st, pos: nat | Feeds(st, pos, first + rest) ensures RunNode(defs, s, depth, st, pos).made.None? {
      FeedsBoth(st, pos, first, rest);
      RunOfTypeDrawn(defs, s, depth, t, st, pos, pos + |first|);
    }
  }

  // ----- Objects that are stopped -----

  lemma {:induction false} ObjectStopped(defs: Node, s: Node, depth: nat) returns (ds: seq<Draw>)
    requires depth <= MAX_DEPTH && !AnswerableObject(defs, s, depth)
    ensures StopsOfType(defs, s, "object", depth, ds)
    decreases MAX_DEPTH - depth, Height(Obj(s)), 2
  {
    var names := DrawOrder(s);
    var name :| name in PropsOf(s) && !AnswerableProp(defs, s, name, depth);
    assert name in Elements(names);
    var i :| 0 <= i < |names| && names[i] == name;
    ds := PropsStopped(defs, s, depth, names, |names|, i);
  }

  ghost predicate StopsProps(defs: Node, s: Node, depth: nat, names: seq<string>, n: nat, ds: seq<Draw>)
    requires depth <= MAX_DEPTH && n <= |names| && forall i | 0 <= i < |names| :: names[i] in PropsOf(s)
  {
    forall st, pos: nat | Feeds(st, pos, ds) :: RunProps(defs, s, depth, names, n, st, pos).made.None?
  }

  lemma {:induction false} PropsStopped(defs: Node, s: Node, depth: nat, names: seq<string>, n: nat, i: nat)
    returns (ds: seq<Draw>)
    requires depth <= MAX_DEPTH && i < n <= |names| && forall j | 0 <= j < |names| :: names[j] in PropsOf(s)
    requires Distinct(names) && !AnswerableProp(defs, s, names[i], depth)
    ensures StopsProps(defs, s, depth, names, n, ds)
    decreases MAX_DEPTH - depth, Height(Obj(s)), 1, n
  {
    if j :| 0 <= j < n - 1 && !AnswerableProp(defs, s, names[j], depth) {
      ds := PropsStopped(defs, s, depth, names, n - 1, j);
    } else {
      var before, vals := PropsPassed(defs, s, depth, names, n - 1);
      var last := PropStopped(defs, s, names[n - 1], depth);
      ds := before + last;
      forall st, pos: nat | Feeds(st, pos, ds) ensures RunProps(defs, s, depth, names, n, st, pos).made.None? {
        FeedsBoth(st, pos, before, last);
      }
    }
  }

  /** Properties that are answered can be passed. */
  lemma {:induction false} PropsPassed(defs: Node, s: Node, depth: nat, names: seq<string>, n: nat)
    returns (ds: seq<Draw>, vals: map<string, Json>)
    requires depth <= MAX_DEPTH && n <= |names| && forall j | 0 <= j < |names| :: names[j] in PropsOf(s)
    requires forall j | 0 <= j < n :: AnswerableProp(defs, s, names[j], depth)
    ensures MakesProps(defs, s, depth, names, n, ds, vals)
    decreases MAX_DEPTH - depth, Height(Obj(s)), 0, n
  {
    ds, vals := [], map[];
    if n > 0 {
      var before, init := PropsPassed(defs, s, depth, names, n - 1);
      var last, o := PropPassed(defs, s, names[n - 1], depth);
      LastProp(defs, s, depth, names, n, before, init, last, o);
      ds, vals := before + last, WithProp(init, names[n - 1], o);
    }
  }

  lemma {:induction false} PropPassed(defs: Node, s: Node, name: string, depth: nat) returns (ds: seq<Draw>, o: Outcome)
    requires depth <= MAX_DEPTH && name in PropsOf(s) && AnswerableProp(defs, s, name, depth)
    ensures MakesProp(defs, s, name, depth, ds, o)
  {
    PropsHeight(s);
    HeightField(PropsOf(s), name);
    assert PropReadable(s, name) && Answerable(defs, PropsOf(s)[name].fields, depth);
    o := AnswerableSome(defs, PropsOf(s)[name].fields, depth);
    var rest := Reached(defs, PropsOf(s)[name].fields, depth, o);
    ds := (if Required(s, name) then [] else [Draw(0, "")]) + rest;
    PropTaken(defs, s, name, depth, rest, o);
  }

  ghost predicate StopsProp(defs: Node, s: Node, name: string, depth: nat, ds: seq<Draw>)
    requires depth <= MAX_DEPTH && name in PropsOf(s)
  {
    forall st, pos: nat | Feeds(st, pos, ds) :: RunProp(defs, s, name, depth, st, pos).made.None?
  }

  lemma {:induction false} PropStopped(defs: Node, s: Node, name: string, depth: nat) returns (ds: seq<Draw>)
    requires depth <= MAX_DEPTH && name in PropsOf(s) && !AnswerableProp(defs, s, name, depth)
    ensures StopsProp(defs, s, name, depth, ds)
    decreases MAX_DEPTH - depth, Height(Obj(s)), 0, 0
  {
    ds := [];
    if PropReadable(s, name) {
      PropsHeight(s);
      HeightField(PropsOf(s), name);
      var rest := Stopped(defs, PropsOf(s)[name].fields, depth);
      ds := (if Required(s, name) then [] else [Draw(0, "")]) + rest;
      PropTakenStops(defs, s, name, depth, rest);
    }
  }

  lemma {:induction false} PropTakenStops(defs: Node, s: Node, name: string, depth: nat, rest: seq<Draw>)
    requires depth <= MAX_DEPTH && PropReadable(s, name) && Stops(defs, PropsOf(s)[name].fields, depth, rest)
    ensures StopsProp(defs, s, name, depth, (if Required(s, name) then [] else [Draw(0, "")]) + rest)
  {
    var wanted := if Required(s, name) then [] else [Draw(0, "")];
    forall st, pos: nat | Feeds(st, pos, wanted + rest) ensures RunProp(defs, s, name, depth, st, pos).made.None? {
      FeedsBoth(st, pos, wanted, rest);
      if !Required(s, name) { ChanceReached(st, pos, 85, true); }
      TakenIn(defs, s, name, depth, st, pos);
    }
  }

  // ----- Arrays that are stopped -----

  lemma {:induction false} ArrayStopped(defs: Node, s: Node, depth: nat) returns (ds: seq<Draw>)
    requires depth <= MAX_DEPTH && !AnswerableArray(defs, s, depth)
    ensures StopsOfType(defs, s, "array", depth, ds)
    decreases MAX_DEPTH - depth, Height(Obj(s)), 1, 0
  {
    HeightField(s, "items");
    if MinItems(s) < 0 {
      assert Drawn(MinItems(s), MinItems(s), MaxItems(s));
      ds := CountDraws(s, MinItems(s));
      forall st, pos: nat | Feeds(st, pos, ds) ensures RunOfType(defs, s, "array", depth, st, pos).made.None? {
        CountReached(s, MinItems(s), ds, st, pos);
        NegativeCount(defs, s, depth, st, pos);
      }
    } else {
      assert Drawn(MostItems(s), MinItems(s), MaxItems(s));
      var first := CountDraws(s, MostItems(s));
      var rest := Stopped(defs, s["items"].fields, depth);
      ds := first + rest;
      CountedStops(defs, s, depth, first, rest);
    }
  }

  lemma {:induction false} NegativeCount(defs: Node, s: Node, depth: nat, st: Stream, pos: nat)
    requires depth <= MAX_DEPTH && NodeAt(s, "items").Some? && IntOf(st.Word(pos), MinItems(s), MaxItems(s)) < 0
    ensures RunOfType(defs, s, "array", depth, st, pos).made.None?
  {
  }

  lemma {:induction false} CountedStops(defs: Node, s: Node, depth: nat, first: seq<Draw>, rest: seq<Draw>)
    requires depth <= MAX_DEPTH && NodeAt(s, "items").Some? && MostItems(s) > 0
    requires CountsTo(s, MostItems(s), first) && Drawn(MostItems(s), MinItems(s), MaxItems(s))
    requires Stops(defs, s["items"].fields, depth, rest)
    ensures StopsOfType(defs, s, "array", depth, first + rest)
  {
    var count := MostItems(s);
    forall st, pos: nat | Feeds(st, pos, first + rest) ensures RunOfType(defs, s, "array", depth, st, pos).made.None? {
      FeedsBoth(st, pos, first, rest);
      CountReached(s, count, first, st, pos);
      ItemsStopped(defs, s["items"].fields, count, depth, st, pos + |first|);
      CountedStop(defs, s, count, depth, st, pos, pos + |first|);
    }
  }

  lemma {:induction false} CountedStop(defs: Node, s: Node, count: nat, depth: nat, st: Stream, pos: nat, next: nat)
    requires depth <= MAX_DEPTH && NodeAt(s, "items").Some?
    requires IntOf(st.Word(pos), MinItems(s), MaxItems(s)) == count
    requires next == if MaxItems(s) <= MinItems(s) then pos else pos + 1
    requires RunItems(defs, s["items"].fields, count, depth, st, next).made.None?
    ensures RunOfType(defs, s, "array", depth, st, pos).made.None?
  {
    RunCounted(defs, s, count, depth, st, pos, next);
  }

  lemma {:induction false} ItemsStopped(defs: Node, items: Node, count: nat, depth: nat, st: Stream, pos: nat)
    requires depth <= MAX_DEPTH && count > 0 && RunNode(defs, items, depth, st, pos).made.None?
    ensures RunItems(defs, items, count, depth, st, pos).made.None?
    decreases count
  {
    if count > 1 { ItemsStopped(defs, items, count - 1, depth, st, pos); }
  }

  // ----- All streams together -----

  /** The outcomes of a node are what streams make of it, each by some stream. */
  lemma {:induction false} EveryOutcomeReached(defs: Node, s: Node, depth: nat, o: Outcome)
    requires depth <= MAX_DEPTH
    ensures Yields(defs, s, depth, o) <==> exists st: Stream :: RunNode(defs, s, depth, st, 0).made == Some(o)
  {
    if Yields(defs, s, depth, o) {
      var ds := Reached(defs, s, depth, o);
      assert Feeds(Going(ds), 0, ds);
    }
    if st: Stream :| RunNode(defs, s, depth, st, 0).made == Some(o) { RunIsOutcome(defs, s, depth, st, 0); }
  }

  /** The generator answers a node if and only if no stream stops it there. */
  lemma {:induction false} AnswersExactly(defs: Node, s: Node, depth: nat)
    requires depth <= MAX_DEPTH
    ensures Answerable(defs, s, depth) <==> forall st: Stream :: RunNode(defs, s, depth, st, 0).made.Some?
  {
    if Answerable(defs, s, depth) {
      forall st: Stream ensures RunNode(defs, s, depth, st, 0).made.Some? { RunIsOutcome(defs, s, depth, st, 0); }
    } else {
      var ds := Stopped(defs, s, depth);
      assert Feeds(Going(ds), 0, ds);
      assert RunNode(defs, s, depth, Going(ds), 0).made.None?;
    }
  }
}
