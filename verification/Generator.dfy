/** The JSON Schema generator (internal/generator/generator.go): it advances the shared
    Synthesizer and builds each record in fresh objects. What it returns is what module Replay
    makes of the same stream, so an outcome the relation Yields allows. */
module Generator {
  import opened JsonValues
  import opened Sorting
  import opened PropertyOrder
  import opened SchemaTypes
  import opened SchemaMerge
  import opened Draws
  import opened Streams
  import opened Generation
  import opened Records
  import opened LiteralCopies
  import opened Outcomes
  import opened Replay

  /** A value; errAbsent; or an error that stops the run, a panic included. */
  datatype Made = Made(v: Val) | Gone | Failed

  /** What a call made, laid out as t, is an outcome the schema yields; it fails only where
      the schema can stop the generator. */
  ghost predicate MadeBy(defs: Node, s: Node, depth: nat, r: Made, t: Tree)
    requires depth <= MAX_DEPTH
    reads Objs(t)
  {
    match r
    case Made(v) => Owns(v, t) && Proper(t) && Yields(defs, s, depth, Value(View(t)))
    case Gone => Yields(defs, s, depth, Absent)
    case Failed => !Answerable(defs, s, depth)
  }

  /** What a call made, laid out as t, with the source left at a position, is what a run comes to. */
  ghost predicate Computes(r: Made, t: Tree, pos: nat, run: Run<Outcome>) {
    match r
    case Made(_) => run == Run(Some(Outcome.Value(View(t))), pos)
    case Gone => run == Run(Some(Absent), pos)
    case Failed => run.made.None?
  }

  class Generator {
    const synth: Synthesizer
    var defs: Node

    constructor (synth: Synthesizer)
      ensures this.synth == synth
    {
      this.synth := synth;
      this.defs := map[];
    }

    /** The source every draw comes from. */
    ghost function Source(): Stream { Stream(synth.words, synth.texts) }

    /** Value: one record of the schema, in objects nothing else holds. */
    method Value(schema: Node) returns (r: Made, ghost t: Tree)
      modifies this, synth
      ensures MadeBy(DefsOf(schema), schema, 0, r, t) && fresh(Objs(t))
      ensures Computes(r, t, synth.pos, RunNode(DefsOf(schema), schema, 0, Source(), old(synth.pos)))
    {
      defs := DefsOf(schema);
      r, t := Node(schema, 0);
    }

    /** value: the node's literal, a branch, or a value of its type. */
    method Node(s: JsonValues.Node, depth: nat) returns (r: Made, ghost t: Tree)
      requires depth <= MAX_DEPTH
      modifies synth
      ensures MadeBy(defs, s, depth, r, t) && fresh(Objs(t))
      ensures Computes(r, t, synth.pos, RunNode(defs, s, depth, Source(), old(synth.pos)))
      decreases MAX_DEPTH - depth, Height(Obj(s)), 6
    {
      RunIsOutcome(defs, s, depth, Source(), synth.pos);
      r, t := Dispatch(s, depth);
    }

    method Dispatch(s: JsonValues.Node, depth: nat) returns (r: Made, ghost t: Tree)
      requires depth <= MAX_DEPTH
      modifies synth
      ensures (r.Made? ==> Owns(r.v, t) && Proper(t)) && fresh(Objs(t))
      ensures Computes(r, t, synth.pos, RunNode(defs, s, depth, Source(), old(synth.pos)))
      decreases MAX_DEPTH - depth, Height(Obj(s)), 5
    {
      t := TScalar(Null);
      if StrAt(s, "$ref").Some? {
        r, t := Ref(s["$ref"].s, depth);
      } else if IsLiteral(s) {
        r, t := Literal(s);
      } else if ListAt(s, "allOf").Some? {
        var merged := MergeSchemas(s["allOf"].items);
        if merged.None? { return Failed, t; }
        AllOfShrinks(s);
        r, t := Dispatch(merged.value, depth);
      } else if |Branches(s)| > 0 {
        BranchesHeight(s);
        r, t := Branch(Branches(s), depth);
      } else {
        r, t := Typed(s, depth);
      }
    }

    /** A branch of oneOf, or else of anyOf, each as likely as the other. */
    method Branch(branches: seq<Json>, depth: nat) returns (r: Made, ghost t: Tree)
      requires depth <= MAX_DEPTH && branches != []
      modifies synth
      ensures (r.Made? ==> Owns(r.v, t) && Proper(t)) && fresh(Objs(t))
      ensures Computes(r, t, synth.pos, RunChoice(defs, branches, depth, Source(), old(synth.pos)))
      decreases MAX_DEPTH - depth, Height(Arr(branches)), 0
    {
      t := TScalar(Null);
      var i := synth.Pick(|branches|);
      if !branches[i].Obj? { return Failed, t; }
      HeightItem(branches, i);
      r, t := Dispatch(branches[i].fields, depth);
    }

    /** refValue: past the depth budget, null where the target allows it and absent otherwise. */
    method Ref(ref: string, depth: nat) returns (r: Made, ghost t: Tree)
      requires depth <= MAX_DEPTH
      modifies synth
      ensures match r
              case Made(v) => Owns(v, t) && Proper(t) && YieldsRef(defs, ref, depth, Outcome.Value(View(t)))
              case Gone => YieldsRef(defs, ref, depth, Absent)
              case Failed => !AnswerableRef(defs, ref, depth)
      ensures fresh(Objs(t)) && Computes(r, t, synth.pos, RunRef(defs, ref, depth, Source(), old(synth.pos)))
      decreases MAX_DEPTH - depth, 0, 0
    {
      t := TScalar(Null);
      var target := LookupDef(defs, ref);
      if target.None? { return Failed, t; }
      if depth >= MAX_DEPTH {
        var types := ReadTypeList(target.value);
        r := if types.Some? && "null" in types.value then Made(Scalar(Null)) else Gone;
        return;
      }
      r, t := Node(target.value, depth + 1);
    }

    /** The literal a node is answered with, copied in the order it is written in. */
    method Literal(s: JsonValues.Node) returns (r: Made, ghost t: Tree)
      requires IsLiteral(s)
      modifies synth
      ensures r.Made? && Owns(r.v, t) && Proper(t) && View(t) in LiteralsOf(s) && fresh(Objs(t))
      ensures Computes(r, t, synth.pos, RunLiteral(s, Source(), old(synth.pos)))
    {
      var v;
      if "example" in s {
        v, t := CopyLiteral(s["example"], LiteralTree(s, "example", -1));
      } else if NonEmpty(ListAt(s, "examples")) {
        v, t := CopyLiteral(s["examples"].items[0], LiteralTree(s, "examples", 0));
      } else if "const" in s {
        v, t := CopyLiteral(s["const"], LiteralTree(s, "const", -1));
      } else {
        var enums := s["enum"].items;
        var i := synth.Pick(|enums|);
        v, t := CopyLiteral(enums[i], LiteralTree(s, "enum", i));
        assert View(t) == LiteralsOf(s)[i];
      }
      r := Made(v);
    }

    /** drawType: null at 30 percent where listed, otherwise one of the other types. */
    method DrawType(types: seq<string>) returns (t: string)
      requires |types| > 1 && Distinct(types)
      modifies synth
      ensures t in types && (t, synth.pos) == TypeDrawn(types, Source(), old(synth.pos))
    {
      var others: seq<string> := [];
      for i := 0 to |types|
        invariant others == Others(types[..i])
      {
        assert types[..i + 1][..i] == types[..i];
        if types[i] != "null" { others := others + [types[i]]; }
      }
      assert types[..|types|] == types;
      SomeOther(types);
      OthersAre(types);
      if |others| < |types| {
        var pick := synth.Chance(30);
        if pick { return "null"; }
      }
      var i := synth.Pick(|others|);
      t := others[i];
    }

    method Typed(s: JsonValues.Node, depth: nat) returns (r: Made, ghost t: Tree)
      requires depth <= MAX_DEPTH && ByType(s)
      modifies synth
      ensures (r.Made? ==> Owns(r.v, t) && Proper(t)) && !r.Gone? && fresh(Objs(t))
      ensures Computes(r, t, synth.pos, RunTyped(defs, s, depth, Source(), old(synth.pos)))
      decreases MAX_DEPTH - depth, Height(Obj(s)), 4
    {
      t := TScalar(Null);
      var types := ReadTypeList(s);
      if types.None? { return Failed, t; }
      TypesOfShape(s["type"]);
      var typ := types.value[0];
      if |types.value| > 1 { typ := DrawType(types.value); }
      r, t := OfType(s, typ, depth);
    }

    /** Each type reads only its own keywords. */
    method OfType(s: JsonValues.Node, typ: string, depth: nat) returns (r: Made, ghost t: Tree)
      requires depth <= MAX_DEPTH && JsonType(typ)
      modifies synth
      ensures (r.Made? ==> Owns(r.v, t) && Proper(t)) && !r.Gone? && fresh(Objs(t))
      ensures Computes(r, t, synth.pos, RunOfType(defs, s, typ, depth, Source(), old(synth.pos)))
      decreases MAX_DEPTH - depth, Height(Obj(s)), 3, 1
    {
      if typ == "object" { r, t := DrawObject(s, depth); }
      else if typ == "array" { r, t := DrawArray(s, depth); }
      else { r, t := Leaf(s, typ); }
    }

    /** string, integer, number, boolean and null. */
    method Leaf(s: JsonValues.Node, typ: string) returns (r: Made, ghost t: Tree)
      requires JsonType(typ) && typ != "object" && typ != "array"
      modifies synth
      ensures r.Made? && fresh(Objs(t))
      ensures Owns(r.v, t) && Proper(t) && YieldsLeaf(s, typ, View(t))
      ensures Computes(r, t, synth.pos, RunLeaf(s, typ, Source(), old(synth.pos)))
    {
      LeafIsOutcome(s, typ, Source(), synth.pos);
      var j := Null;
      if typ == "string" {
        var text := synth.Text();
        j := Str(text);
      } else if typ == "integer" {
        var n := synth.Int(IntegerMin(s), IntegerMax(s));
        j := Num(n as real);
      } else if typ == "number" {
        var x := synth.Float(NumberMin(s), NumberMax(s));
        j := Num(x);
      } else if typ == "boolean" {
        var b := synth.Chance(50);
        j := Bool(b);
      }
      r, t := Made(Scalar(j)), TScalar(j);
    }

    /** The items of an array, an absent one left out. */
    method DrawItems(items: JsonValues.Node, count: nat, depth: nat)
      returns (ok: bool, result: seq<Val>, ghost ts: seq<Tree>)
      requires depth <= MAX_DEPTH
      modifies synth
      ensures ok ==> Row(result, ts) && RowApart(ts) && fresh(KidObjs(ts))
      ensures var run := RunItems(defs, items, count, depth, Source(), old(synth.pos));
              if ok then run == Run(Some(Views(ts)), synth.pos) else run.made.None?
      decreases MAX_DEPTH - depth, Height(Obj(items)), 7, 1
    {
      ok, result, ts := true, [], [];
      NoItemsYet(defs, items, depth, Source(), synth.pos);
      for i := 0 to count
        invariant Row(result, ts) && RowApart(ts) && fresh(KidObjs(ts))
        invariant RunItems(defs, items, i, depth, Source(), old(synth.pos)) == Run(Some(Views(ts)), synth.pos)
      {
        ok, result, ts := DrawItem(items, depth, result, ts, i, old(synth.pos));
        if !ok {
          StopsThere(defs, items, count, i + 1, depth, Source(), old(synth.pos));
          return;
        }
      }
    }

    /** One item more, after those already drawn. */
    method DrawItem(items: JsonValues.Node, depth: nat, result: seq<Val>, ghost ts: seq<Tree>, ghost i: nat,
                    ghost start: nat)
      returns (ok: bool, result': seq<Val>, ghost ts': seq<Tree>)
      requires depth <= MAX_DEPTH && Row(result, ts) && RowApart(ts) && synth !in KidObjs(ts)
      requires RunItems(defs, items, i, depth, Source(), start) == Run(Some(Views(ts)), synth.pos)
      modifies synth
      ensures ok ==> Row(result', ts') && RowApart(ts')
      ensures ok ==> forall o | o in KidObjs(ts') :: o in KidObjs(ts) || fresh(o)
      ensures var run := RunItems(defs, items, i + 1, depth, Source(), start);
              if ok then run == Run(Some(Views(ts')), synth.pos) else run.made.None?
      decreases MAX_DEPTH - depth, Height(Obj(items)), 7, 0
    {
      KidsAllocated(ts);
      ok, result', ts' := true, result, ts;
      var item, t := Dispatch(items, depth);
      ItemsGoOn(defs, items, i, depth, Source(), start, ts, item, t, synth.pos);
      match item
      case Failed => ok := false;
      case Made(v) =>
        RowSnoc(result, ts, v, t);
        result', ts' := result + [v], ts + [t];
      case Gone =>
    }

    /** array: count items drawn, unless the schema declares none. */
    method DrawArray(s: JsonValues.Node, depth: nat) returns (r: Made, ghost t: Tree)
      requires depth <= MAX_DEPTH
      modifies synth
      ensures !r.Gone? && fresh(Objs(t))
      ensures r.Made? ==> Owns(r.v, t) && Proper(t) && View(t).Arr? && YieldsArray(defs, s, depth, View(t).items)
      ensures AnswerableArray(defs, s, depth) ==> r.Made?
      ensures Computes(r, t, synth.pos, RunArray(defs, s, depth, Source(), old(synth.pos)))
      decreases MAX_DEPTH - depth, Height(Obj(s)), 1
    {
      ArrayIsOutcome(defs, s, depth, Source(), synth.pos);
      var v;
      if NodeAt(s, "items").None? {
        v, t := NewList([], []);
        return Made(v), t;
      }
      t := TScalar(Null);
      var count := synth.Int(MinItems(s), MaxItems(s));
      if count < 0 { return Failed, t; }
      RunCounted(defs, s, count, depth, Source(), old(synth.pos), synth.pos);
      HeightField(s, "items");
      r, t := ListOf(s["items"].fields, count, depth);
    }

    method ListOf(items: JsonValues.Node, count: nat, depth: nat) returns (r: Made, ghost t: Tree)
      requires depth <= MAX_DEPTH
      modifies synth
      ensures (r.Made? ==> Owns(r.v, t) && Proper(t)) && !r.Gone? && fresh(Objs(t))
      ensures var run := RunItems(defs, items, count, depth, Source(), old(synth.pos));
              if r.Made? then run.made.Some? && run.pos == synth.pos && View(t) == Arr(run.made.value)
              else run.made.None?
      decreases MAX_DEPTH - depth, Height(Obj(items)), 8
    {
      t := TScalar(Null);
      var ok, result, ts := DrawItems(items, count, depth);
      if !ok { return Failed, t; }
      KidsAllocated(ts);
      var v;
      v, t := NewList(result, ts);
      ListViewed(t, ts);
      r := Made(v);
    }

    /** shouldInclude: required, or drawn at 85 percent; none where it panics on an entry of
        required that is no string. */
    method ShouldInclude(required: seq<Json>, name: string) returns (r: Option<bool>)
      modifies synth
      ensures Run(r, synth.pos) == IncludeDrawn(required, name, Source(), old(synth.pos))
    {
      for i := 0 to |required|
        invariant Str(name) !in required[..i] && synth.pos == old(synth.pos)
        invariant forall j | 0 <= j < i :: required[j].Str?
      {
        if !required[i].Str? { return None; }
        if required[i].s == name {
          assert required[i] == Str(name);
          return Some(true);
        }
      }
      var b := synth.Chance(85);
      r := Some(b);
    }

    /** object: its properties drawn, then emitted in declared order. */
    method DrawObject(s: JsonValues.Node, depth: nat) returns (r: Made, ghost t: Tree)
      requires depth <= MAX_DEPTH
      modifies synth
      ensures !r.Gone? && fresh(Objs(t))
      ensures r.Made? ==> Owns(r.v, t) && Proper(t) && View(t).Ord?
      ensures r.Made? ==> YieldsObject(defs, s, depth, View(t).keys, View(t).vals)
      ensures AnswerableObject(defs, s, depth) ==> r.Made?
      ensures Computes(r, t, synth.pos, RunOfType(defs, s, "object", depth, Source(), old(synth.pos)))
      decreases MAX_DEPTH - depth, Height(Obj(s)), 3, 0
    {
      TypedIsOutcome(defs, s, "object", depth, Source(), synth.pos);
      var names := DrawOrder(s);
      r, t := ObjectOfDrawn(s, names, depth);
    }

    method ObjectOfDrawn(s: JsonValues.Node, names: seq<string>, depth: nat) returns (r: Made, ghost t: Tree)
      requires depth <= MAX_DEPTH && Distinct(names) && forall i | 0 <= i < |names| :: names[i] in PropsOf(s)
      modifies synth
      ensures (r.Made? ==> Owns(r.v, t) && Proper(t)) && !r.Gone? && fresh(Objs(t))
      ensures var run := RunProps(defs, s, depth, names, |names|, Source(), old(synth.pos));
              if r.Made? then run.made.Some? && run.pos == synth.pos && View(t) == ObjectOf(s, run.made.value)
              else run.made.None?
      decreases MAX_DEPTH - depth, Height(Obj(s)), 2, 1
    {
      t := TScalar(Null);
      var ok, result, ts := DrawProperties(s, names, depth);
      if !ok { return Failed, t; }
      EntriesAllocated(ts);
      var v;
      v, t := EmitRecord(s, result, ts);
      r := Made(v);
    }

    /** One property: left out where it is drawn so, or where its node is absent. */
    method DrawProperty(s: JsonValues.Node, name: string, depth: nat) returns (r: Made, ghost t: Tree)
      requires depth <= MAX_DEPTH && name in PropsOf(s)
      modifies synth
      ensures (r.Made? ==> Owns(r.v, t) && Proper(t)) && fresh(Objs(t))
      ensures Computes(r, t, synth.pos, RunProp(defs, s, name, depth, Source(), old(synth.pos)))
      decreases MAX_DEPTH - depth, Height(Obj(s)), 0
    {
      t := TScalar(Null);
      var prop := PropsOf(s)[name];
      if !prop.Obj? { return Failed, t; }
      var wanted := ShouldInclude(ListAt(s, "required").GetOr([]), name);
      if wanted.None? { return Failed, t; }
      if !wanted.value { return Gone, t; }
      PropsHeight(s);
      HeightField(PropsOf(s), name);
      r, t := Dispatch(prop.fields, depth);
    }

    /** One property more, beside those already drawn. */
    method DrawNext(s: JsonValues.Node, name: string, depth: nat, result: map<string, Val>,
                    ghost ts: map<string, Tree>)
      returns (ok: bool, result': map<string, Val>, ghost ts': map<string, Tree>)
      requires depth <= MAX_DEPTH && name in PropsOf(s) && name !in ts
      requires Entries(result, ts) && EntriesDisjoint(ts) && synth !in EntrySet(ts)
      modifies synth
      ensures ok ==> Entries(result', ts') && EntriesDisjoint(ts') && ts'.Keys <= ts.Keys + {name}
      ensures ok ==> forall o | o in EntrySet(ts') :: o in EntrySet(ts) || fresh(o)
      ensures var run := RunProp(defs, s, name, depth, Source(), old(synth.pos));
              if ok then run.made.Some? && run.pos == synth.pos &&
                         ViewsByName(ts') == WithProp(ViewsByName(ts), name, run.made.value)
              else run.made.None?
      decreases MAX_DEPTH - depth, Height(Obj(s)), 1
    {
      ok, result', ts' := true, result, ts;
      EntriesAllocated(ts);
      var r, t := DrawProperty(s, name, depth);
      match r
      case Failed => ok := false;
      case Made(v) =>
        EntryAdded(ts, name, t);
        EntryOwned(result, ts, name, v, t);
        ViewsWith(ts, name, t);
        result', ts' := result[name := v], ts[name := t];
      case Gone =>
    }

    /** The properties drawn in an order, an absent one left out. */
    method DrawProperties(s: JsonValues.Node, names: seq<string>, depth: nat)
      returns (ok: bool, result: map<string, Val>, ghost ts: map<string, Tree>)
      requires depth <= MAX_DEPTH && Distinct(names) && forall i | 0 <= i < |names| :: names[i] in PropsOf(s)
      modifies synth
      ensures ok ==> Entries(result, ts) && EntriesDisjoint(ts) && fresh(EntrySet(ts))
      ensures var run := RunProps(defs, s, depth, names, |names|, Source(), old(synth.pos));
              if ok then run == Run(Some(ViewsByName(ts)), synth.pos) else run.made.None?
      decreases MAX_DEPTH - depth, Height(Obj(s)), 2, 0
    {
      ok, result, ts := true, map[], map[];
      NoEntries();
      for i := 0 to |names|
        invariant Entries(result, ts) && EntriesDisjoint(ts) && fresh(EntrySet(ts))
        invariant ts.Keys <= Elements(names[..i])
        invariant RunProps(defs, s, depth, names, i, Source(), old(synth.pos)) == Run(Some(ViewsByName(ts)), synth.pos)
      {
        NextName(names, i);
        ok, result, ts := DrawNext(s, names[i], depth, result, ts);
        if !ok {
          PropsStopThere(defs, s, depth, names, |names|, i + 1, Source(), old(synth.pos));
          return;
        }
      }
    }
  }

  // ----- Items and properties drawn one more -----

  lemma {:induction false} NoItemsYet(defs: JsonValues.Node, items: JsonValues.Node, depth: nat, st: Stream, pos: nat)
    requires depth <= MAX_DEPTH
    ensures RunItems(defs, items, 0, depth, st, pos) == Run(Some(Views([])), pos)
  {
    assert Views([]) == [];
  }

  /** One item more of a row. */
  lemma {:induction false} ItemsGoOn(defs: JsonValues.Node, items: JsonValues.Node, i: nat, depth: nat, st: Stream,
                                     pos: nat, ts: seq<Tree>, item: Made, t: Tree, next: nat)
    requires depth <= MAX_DEPTH && RunItems(defs, items, i, depth, st, pos).made == Some(Views(ts))
    requires Computes(item, t, next, RunNode(defs, items, depth, st, RunItems(defs, items, i, depth, st, pos).pos))
    ensures RunItems(defs, items, i + 1, depth, st, pos).made.None? <==> item.Failed?
    ensures !item.Failed? ==> RunItems(defs, items, i + 1, depth, st, pos) ==
                                Run(Some(Views(if item.Made? then ts + [t] else ts)), next)
  {
    ViewsSnoc(ts, t);
  }

  // ----- A loop that is stopped -----

  lemma {:induction false} StopsThere(defs: Node, items: Node, count: nat, n: nat, depth: nat, st: Stream, pos: nat)
    requires depth <= MAX_DEPTH && n <= count && RunItems(defs, items, n, depth, st, pos).made.None?
    ensures RunItems(defs, items, count, depth, st, pos).made.None?
    decreases count
  {
    if n < count { StopsThere(defs, items, count - 1, n, depth, st, pos); }
  }

  lemma {:induction false} PropsStopThere(defs: Node, s: Node, depth: nat, names: seq<string>, count: nat, n: nat,
                                          st: Stream, pos: nat)
    requires depth <= MAX_DEPTH && n <= count <= |names| && forall i | 0 <= i < |names| :: names[i] in PropsOf(s)
    requires RunProps(defs, s, depth, names, n, st, pos).made.None?
    ensures RunProps(defs, s, depth, names, count, st, pos).made.None?
    decreases count
  {
    if n < count { PropsStopThere(defs, s, depth, names, count - 1, n, st, pos); }
  }

  /** object's result, emitted as the schema declares it. */
  method EmitRecord(s: JsonValues.Node, result: map<string, Val>, ghost ts: map<string, Tree>)
    returns (v: Val, ghost t: Tree)
    requires Entries(result, ts) && EntriesDisjoint(ts) && ts.Keys <= PropsOf(s).Keys
    ensures Owns(v, t) && Proper(t) && forall o | o in Objs(t) :: o in EntrySet(ts) || fresh(o)
    ensures View(t) == ObjectOf(s, ViewsByName(ts))
  {
    EntriesAllocated(ts);
    var order := ReadDeclaredOrder(s, PropsOf(s).Keys);
    OrderByShape(Recorded(s), PropsOf(s).Keys);
    v, t := EmitObject(order, result, ts);
    EmittedIsObject(s, t, ts);
  }

  /** The properties drawn, emitted in the order the schema declares them. */
  method EmitObject(order: seq<string>, result: map<string, Val>, ghost ts: map<string, Tree>)
    returns (v: Val, ghost t: Tree)
    requires Entries(result, ts) && EntriesDisjoint(ts) && Distinct(order)
    ensures Owns(v, t) && Proper(t) && EmittedAs(t, order, ts)
    ensures forall o | o in Objs(t) :: o in EntrySet(ts) || fresh(o)
  {
    var keys: seq<string> := [];
    var vals: seq<Val> := [];
    ghost var kids: seq<Tree> := [];
    for i := 0 to |order|
      invariant keys == Emitted(order[..i], ts.Keys) && Picks(keys, kids, ts)
      invariant Row(vals, kids)
    {
      assert order[..i + 1][..i] == order[..i];
      if order[i] in result {
        assert Row(vals + [result[order[i]]], kids + [ts[order[i]]]);
        keys := keys + [order[i]];
        vals, kids := vals + [result[order[i]]], kids + [ts[order[i]]];
      }
    }
    assert order[..|order|] == order;
    EmittedExact(order, ts.Keys);
    PicksApart(keys, kids, ts);
    v, t := NewObject(keys, vals, kids);
  }

  /** An object's kids are the entries under its keys. */
  ghost predicate Picks(keys: seq<string>, kids: seq<Tree>, ts: map<string, Tree>) {
    |keys| == |kids| && forall i | 0 <= i < |keys| :: keys[i] in ts && kids[i] == ts[keys[i]]
  }

  ghost predicate EmittedAs(t: Tree, order: seq<string>, ts: map<string, Tree>) {
    t.TObject? && t.keys == Emitted(order, ts.Keys) && Picks(t.keys, t.kids, ts)
  }

  lemma PicksApart(keys: seq<string>, kids: seq<Tree>, ts: map<string, Tree>)
    requires Picks(keys, kids, ts) && Distinct(keys) && EntriesDisjoint(ts)
    ensures RowApart(kids) && KidObjs(kids) <= EntrySet(ts)
  {
    forall i, j | 0 <= i < j < |kids| ensures Objs(kids[i]) !! Objs(kids[j]) {
      assert keys[i] != keys[j];
    }
  }

  /** An object emitted from the properties drawn is the one of their values. */
  lemma EmittedIsObject(s: JsonValues.Node, t: Tree, ts: map<string, Tree>)
    requires ts.Keys <= PropsOf(s).Keys && EmittedAs(t, DeclaredOrder(s, PropsOf(s).Keys), ts)
    ensures View(t) == ObjectOf(s, ViewsByName(ts))
  {
    var o := ObjectOf(s, ViewsByName(ts));
    assert ViewsByName(ts).Keys == ts.Keys;
    assert View(t).keys == o.keys;
    assert View(t).vals == o.vals;
  }
}
