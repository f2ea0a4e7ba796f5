/** Outcomes the generator's relation has: where it answers every schema within reach, each type
    drawn comes to some value, and each required property and guaranteed item to every value its
    own schema has (internal/generator/generator.go). */
module Outcomes {
  import opened JsonValues
  import opened Sorting
  import opened PropertyOrder
  import opened SchemaTypes
  import opened SchemaMerge
  import opened Draws
  import opened Paths
  import opened Generation

  // ----- Objects -----

  /** Values for properties that their schemas yield, for every required one that is not absent. */
  ghost predicate Chosen(defs: Node, s: Node, depth: nat, vals: map<string, Json>)
    requires depth <= MAX_DEPTH
  {
    var props := PropsOf(s);
    PropsReadable(s) && vals.Keys <= props.Keys
    && (forall name | name in vals :: YieldsProp(defs, props, name, depth, Outcome.Value(vals[name])))
    && (forall name | name in props && name !in vals && Required(s, name) ::
          YieldsProp(defs, props, name, depth, Absent))
  }

  /** The object of such values: its keys in declared order. */
  ghost function ObjectOf(s: Node, vals: map<string, Json>): (o: Json)
    requires vals.Keys <= PropsOf(s).Keys
    ensures o.Ord? && o.keys == Emitted(DeclaredOrder(s, PropsOf(s).Keys), vals.Keys)
    ensures Distinct(o.keys) && Elements(o.keys) == vals.Keys && |o.vals| == |o.keys|
    ensures forall i | 0 <= i < |o.keys| :: o.keys[i] in vals && o.vals[i] == vals[o.keys[i]]
  {
    var order := DeclaredOrder(s, PropsOf(s).Keys);
    OrderByShape(Recorded(s), PropsOf(s).Keys);
    EmittedExact(order, vals.Keys);
    var keys := Emitted(order, vals.Keys);
    assert Elements(order) * vals.Keys == vals.Keys;
    assert forall i | 0 <= i < |keys| :: keys[i] in Elements(keys);
    Ord(keys, seq(|keys|, i requires 0 <= i < |keys| => vals[keys[i]]))
  }

  lemma {:induction false} ObjectIsYielded(defs: Node, s: Node, depth: nat, vals: map<string, Json>)
    requires depth <= MAX_DEPTH && Chosen(defs, s, depth, vals)
    ensures YieldsObject(defs, s, depth, ObjectOf(s, vals).keys, ObjectOf(s, vals).vals)
  {
    var o := ObjectOf(s, vals);
    forall name | name in PropsOf(s) && name !in o.keys && Required(s, name)
      ensures YieldsProp(defs, PropsOf(s), name, depth, Absent)
    {
      assert name !in Elements(o.keys);
    }
  }

  /** It has a field exactly where a value was chosen, and that value there. */
  lemma {:induction false} ObjectField(s: Node, vals: map<string, Json>, f: string)
    requires vals.Keys <= PropsOf(s).Keys
    ensures Child(ObjectOf(s, vals), FieldStep(f)) == if f in vals then Some(vals[f]) else None
  {
    var o := ObjectOf(s, vals);
    var i := IndexOf(o.keys, f);
    if f in vals {
      assert f in Elements(o.keys);
    } else {
      assert f !in Elements(o.keys);
      assert forall j | 0 <= j < |o.keys| :: o.keys[j] in Elements(o.keys);
    }
  }

  // ----- Some outcome for every schema the generator answers -----

  lemma {:induction false} AnswerableSome(defs: Node, s: Node, depth: nat) returns (o: Outcome)
    requires depth <= MAX_DEPTH && Answerable(defs, s, depth)
    ensures Yields(defs, s, depth, o)
    decreases MAX_DEPTH - depth, Height(Obj(s)), 3
  {
    if StrAt(s, "$ref").Some? {
      var target := LookupDef(defs, s["$ref"].s).value;
      if depth == MAX_DEPTH {
        o := if TypeList(target).Some? && "null" in TypeList(target).value then Value(Null) else Absent;
      } else {
        o := AnswerableSome(defs, target, depth + 1);
      }
    } else if LiteralsOf(s) != [] {
      o := Value(LiteralsOf(s)[0]);
    } else if ListAt(s, "allOf").Some? {
      AllOfShrinks(s);
      o := AnswerableSome(defs, MergeAll(s["allOf"].items).value, depth);
    } else if Branches(s) != [] {
      BranchHeight(s, 0);
      o := AnswerableSome(defs, Branches(s)[0].fields, depth);
    } else {
      TypesOfShape(s["type"]);
      var t := TypeList(s).value[0];
      var v := AnswerableTyped(defs, s, depth, t);
      o := Value(v);
    }
  }

  /** A node built by its type: no reference, literal, allOf or choice. */
  ghost predicate ByType(s: Node) {
    StrAt(s, "$ref").None? && LiteralsOf(s) == [] && ListAt(s, "allOf").None? && Branches(s) == []
  }

  lemma {:induction false} AnswerableTyped(defs: Node, s: Node, depth: nat, t: string) returns (v: Json)
    requires depth <= MAX_DEPTH && ByType(s) && Answerable(defs, s, depth)
    requires TypeList(s).Some? && t in TypeList(s).value
    ensures YieldsTyped(defs, s, t, depth, Value(v))
    decreases MAX_DEPTH - depth, Height(Obj(s)), 2
  {
    if t == "object" {
      var vals := ChooseAll(defs, s, depth, PropsOf(s).Keys);
      AnswerableIsReadable(defs, s, depth);
      ObjectIsYielded(defs, s, depth, vals);
      v := ObjectOf(s, vals);
    } else if t == "array" {
      var vals := AnswerableArrayOf(defs, s, depth);
      v := Arr(vals);
    } else {
      TypesOfShape(s["type"]);
      v := LeafSome(s, t);
    }
  }

  lemma {:induction false} AnswerableIsReadable(defs: Node, s: Node, depth: nat)
    requires depth <= MAX_DEPTH && AnswerableObject(defs, s, depth)
    ensures PropsReadable(s)
  {
    forall name | name in PropsOf(s)
      ensures PropsOf(s)[name].Obj? && Readable(ListAt(s, "required").GetOr([]), name)
    {
      assert AnswerableProp(defs, s, name, depth);
    }
  }

  lemma {:induction false} LeafSome(s: Node, t: string) returns (v: Json)
    requires JsonType(t) && t != "object" && t != "array"
    ensures YieldsLeaf(s, t, v)
  {
    if t == "string" { v := Str(""); }
    else if t == "integer" {
      v := Num(IntegerMin(s) as real);
      assert Drawn(IntegerMin(s), IntegerMin(s), IntegerMax(s));
    }
    else if t == "number" { v := Num(FloatOf(0, NumberMin(s), NumberMax(s))); }
    else if t == "boolean" { v := Bool(true); }
    else { v := Null; }
  }

  /** A value for each of some properties, but those that come out absent. */
  ghost predicate ChosenOf(defs: Node, s: Node, depth: nat, names: set<string>, vals: map<string, Json>)
    requires depth <= MAX_DEPTH && names <= PropsOf(s).Keys
  {
    vals.Keys <= names
    && (forall name | name in vals :: YieldsProp(defs, PropsOf(s), name, depth, Outcome.Value(vals[name])))
    && (forall name | name in names && name !in vals :: YieldsProp(defs, PropsOf(s), name, depth, Absent))
  }

  lemma {:induction false} ChooseAll(defs: Node, s: Node, depth: nat, names: set<string>)
    returns (vals: map<string, Json>)
    requires depth <= MAX_DEPTH && AnswerableObject(defs, s, depth) && names <= PropsOf(s).Keys
    ensures ChosenOf(defs, s, depth, names, vals)
    decreases MAX_DEPTH - depth, Height(Obj(s)), 1, |names|
  {
    vals := map[];
    if names != {} {
      var name :| name in names;
      vals := ChooseAll(defs, s, depth, names - {name});
      var o := PropSome(defs, s, depth, name);
      ChooseOneMore(defs, s, depth, names, vals, name, o);
      if o.Value? { vals := vals[name := o.v]; }
    }
  }

  lemma {:induction false} ChooseOneMore(defs: Node, s: Node, depth: nat, names: set<string>, vals: map<string, Json>,
                                         name: string, o: Outcome)
    requires depth <= MAX_DEPTH && names <= PropsOf(s).Keys && name in names
    requires ChosenOf(defs, s, depth, names - {name}, vals) && YieldsProp(defs, PropsOf(s), name, depth, o)
    ensures ChosenOf(defs, s, depth, names, if o.Value? then vals[name := o.v] else vals)
  {
  }

  lemma {:induction false} PropSome(defs: Node, s: Node, depth: nat, name: string) returns (o: Outcome)
    requires depth <= MAX_DEPTH && AnswerableObject(defs, s, depth) && name in PropsOf(s)
    ensures YieldsProp(defs, PropsOf(s), name, depth, o)
    decreases MAX_DEPTH - depth, Height(Obj(s)), 0, 0
  {
    assert AnswerableProp(defs, s, name, depth);
    PropsHeight(s);
    HeightField(PropsOf(s), name);
    o := AnswerableSome(defs, PropsOf(s)[name].fields, depth);
  }

  lemma {:induction false} AnswerableArrayOf(defs: Node, s: Node, depth: nat) returns (vals: seq<Json>)
    requires depth <= MAX_DEPTH && AnswerableArray(defs, s, depth)
    ensures YieldsArray(defs, s, depth, vals)
    decreases MAX_DEPTH - depth, Height(Obj(s)), 1, 0
  {
    vals := [];
    if NodeAt(s, "items").Some? {
      HeightField(s, "items");
      var o := Absent;
      if MinItems(s) > 0 { o := AnswerableSome(defs, s["items"].fields, depth); }
      vals := Repeated(s, o);
      RepeatedIsYielded(defs, s, depth, o);
    }
  }

  /** An array as short as its schema allows, of one outcome of its items. */
  ghost function Repeated(s: Node, o: Outcome): seq<Json> {
    if o.Value? && MinItems(s) >= 0 then seq(MinItems(s), i => o.v) else []
  }

  lemma {:induction false} RepeatedIsYielded(defs: Node, s: Node, depth: nat, o: Outcome)
    requires depth <= MAX_DEPTH && NodeAt(s, "items").Some? && MinItems(s) >= 0
    requires MinItems(s) > 0 ==> Yields(defs, s["items"].fields, depth, o)
    ensures YieldsArray(defs, s, depth, Repeated(s, o))
  {
    assert Drawn(MinItems(s), MinItems(s), MaxItems(s));
  }
}
