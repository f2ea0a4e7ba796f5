/** The static walk (internal/generator/walk.go): where generation puts a value in every
    record. WalkSound proves it against what the generator can yield, for every draw. */
module GuaranteedWalk {
  import opened JsonValues
  import opened Sorting
  import opened SchemaTypes
  import opened SchemaMerge
  import opened Generation
  import opened Paths
  import opened KeyPaths

  /** resolveGuaranteed: the schema generation walks here, and the depth it walks it at. */
  ghost function Resolve(defs: Node, s: Node, depth: nat, into: bool): (r: Option<(Node, nat)>)
    requires depth <= MAX_DEPTH
    ensures r.Some? ==> r.value.1 <= MAX_DEPTH
    decreases MAX_DEPTH - depth, Height(Obj(s))
  {
    if StrAt(s, "$ref").Some? then
      var target := LookupDef(defs, s["$ref"].s);
      if target.None? || depth >= MAX_DEPTH then None else Resolve(defs, target.value, depth + 1, into)
    else if into && IsLiteral(s) then None
    else if ListAt(s, "allOf").Some? then
      var merged := MergeAll(s["allOf"].items);
      if merged.None? then None else
        AllOfShrinks(s);
        Resolve(defs, merged.value, depth, into)
    else if "oneOf" in s || "anyOf" in s then None
    else Some((s, depth))
  }

  /** always: every value of s is of type t. */
  ghost predicate Always(s: Node, t: string) { TypeList(s) == Some([t]) }

  /** descend: one step that every value of s can take. */
  ghost function Descend(s: Node, step: Step): Option<Node> {
    if step.index >= 0 then
      if Always(s, "array") && step.index < MinItems(s) then NodeAt(s, "items") else None
    else
      if Always(s, "object") && Required(s, step.field) then NodeAt(PropsOf(s), step.field) else None
  }

  /** A token reads as an index where it prints one and the schema allows an array. */
  ghost function StepOf(s: Node, step: Step): Step {
    if !step.token then step
    else if TokenIndex(step.field).Some? && TypeList(s).Some? && "array" in TypeList(s).value
    then IndexStep(TokenIndex(step.field).value)
    else FieldStep(step.field)
  }

  function TokenIndex(token: string): Option<nat> {
    var n := Atoi(token);
    if n.Some? && n.value >= 0 && Itoa(n.value) == token then Some(n.value) else None
  }

  /** Where a path leads: the steps resolved, the schema node there with the depth it is
      generated at, and the field that node resolves to. */
  datatype Located = Located(steps: seq<Step>, end: Node, depth: nat, field: Node)

  ghost function LocateFrom(defs: Node, s: Node, depth: nat, path: seq<Step>): (r: Option<Located>)
    requires depth <= MAX_DEPTH
    ensures r.Some? ==> r.value.depth <= MAX_DEPTH
    decreases |path|
  {
    if path == [] then
      var end := Resolve(defs, s, depth, false);
      if end.None? then None else Some(Located([], s, depth, end.value.0))
    else
      var here := Resolve(defs, s, depth, true);
      if here.None? then None else
        var step := StepOf(here.value.0, path[0]);
        var next := Descend(here.value.0, step);
        if next.None? then None else
          var rest := LocateFrom(defs, next.value, here.value.1, path[1..]);
          if rest.None? then None else Some(rest.value.(steps := [step] + rest.value.steps))
  }

  // ----- Soundness -----

  lemma IsLiteralExact(s: Node)
    ensures IsLiteral(s) <==> LiteralsOf(s) != []
  {
  }

  lemma AllOfNode(defs: Node, s: Node, depth: nat, o: Outcome)
    requires depth <= MAX_DEPTH && Yields(defs, s, depth, o)
    requires StrAt(s, "$ref").None? && LiteralsOf(s) == [] && ListAt(s, "allOf").Some?
    ensures MergeAll(s["allOf"].items).Some? && Yields(defs, MergeAll(s["allOf"].items).value, depth, o)
  {
  }

  lemma RefNode(defs: Node, s: Node, depth: nat, o: Outcome)
    requires depth < MAX_DEPTH && StrAt(s, "$ref").Some? && Yields(defs, s, depth, o)
    ensures LookupDef(defs, s["$ref"].s).Some? && Yields(defs, LookupDef(defs, s["$ref"].s).value, depth + 1, o)
  {
    assert YieldsRef(defs, s["$ref"].s, depth, o);
  }

  /** A node the generator builds a value for is never absent. */
  lemma TypedNode(defs: Node, s: Node, depth: nat, o: Outcome)
    requires depth <= MAX_DEPTH && Yields(defs, s, depth, o)
    requires StrAt(s, "$ref").None? && LiteralsOf(s) == [] && ListAt(s, "allOf").None? && Branches(s) == []
    ensures o.Value? && TypeList(s).Some? && exists t :: t in TypeList(s).value && YieldsTyped(defs, s, t, depth, o)
  {
    var t :| t in TypeList(s).value && YieldsTyped(defs, s, t, depth, o);
  }

  /** The walk refuses every node whose depth budget may run out. */
  lemma {:induction false} NeverAbsent(defs: Node, s: Node, depth: nat, into: bool)
    requires depth <= MAX_DEPTH && Resolve(defs, s, depth, into).Some?
    ensures !Yields(defs, s, depth, Absent)
    decreases MAX_DEPTH - depth, Height(Obj(s))
  {
    if Yields(defs, s, depth, Absent) {
      if StrAt(s, "$ref").Some? {
        RefNode(defs, s, depth, Absent);
        NeverAbsent(defs, LookupDef(defs, s["$ref"].s).value, depth + 1, into);
      } else if LiteralsOf(s) == [] {
        IsLiteralExact(s);
        if ListAt(s, "allOf").Some? {
          AllOfNode(defs, s, depth, Absent);
          AllOfShrinks(s);
          NeverAbsent(defs, MergeAll(s["allOf"].items).value, depth, into);
        } else {
          TypedNode(defs, s, depth, Absent);
        }
      }
    }
  }

  /** What the generator yields for s it yields for the schema s resolves to. */
  lemma {:induction false} ResolveSound(defs: Node, s: Node, depth: nat, o: Outcome)
    requires depth <= MAX_DEPTH && Resolve(defs, s, depth, true).Some?
    requires Yields(defs, s, depth, o)
    ensures var r := Resolve(defs, s, depth, true).value;
            && Yields(defs, r.0, r.1, o)
            && StrAt(r.0, "$ref").None? && LiteralsOf(r.0) == [] && ListAt(r.0, "allOf").None? && Branches(r.0) == []
    decreases MAX_DEPTH - depth, Height(Obj(s))
  {
    IsLiteralExact(s);
    if StrAt(s, "$ref").Some? {
      RefNode(defs, s, depth, o);
      ResolveSound(defs, LookupDef(defs, s["$ref"].s).value, depth + 1, o);
    } else if ListAt(s, "allOf").Some? {
      AllOfNode(defs, s, depth, o);
      AllOfShrinks(s);
      ResolveSound(defs, MergeAll(s["allOf"].items).value, depth, o);
    }
  }

  lemma PropNode(defs: Node, props: Node, name: string, depth: nat, o: Outcome)
    requires depth <= MAX_DEPTH && NodeAt(props, name).Some?
    ensures YieldsProp(defs, props, name, depth, o) <==> Yields(defs, NodeAt(props, name).value, depth, o)
  {
  }

  /** A required property is in the object, or its schema came out absent. */
  lemma RequiredEntry(defs: Node, s: Node, depth: nat, name: string, keys: seq<string>, vals: seq<Json>)
    requires depth <= MAX_DEPTH && YieldsObject(defs, s, depth, keys, vals)
    requires Required(s, name) && name in PropsOf(s)
    ensures |keys| == |vals|
    ensures if IndexOf(keys, name) < |keys|
            then YieldsProp(defs, PropsOf(s), name, depth, Value(vals[IndexOf(keys, name)]))
            else YieldsProp(defs, PropsOf(s), name, depth, Absent)
  {
    var i := IndexOf(keys, name);
    if i < |keys| { assert keys[i] == name; }
  }

  lemma ArrayStep(defs: Node, s: Node, depth: nat, i: nat, vals: seq<Json>)
    requires depth <= MAX_DEPTH && YieldsArray(defs, s, depth, vals)
    requires NodeAt(s, "items").Some? && i < MinItems(s)
    requires !Yields(defs, s["items"].fields, depth, Absent)
    ensures i < |vals| && Yields(defs, s["items"].fields, depth, Value(vals[i]))
  {
  }

  lemma DescendSound(defs: Node, s: Node, depth: nat, step: Step, o: Outcome)
    requires depth <= MAX_DEPTH && Yields(defs, s, depth, o)
    requires StrAt(s, "$ref").None? && LiteralsOf(s) == [] && ListAt(s, "allOf").None? && Branches(s) == []
    requires Descend(s, step).Some? && !Yields(defs, Descend(s, step).value, depth, Absent)
    ensures o.Value? && Child(o.v, step).Some?
    ensures Yields(defs, Descend(s, step).value, depth, Value(Child(o.v, step).value))
  {
    TypedNode(defs, s, depth, o);
    var t :| t in TypeList(s).value && YieldsTyped(defs, s, t, depth, o);
    var next := Descend(s, step).value;
    if step.index >= 0 {
      IndexSound(defs, s, depth, step, next, t, o);
    } else {
      FieldSound(defs, s, depth, step, next, t, o);
    }
  }

  lemma IndexSound(defs: Node, s: Node, depth: nat, step: Step, next: Node, t: string, o: Outcome)
    requires depth <= MAX_DEPTH && TypeList(s).Some? && t in TypeList(s).value && YieldsTyped(defs, s, t, depth, o)
    requires step.index >= 0 && Descend(s, step) == Some(next) && !Yields(defs, next, depth, Absent)
    ensures o.Value? && Child(o.v, step).Some? && Yields(defs, next, depth, Value(Child(o.v, step).value))
  {
    assert t == "array";
    ArrayStep(defs, s, depth, step.index, o.v.items);
  }

  lemma FieldSound(defs: Node, s: Node, depth: nat, step: Step, next: Node, t: string, o: Outcome)
    requires depth <= MAX_DEPTH && TypeList(s).Some? && t in TypeList(s).value && YieldsTyped(defs, s, t, depth, o)
    requires step.index < 0 && Descend(s, step) == Some(next) && !Yields(defs, next, depth, Absent)
    ensures o.Value? && Child(o.v, step).Some? && Yields(defs, next, depth, Value(Child(o.v, step).value))
  {
    assert t == "object";
    YieldsAsObject(defs, s, depth, o);
    ObjectStep(defs, s, depth, step.field, o.v.keys, o.v.vals);
    ChildOfOrd(o.v.keys, o.v.vals, step);
  }

  lemma {:induction false} YieldsAsObject(defs: Node, s: Node, depth: nat, o: Outcome)
    requires depth <= MAX_DEPTH && YieldsTyped(defs, s, "object", depth, o)
    ensures o.Value? && o.v.Ord? && YieldsObject(defs, s, depth, o.v.keys, o.v.vals)
  {
  }

  lemma {:induction false} ChildOfOrd(keys: seq<string>, vals: seq<Json>, step: Step)
    requires step.index < 0 && IndexOf(keys, step.field) < |keys| == |vals|
    ensures Child(Ord(keys, vals), step) == Some(vals[IndexOf(keys, step.field)])
  {
  }

  /** A required property whose schema never comes out absent is in the object. */
  lemma {:induction false} ObjectStep(defs: Node, s: Node, depth: nat, name: string, keys: seq<string>, vals: seq<Json>)
    requires depth <= MAX_DEPTH && YieldsObject(defs, s, depth, keys, vals) && Required(s, name)
    requires NodeAt(PropsOf(s), name).Some? && !Yields(defs, NodeAt(PropsOf(s), name).value, depth, Absent)
    ensures IndexOf(keys, name) < |keys| == |vals|
    ensures Yields(defs, NodeAt(PropsOf(s), name).value, depth, Value(vals[IndexOf(keys, name)]))
  {
    PropNode(defs, PropsOf(s), name, depth, Absent);
    RequiredEntry(defs, s, depth, name, keys, vals);
    PropNode(defs, PropsOf(s), name, depth, Value(vals[IndexOf(keys, name)]));
  }

  /** Soundness: a path the walk accepts exists in every value the generator returns,
      whatever the draws, and the value there was generated from the node the path ends at. */
  lemma {:induction false} WalkSound(defs: Node, s: Node, depth: nat, path: seq<Step>, o: Outcome)
    requires depth <= MAX_DEPTH && LocateFrom(defs, s, depth, path).Some?
    requires Yields(defs, s, depth, o)
    ensures var l := LocateFrom(defs, s, depth, path).value;
            && o.Value? && At(o.v, l.steps).Some?
            && Yields(defs, l.end, l.depth, Value(At(o.v, l.steps).value))
            && |l.steps| == |path|
    decreases |path|
  {
    var l := LocateFrom(defs, s, depth, path).value;
    if path == [] {
      NeverAbsent(defs, s, depth, false);
      assert o.Value?;
    } else {
      var here := Resolve(defs, s, depth, true).value;
      ResolveSound(defs, s, depth, o);
      var step := StepOf(here.0, path[0]);
      var next := Descend(here.0, step).value;
      FirstStepSound(defs, here.0, here.1, step, next, path[1..], o);
      WalkSound(defs, next, here.1, path[1..], Value(Child(o.v, step).value));
      AtFurther(o.v, step, LocateFrom(defs, next, here.1, path[1..]).value.steps);
    }
  }

  /** A step that a longer path takes is there, for nothing the path goes on through is absent. */
  lemma {:induction false} FirstStepSound(defs: Node, s: Node, depth: nat, step: Step, next: Node, rest: seq<Step>,
                                          o: Outcome)
    requires depth <= MAX_DEPTH && Descend(s, step) == Some(next) && LocateFrom(defs, next, depth, rest).Some?
    requires StrAt(s, "$ref").None? && LiteralsOf(s) == [] && ListAt(s, "allOf").None? && Branches(s) == []
    requires Yields(defs, s, depth, o)
    ensures o.Value? && Child(o.v, step).Some? && Yields(defs, next, depth, Value(Child(o.v, step).value))
  {
    NeverAbsent(defs, next, depth, rest != []);
    DescendSound(defs, s, depth, step, o);
  }

  lemma {:induction false} AtFurther(v: Json, step: Step, steps: seq<Step>)
    requires Child(v, step).Some?
    ensures At(v, [step] + steps) == At(Child(v, step).value, steps)
  {
    assert ([step] + steps)[1..] == steps;
  }
}
