/** Walk.Locate and resolveGuaranteed as they run (internal/generator/walk.go). */
module SchemaWalk {
  import opened JsonValues
  import opened SchemaTypes
  import opened SchemaMerge
  import opened Generation
  import opened Paths
  import opened GuaranteedWalk

  /** resolveGuaranteed: the loop ends on every schema, cyclic $defs included, since each
      turn follows a $ref within the budget or merges into a shallower schema. */
  method ResolveGuaranteed(defs: Node, s: Node, d: nat, into: bool) returns (r: Option<(Node, nat)>)
    requires d <= MAX_DEPTH
    ensures r == Resolve(defs, s, d, into)
  {
    var schema, depth := s, d;
    while true
      invariant depth <= MAX_DEPTH
      invariant Resolve(defs, s, d, into) == Resolve(defs, schema, depth, into)
      decreases MAX_DEPTH - depth, Height(Obj(schema))
    {
      if StrAt(schema, "$ref").Some? {
        var target := LookupDef(defs, schema["$ref"].s);
        if target.None? || depth >= MAX_DEPTH { return None; }
        schema, depth := target.value, depth + 1;
      } else {
        if into && IsLiteral(schema) { return None; }
        if ListAt(schema, "allOf").None? {
          if "oneOf" in schema || "anyOf" in schema { return None; }
          return Some((schema, depth));
        }
        var merged := MergeSchemas(schema["allOf"].items);
        if merged.None? { return None; }
        AllOfShrinks(schema);
        schema := merged.value;
      }
    }
  }

  method IsAlways(s: Node, t: string) returns (r: bool)
    ensures r == Always(s, t)
  {
    var types := ReadTypeList(s);
    r := types == Some([t]);
  }

  method TakeStep(s: Node, step: Step) returns (r: Option<Node>)
    ensures r == Descend(s, step)
  {
    if step.index >= 0 {
      var always := IsAlways(s, "array");
      return if always && step.index < MinItems(s) then NodeAt(s, "items") else None;
    }
    var always := IsAlways(s, "object");
    var required := ListAt(s, "required").Some? && Str(step.field) in s["required"].items;
    r := if always && required then NodeAt(PropsOf(s), step.field) else None;
  }

  method ReadStep(s: Node, step: Step) returns (r: Step)
    ensures r == StepOf(s, step)
  {
    if !step.token { return step; }
    var types := ReadTypeList(s);
    var n := TokenIndex(step.field);
    r := if n.Some? && types.Some? && "array" in types.value then IndexStep(n.value) else FieldStep(step.field);
  }

  /** What a walk that has read steps and reached s makes of the rest of its path. */
  ghost function Continue(steps: seq<Step>, rest: Option<Located>): Option<Located> {
    if rest.None? then None else Some(rest.value.(steps := steps + rest.value.steps))
  }

  method Locate(defs: Node, root: Node, path: seq<Step>) returns (r: Option<(seq<Step>, Node)>)
    ensures r.Some? <==> LocateFrom(defs, root, 0, path).Some?
    ensures r.Some? ==> r.value.0 == LocateFrom(defs, root, 0, path).value.steps
                        && r.value.1 == LocateFrom(defs, root, 0, path).value.field
  {
    var steps: seq<Step> := [];
    var current: Node, depth: nat := root, 0;
    ghost var all := LocateFrom(defs, root, 0, path);
    assert path[0..] == path && Continue([], all) == all by {
      if all.Some? { assert [] + all.value.steps == all.value.steps; }
    }
    for i := 0 to |path|
      invariant depth <= MAX_DEPTH && |steps| == i
      invariant all == Continue(steps, LocateFrom(defs, current, depth, path[i..]))
    {
      assert path[i..][1..] == path[i + 1..];
      var here := ResolveGuaranteed(defs, current, depth, true);
      if here.None? { return None; }
      var step := ReadStep(here.value.0, path[i]);
      var next := TakeStep(here.value.0, step);
      if next.None? { return None; }
      ContinueStep(steps, step, LocateFrom(defs, next.value, here.value.1, path[i + 1..]));
      steps := steps + [step];
      current, depth := next.value, here.value.1;
    }
    assert path[|path|..] == [];
    var final := ResolveGuaranteed(defs, current, depth, false);
    if final.None? { return None; }
    assert steps + [] == steps;
    r := Some((steps, final.value.0));
  }

  lemma ContinueStep(steps: seq<Step>, step: Step, rest: Option<Located>)
    ensures Continue(steps, Continue([step], rest)) == Continue(steps + [step], rest)
  {
    if rest.Some? {
      assert steps + ([step] + rest.value.steps) == steps + [step] + rest.value.steps;
    }
  }
}
