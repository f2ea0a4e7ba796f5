/** Merging message traits (internal/asyncapi/traits.go): JSON Merge Patch, section 2 of
    RFC 7386, and its dual in which the target wins. */
module TraitMerge {
  import opened JsonValues
  import opened SpecRefs

  const MAX_MERGE_DEPTH: nat := 64
  const MAX_REF_CHAIN: nat := 32

  /** refOf: "" when the node is no reference. */
  function RefText(m: Node): string { StrAt(m, "$ref").GetOr("") }

  /** Document.object: the object at the end of a chain of references. */
  function ObjectOf(d: Doc, m: Node, i: nat): Option<Node>
    requires i <= MAX_REF_CHAIN
    decreases MAX_REF_CHAIN - i
  {
    if RefText(m) == "" then Some(m)
    else if i == MAX_REF_CHAIN then None
    else
      var target := Follow(d, RefText(m));
      if target.Some? && target.value.Obj? then ObjectOf(d, target.value.fields, i + 1) else None
  }

  method Object(d: Doc, node: Json) returns (r: Option<Node>)
    ensures r == if node.Obj? then ObjectOf(d, node.fields, 0) else None
  {
    var current := node;
    var i: nat := 0;
    while true
      invariant i <= MAX_REF_CHAIN
      invariant (if node.Obj? then ObjectOf(d, node.fields, 0) else None) ==
                if current.Obj? then ObjectOf(d, current.fields, i) else None
      decreases MAX_REF_CHAIN - i
    {
      if !current.Obj? { return None; }
      var ref := RefText(current.fields);
      if ref == "" { return Some(current.fields); }
      if i == MAX_REF_CHAIN { return None; }
      var target := Pointer(d, ref);
      if target.None? { return None; }
      current := target.value;
      i := i + 1;
    }
  }

  /** What becomes of a key: it fails, or the key is left out, or it holds a value. */
  datatype Outcome = Fails | Leaves | Holds(v: Json)

  function Sub(t: Node, k: string): Node { NodeAt(t, k).GetOr(map[]) }

  /** The patch as merge reads it: a reference is resolved where there is something to merge with. */
  function PatchOf(d: Doc, t: Node, p: Node): Option<Node> { if t != map[] then ObjectOf(d, p, 0) else Some(p) }

  /** Document.merge: mergePatch when the patch wins, underlay otherwise. */
  ghost function Merged(d: Doc, t: Node, patch: Json, wins: bool, depth: nat): Option<Json>
    requires depth <= MAX_MERGE_DEPTH
    decreases MAX_MERGE_DEPTH - depth, 1
  {
    if !patch.Obj? then Some(patch)
    else if depth == MAX_MERGE_DEPTH then None
    else
      var p := PatchOf(d, t, patch.fields);
      if p.None? then None else MergedObject(d, t, p.value, wins, depth)
  }

  ghost function MergedObject(d: Doc, t: Node, p: Node, wins: bool, depth: nat): Option<Json>
    requires depth < MAX_MERGE_DEPTH
    decreases MAX_MERGE_DEPTH - depth, 0, 1
  {
    if exists k :: k in p && MergedKey(d, t, k, p[k], wins, depth).Fails? then None
    else Some(Obj(map k | k in t.Keys + p.Keys && (k in p ==> MergedKey(d, t, k, p[k], wins, depth).Holds?) ::
                    if k in p then MergedKey(d, t, k, p[k], wins, depth).v else t[k]))
  }

  ghost function MergedKey(d: Doc, t: Node, k: string, value: Json, wins: bool, depth: nat): Outcome
    requires depth < MAX_MERGE_DEPTH
    decreases MAX_MERGE_DEPTH - depth, 0, 0
  {
    if value == Null then (if !wins && k in t then Holds(t[k]) else Leaves)
    else if k in t && !wins && !(t[k].Obj? && value.Obj?) then Holds(t[k])
    else if k !in t && !wins then Holds(value)
    else if value.Obj? && k in t && t[k].Obj? then
      if RefText(t[k].fields) != "" && RefText(t[k].fields) == RefText(value.fields) then Holds(t[k])
      else
        var sub := ObjectOf(d, t[k].fields, 0);
        if sub.None? then Fails else Whole(Merged(d, sub.value, value, wins, depth + 1))
    else Whole(Merged(d, Sub(t, k), value, wins, depth + 1))
  }

  function Whole(r: Option<Json>): Outcome { if r.None? then Fails else Holds(r.value) }

  /** What a key of an object holds after a step: the outcome's value, or nothing. */
  ghost predicate Shows(out: Node, k: string, o: Outcome) {
    match o
    case Fails => false
    case Leaves => k !in out
    case Holds(v) => k in out && out[k] == v
  }

  lemma {:induction false} MergedObjectIs(d: Doc, t: Node, p: Node, wins: bool, depth: nat, out: Node)
    requires depth < MAX_MERGE_DEPTH
    requires forall k | k in p :: Shows(out, k, MergedKey(d, t, k, p[k], wins, depth))
    requires forall k | k !in p :: (k in out <==> k in t) && (k in t ==> out[k] == t[k])
    ensures MergedObject(d, t, p, wins, depth) == Some(Obj(out))
  {
    var m := MergedObject(d, t, p, wins, depth);
    assert m.Some?;
    forall k
      ensures k in m.value.fields <==> k in out
      ensures k in out ==> m.value.fields[k] == out[k]
    {
      if k in p { assert Shows(out, k, MergedKey(d, t, k, p[k], wins, depth)); }
    }
    assert m.value.fields == out;
  }

  /** merge: its keys may be taken in any order. */
  method Merge(d: Doc, target: Node, patch: Json, wins: bool, depth: nat) returns (r: Option<Json>)
    requires depth <= MAX_MERGE_DEPTH
    ensures r == Merged(d, target, patch, wins, depth)
    decreases MAX_MERGE_DEPTH - depth, 1
  {
    if !patch.Obj? { return Some(patch); }
    if depth == MAX_MERGE_DEPTH { return None; }
    var p := patch.fields;
    if |target| > 0 {
      var resolved := Object(d, patch);
      if resolved.None? { return None; }
      p := resolved.value;
    }
    r := MergeObject(d, target, p, wins, depth);
  }

  /** The merge of all the patch's keys but those left; under any other key it is the target. */
  ghost predicate MergedBut(d: Doc, t: Node, p: Node, wins: bool, depth: nat, left: set<string>, out: Node)
    requires depth < MAX_MERGE_DEPTH
  {
    && (forall k | k in p && k !in left :: Shows(out, k, MergedKey(d, t, k, p[k], wins, depth)))
    && forall k | k !in p || k in left :: (k in out <==> k in t) && (k in t ==> out[k] == t[k])
  }

  lemma {:induction false} OneKeyMerged(d: Doc, t: Node, p: Node, wins: bool, depth: nat, left: set<string>, out: Node,
                                        key: string, o: Outcome)
    requires depth < MAX_MERGE_DEPTH && key in p && o == MergedKey(d, t, key, p[key], wins, depth)
    requires MergedBut(d, t, p, wins, depth, left, out)
    ensures o.Leaves? ==> MergedBut(d, t, p, wins, depth, left - {key}, out - {key})
    ensures o.Holds? ==> MergedBut(d, t, p, wins, depth, left - {key}, out[key := o.v])
    ensures o.Fails? ==> MergedObject(d, t, p, wins, depth).None?
  {
  }

  /** The loop of merge over the patch's keys. */
  method MergeObject(d: Doc, target: Node, p: Node, wins: bool, depth: nat) returns (r: Option<Json>)
    requires depth < MAX_MERGE_DEPTH
    ensures r == MergedObject(d, target, p, wins, depth)
    decreases MAX_MERGE_DEPTH - depth, 0, 1
  {
    var out := target;
    var keys := p.Keys;
    while keys != {}
      invariant keys <= p.Keys && MergedBut(d, target, p, wins, depth, keys, out)
      decreases keys
    {
      var key :| key in keys;
      var o := MergeOne(d, target, key, p[key], wins, depth);
      OneKeyMerged(d, target, p, wins, depth, keys, out, key, o);
      match o {
        case Fails => return None;
        case Leaves => out := out - {key};
        case Holds(v) => out := out[key := v];
      }
      keys := keys - {key};
    }
    MergedObjectIs(d, target, p, wins, depth, out);
    r := Some(Obj(out));
  }

  /** The body of that loop, for a key the earlier turns left as the target has it. */
  method MergeOne(d: Doc, out: Node, key: string, value: Json, wins: bool, depth: nat) returns (o: Outcome)
    requires depth < MAX_MERGE_DEPTH
    ensures o == MergedKey(d, out, key, value, wins, depth)
    decreases MAX_MERGE_DEPTH - depth, 0, 0
  {
    var declared := key in out;
    var sub: Option<Node> := NodeAt(out, key);
    if value == Null && wins { return Leaves; }
    if value == Null || (declared && !wins && (sub.None? || !value.Obj?)) {
      return if declared then Holds(out[key]) else Leaves;
    }
    if !declared && !wins { return Holds(value); }
    if value.Obj? && sub.Some? {
      var ref := RefText(sub.value);
      if ref != "" && ref == RefText(value.fields) { return Holds(out[key]); }
      sub := Object(d, out[key]);
      if sub.None? { return Fails; }
    }
    var merged := Merge(d, sub.GetOr(map[]), value, wins, depth + 1);
    o := Whole(merged);
  }
}
