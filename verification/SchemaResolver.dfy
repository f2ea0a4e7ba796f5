/** resolver.node and Document.schema (internal/asyncapi/document.go). */
module SchemaResolver {
  import opened JsonValues
  import opened Sorting
  import opened SpecRefs
  import opened OrderStamps
  import opened RefResolver

  // ----- What expansion keeps -----

  /** Every reference kept when a node is expanded leads to a name defined. */
  ghost predicate KeepsIn(d: Doc, u: set<string>, node: Json, stack: seq<string>, names: set<string>)
    requires Within(d, u, node)
    decreases |u - Elements(stack)|, node
  {
    match node
    case Obj(n) =>
      if StrAt(n, "$ref").Some? then
        var ref := n["$ref"].s;
        if ref in stack then NameOf(ref).Some? && NameOf(ref).value in names
        else if Follow(d, ref).None? then true
        else
          FollowWithin(d, u, ref);
          OneLess(u, stack, ref);
          KeepsIn(d, u, Follow(d, ref).value, stack + [ref], names)
      else forall k | k in n :: KeepsIn(d, u, n[k], stack, names)
    case Arr(l) => forall i | 0 <= i < |l| :: KeepsIn(d, u, l[i], stack, names)
    case _ => true
  }

  lemma {:induction false} KeepsInMore(d: Doc, u: set<string>, node: Json, stack: seq<string>, names: set<string>,
                                       more: set<string>)
    requires Within(d, u, node) && KeepsIn(d, u, node, stack, names) && names <= more
    ensures KeepsIn(d, u, node, stack, more)
    decreases |u - Elements(stack)|, node
  {
    match node
    case Obj(n) =>
      if IsRef(node) {
        var ref := RefOf(node);
        if ref !in stack && Follow(d, ref).Some? {
          FollowWithin(d, u, ref);
          OneLess(u, stack, ref);
          KeepsInMore(d, u, Follow(d, ref).value, stack + [ref], names, more);
        }
      } else {
        forall k | k in n ensures KeepsIn(d, u, n[k], stack, more) { KeepsInMore(d, u, n[k], stack, names, more); }
      }
    case Arr(l) =>
      forall i | 0 <= i < |l| ensures KeepsIn(d, u, l[i], stack, more) { KeepsInMore(d, u, l[i], stack, names, more); }
    case _ =>
  }

  /** out is the expanded copy of a node, and what it keeps is defined. */
  ghost predicate Expanded(d: Doc, u: set<string>, node: Json, stack: seq<string>, at: Place, out: Json,
                           names: set<string>) {
    Within(d, u, node) && NodeOf(d, u, node, stack, at) == Some(out) && KeepsIn(d, u, node, stack, names)
  }

  ghost predicate FieldsExpanded(d: Doc, u: set<string>, n: Node, stack: seq<string>, at: Place, out: Node,
                                 names: set<string>) {
    forall k | k in out :: k in n && Expanded(d, u, n[k], stack, at.Child(k), out[k], names)
  }

  ghost predicate ItemsExpanded(d: Doc, u: set<string>, l: seq<Json>, stack: seq<string>, at: Place, out: seq<Json>,
                                names: set<string>) {
    |out| <= |l| && forall i | 0 <= i < |out| :: Expanded(d, u, l[i], stack, at, out[i], names)
  }

  /** One field more, copied when more names are defined. */
  lemma {:induction false} FieldsExpandedMore(d: Doc, u: set<string>, n: Node, stack: seq<string>, at: Place,
                                              out: Node, key: string, v: Json, names: set<string>, more: set<string>)
    requires FieldsExpanded(d, u, n, stack, at, out, names) && names <= more
    requires key in n && Expanded(d, u, n[key], stack, at.Child(key), v, more)
    ensures FieldsExpanded(d, u, n, stack, at, out[key := v], more)
  {
    forall k | k in out ensures Expanded(d, u, n[k], stack, at.Child(k), out[k], more) {
      KeepsInMore(d, u, n[k], stack, names, more);
    }
  }

  lemma {:induction false} ItemsExpandedMore(d: Doc, u: set<string>, l: seq<Json>, stack: seq<string>, at: Place,
                                             out: seq<Json>, v: Json, names: set<string>, more: set<string>)
    requires ItemsExpanded(d, u, l, stack, at, out, names) && names <= more
    requires |out| < |l| && Expanded(d, u, l[|out|], stack, at, v, more)
    ensures ItemsExpanded(d, u, l, stack, at, out + [v], more)
  {
    forall i | 0 <= i < |out| ensures Expanded(d, u, l[i], stack, at, out[i], more) {
      KeepsInMore(d, u, l[i], stack, names, more);
    }
  }

  /** A reference being expanded is kept. */
  lemma {:induction false} KeptExpanded(d: Doc, u: set<string>, node: Json, stack: seq<string>, at: Place, out: Json,
                                        names: set<string>)
    requires Within(d, u, node) && IsRef(node) && RefOf(node) in stack
    requires Kept(RefOf(node)) == Some(out) && NameOf(RefOf(node)).value in names
    ensures Expanded(d, u, node, stack, at, out, names)
  {
  }

  /** Any other is replaced by its target's copy. */
  lemma {:induction false} TargetExpanded(d: Doc, u: set<string>, node: Json, stack: seq<string>, at: Place,
                                          out: Json, names: set<string>)
    requires Within(d, u, node) && IsRef(node) && RefOf(node) !in stack && Follow(d, RefOf(node)).Some?
    requires Expanded(d, u, Follow(d, RefOf(node)).value, stack + [RefOf(node)], at.Referenced(), out, names)
    ensures Expanded(d, u, node, stack, at, out, names)
  {
  }

  lemma {:induction false} NodeObjectIs(d: Doc, u: set<string>, n: Node, stack: seq<string>, at: Place, out: Node)
    requires Within(d, u, Obj(n)) && StrAt(n, "$ref").None? && out.Keys == n.Keys
    requires forall k | k in out :: Within(d, u, n[k]) && NodeOf(d, u, n[k], stack, at.Child(k)) == Some(out[k])
    ensures NodeOf(d, u, Obj(n), stack, at) == Some(Obj(Stamped(d.orders, n, out, at)))
  {
    var copied := NodeFields(d, u, Obj(n), stack, at);
    assert copied.Some? && copied.value == out;
  }

  lemma {:induction false} ObjectExpanded(d: Doc, u: set<string>, n: Node, stack: seq<string>, at: Place, out: Node,
                                          names: set<string>)
    requires Within(d, u, Obj(n)) && StrAt(n, "$ref").None? && out.Keys == n.Keys
    requires FieldsExpanded(d, u, n, stack, at, out, names)
    ensures Expanded(d, u, Obj(n), stack, at, Obj(Stamped(d.orders, n, out, at)), names)
  {
    NodeObjectIs(d, u, n, stack, at, out);
  }

  lemma {:induction false} ListExpanded(d: Doc, u: set<string>, l: seq<Json>, stack: seq<string>, at: Place,
                                        out: seq<Json>, names: set<string>)
    requires Within(d, u, Arr(l)) && |out| == |l| && ItemsExpanded(d, u, l, stack, at, out, names)
    ensures Expanded(d, u, Arr(l), stack, at, Arr(out), names)
  {
    assert forall i | 0 <= i < |l| :: NodeOf(d, u, l[i], stack, at) == Some(out[i]);
    assert NodeOf(d, u, Arr(l), stack, at).value.items == out;
  }

  lemma {:induction false} FollowableReference(d: Doc, node: Json)
    requires IsRef(node)
    ensures Followable(d, node) ==> FollowableRef(d, RefOf(node))
  {
    if Followable(d, node) { FollowableOn(d, node, RefOf(node)); }
  }

  // ----- Expansion succeeds where every reference reached can be followed -----

  /** References that can be followed and lead only to each other. */
  ghost predicate Closed(d: Doc, refs: set<string>) {
    forall ref | ref in refs :: Follow(d, ref).Some? && Heads(Follow(d, ref).value) <= refs
  }

  ghost predicate Expands(d: Doc, u: set<string>, node: Json, stack: seq<string>, at: Place) {
    Within(d, u, node) && NodeOf(d, u, node, stack, at).Some?
  }

  lemma {:induction false} ClosedExpands(d: Doc, u: set<string>, refs: set<string>, node: Json, stack: seq<string>,
                                         at: Place)
    requires Within(d, u, node) && Closed(d, refs) && Heads(node) <= refs
    ensures Expands(d, u, node, stack, at)
    decreases |u - Elements(stack)|, node
  {
    match node
    case Obj(n) =>
      if IsRef(node) {
        ClosedReference(d, u, refs, node, stack);
        if RefOf(node) !in stack {
          ClosedExpands(d, u, refs, Follow(d, RefOf(node)).value, stack + [RefOf(node)], at.Referenced());
        }
        ReferenceExpands(d, u, node, stack, at);
      } else {
        forall k | k in n ensures Expands(d, u, n[k], stack, at.Child(k)) {
          ClosedField(d, u, refs, n, k);
          ClosedExpands(d, u, refs, n[k], stack, at.Child(k));
        }
        FieldsExpand(d, u, n, stack, at);
      }
    case Arr(l) =>
      forall i | 0 <= i < |l| ensures Expands(d, u, l[i], stack, at) {
        ClosedItem(d, u, refs, l, i);
        ClosedExpands(d, u, refs, l[i], stack, at);
      }
      ItemsExpand(d, u, l, stack, at);
    case _ =>
  }

  lemma {:induction false} ClosedReference(d: Doc, u: set<string>, refs: set<string>, node: Json, stack: seq<string>)
    requires Within(d, u, node) && Closed(d, refs) && Heads(node) <= refs && IsRef(node)
    ensures Follow(d, RefOf(node)).Some? && NameOf(RefOf(node)).Some?
    ensures Within(d, u, Follow(d, RefOf(node)).value) && Heads(Follow(d, RefOf(node)).value) <= refs
    ensures RefOf(node) !in stack ==> |u - Elements(stack + [RefOf(node)])| < |u - Elements(stack)|
  {
    var ref := RefOf(node);
    assert ref in Heads(node) && ref in Refs(node);
    FollowNames(d, ref);
    FollowWithin(d, u, ref);
    if ref !in stack { OneLess(u, stack, ref); }
  }

  lemma {:induction false} ClosedField(d: Doc, u: set<string>, refs: set<string>, n: Node, k: string)
    requires Within(d, u, Obj(n)) && Heads(Obj(n)) <= refs && StrAt(n, "$ref").None? && k in n
    ensures Within(d, u, n[k]) && Heads(n[k]) <= refs
  {
    assert Refs(n[k]) <= Refs(Obj(n)) && Heads(n[k]) <= Heads(Obj(n));
  }

  lemma {:induction false} ClosedItem(d: Doc, u: set<string>, refs: set<string>, l: seq<Json>, i: nat)
    requires Within(d, u, Arr(l)) && Heads(Arr(l)) <= refs && i < |l|
    ensures Within(d, u, l[i]) && Heads(l[i]) <= refs
  {
    assert Refs(l[i]) <= Refs(Arr(l)) && Heads(l[i]) <= Heads(Arr(l));
  }

  lemma {:induction false} ReferenceExpands(d: Doc, u: set<string>, node: Json, stack: seq<string>, at: Place)
    requires Within(d, u, node) && IsRef(node) && Follow(d, RefOf(node)).Some?
    requires NameOf(RefOf(node)).Some?
    requires RefOf(node) !in stack ==>
               Expands(d, u, Follow(d, RefOf(node)).value, stack + [RefOf(node)], at.Referenced())
    ensures Expands(d, u, node, stack, at)
  {
  }

  lemma {:induction false} FieldsExpand(d: Doc, u: set<string>, n: Node, stack: seq<string>, at: Place)
    requires Within(d, u, Obj(n)) && StrAt(n, "$ref").None?
    requires forall k | k in n :: Expands(d, u, n[k], stack, at.Child(k))
    ensures Expands(d, u, Obj(n), stack, at)
  {
  }

  lemma {:induction false} ItemsExpand(d: Doc, u: set<string>, l: seq<Json>, stack: seq<string>, at: Place)
    requires Within(d, u, Arr(l)) && forall i | 0 <= i < |l| :: Expands(d, u, l[i], stack, at)
    ensures Expands(d, u, Arr(l), stack, at)
  {
  }

  /** The references reached from a node whose references can all be followed are closed. */
  lemma {:induction false} FollowableCloses(d: Doc, u: set<string>, node: Json) returns (refs: set<string>)
    requires Within(d, u, node) && Followable(d, node)
    ensures Closed(d, refs) && Heads(node) <= refs
  {
    refs := set ref | ref in u && FollowableRef(d, ref);
    forall ref | ref in refs ensures Follow(d, ref).Some? && Heads(Follow(d, ref).value) <= refs {
      FollowWithin(d, u, ref);
      FollowableHeads(d, u, Follow(d, ref).value);
    }
    FollowableHeads(d, u, node);
  }

  lemma {:induction false} FollowableHeads(d: Doc, u: set<string>, node: Json)
    requires Within(d, u, node) && Followable(d, node)
    ensures forall ref | ref in Heads(node) :: ref in u && FollowableRef(d, ref)
  {
    HeadsAreRefs(node);
    forall ref | ref in Heads(node) ensures FollowableRef(d, ref) { FollowableOn(d, node, ref); }
  }

  /** Where a reference cannot be expanded, neither can a node that holds it. */
  lemma {:induction false} HeadFails(d: Doc, u: set<string>, node: Json, stack: seq<string>, at: Place, ref: string)
    requires Within(d, u, node) && ref in Heads(node) && ref !in stack && ref in u
    requires forall place :: Fails(d, u, stack, ref, place)
    ensures NodeOf(d, u, node, stack, at).None?
    decreases node
  {
    match node
    case Obj(n) =>
      if IsRef(node) {
        assert Fails(d, u, stack, ref, at);
      } else {
        var k :| k in n && ref in Heads(n[k]);
        HeadFails(d, u, n[k], stack, at.Child(k), ref);
      }
    case Arr(l) =>
      var i :| 0 <= i < |l| && ref in Heads(l[i]);
      HeadFails(d, u, l[i], stack, at, ref);
    case _ =>
  }

  ghost predicate Fails(d: Doc, u: set<string>, stack: seq<string>, ref: string, at: Place) {
    Follow(d, ref).Some? ==>
      Within(d, u, Follow(d, ref).value) && NodeOf(d, u, Follow(d, ref).value, stack + [ref], at.Referenced()).None?
  }

  /** Along a chain that ends at a reference nothing can follow, expansion fails. */
  lemma {:induction false} ChainFails(d: Doc, u: set<string>, node: Json, stack: seq<string>, at: Place,
                                      chain: seq<string>)
    requires Within(d, u, node) && IsChain(d, node, chain) && chain != [] && Distinct(chain)
    requires (forall ref | ref in chain :: ref !in stack) && Follow(d, chain[|chain| - 1]).None?
    ensures NodeOf(d, u, node, stack, at).None?
    decreases |chain|
  {
    var ref := chain[0];
    HeadsAreRefs(node);
    forall place ensures Fails(d, u, stack, ref, place) {
      if Follow(d, ref).Some? {
        FollowWithin(d, u, ref);
        ChainTail(d, node, chain);
        ChainFails(d, u, Follow(d, ref).value, stack + [ref], place.Referenced(), chain[1..]);
      }
    }
    HeadFails(d, u, node, stack, at, ref);
  }

  lemma {:induction false} ChainTail(d: Doc, v: Json, chain: seq<string>)
    requires IsChain(d, v, chain) && |chain| > 0 && Distinct(chain) && Follow(d, chain[0]).Some?
    ensures IsChain(d, Follow(d, chain[0]).value, chain[1..]) && Distinct(chain[1..]) && chain[0] !in chain[1..]
  {
    var rest := chain[1..];
    if |chain| > 1 { assert LeadsTo(d, chain[0], chain[1]); }
    forall i | 0 < i < |rest| ensures LeadsTo(d, rest[i - 1], rest[i]) { assert LeadsTo(d, chain[i], chain[i + 1]); }
  }

  /** A node can be expanded if and only if every reference reached from it can be followed. So
      none reached is external, not even one that a cycle's target keeps. */
  lemma {:induction false} ExpandsExactly(d: Doc, u: set<string>, node: Json, at: Place)
    requires Within(d, u, node)
    ensures NodeOf(d, u, node, [], at).Some? <==> Followable(d, node)
  {
    if Followable(d, node) {
      var refs := FollowableCloses(d, u, node);
      ClosedExpands(d, u, refs, node, [], at);
    } else {
      var chain :| IsChain(d, node, chain) && chain != [] && Follow(d, chain[|chain| - 1]).None?;
      var simple := SimpleChain(d, node, chain);
      ChainFails(d, u, node, [], at, simple);
    }
  }

  // ----- The resolver -----

  /** The whole of a resolved schema: its copy with the cycles' targets under $defs. */
  function WithDefs(m: Node, defs: map<string, Json>): Node {
    if defs == map[] then m else m["$defs" := Obj(NodeAt(m, "$defs").GetOr(map[]) + defs)]
  }

  /** m is the copy of a spec node, and defs are the targets of the cycles met. */
  ghost predicate Resolved(d: Doc, u: set<string>, node: Json, m: Node, defs: map<string, Json>) {
    Expanded(d, u, node, [], InSchema, Obj(m), defs.Keys) && forall n | n in defs :: Defined(d, defs, n)
  }

  class SchemaCopier {
    const r: Resolver

    constructor (r: Resolver)
      ensures this.r == r
    {
      this.r := r;
    }

    /** resolver.node */
    method Node(node: Json, stack: seq<string>, at: Place) returns (out: Option<Json>)
      requires Within(r.d, r.u, node)
      modifies r`defs
      ensures old(r.defs.Keys) <= r.defs.Keys && (Followable(r.d, node) ==> out.Some?)
      ensures out.Some? ==> Expanded(r.d, r.u, node, stack, at, out.value, r.defs.Keys)
      ensures out.Some? ==> Grown(r.d, old(r.defs), r.defs)
      decreases |r.u - Elements(stack)|, node, 2
    {
      match node
      case Obj(n) =>
        if StrAt(n, "$ref").Some? {
          out := Reference(node, stack, at);
        } else {
          out := Object(node, stack, at);
        }
      case Arr(_) => out := List(node, stack, at);
      case _ => out := Some(node);
    }

    method Reference(node: Json, stack: seq<string>, at: Place) returns (out: Option<Json>)
      requires Within(r.d, r.u, node) && IsRef(node)
      modifies r`defs
      ensures old(r.defs.Keys) <= r.defs.Keys && (Followable(r.d, node) ==> out.Some?)
      ensures out.Some? ==> Expanded(r.d, r.u, node, stack, at, out.value, r.defs.Keys)
      ensures out.Some? ==> Grown(r.d, old(r.defs), r.defs)
      decreases |r.u - Elements(stack)|, node, 1
    {
      var ref := RefOf(node);
      FollowableReference(r.d, node);
      var open := IsOpen(ref, stack);
      if open {
        out := r.Cycle(ref);
        if out.Some? { KeptExpanded(r.d, r.u, node, stack, at, out.value, r.defs.Keys); }
        return;
      }
      var target := Pointer(r.d, ref);
      if target.None? { return None; }
      FollowWithin(r.d, r.u, ref);
      OneLess(r.u, stack, ref);
      out := Node(target.value, stack + [ref], at.Referenced());
      if out.Some? { TargetExpanded(r.d, r.u, node, stack, at, out.value, r.defs.Keys); }
    }

    /** The loop of node over the references being expanded. */
    method IsOpen(ref: string, stack: seq<string>) returns (open: bool)
      ensures open <==> ref in stack
    {
      for i := 0 to |stack|
        invariant ref !in stack[..i]
      {
        if stack[i] == ref { return true; }
      }
      open := false;
    }

    method Object(node: Json, stack: seq<string>, at: Place) returns (v: Option<Json>)
      requires Within(r.d, r.u, node) && node.Obj? && !IsRef(node)
      modifies r`defs
      ensures old(r.defs.Keys) <= r.defs.Keys && (Followable(r.d, node) ==> v.Some?)
      ensures v.Some? ==> Expanded(r.d, r.u, node, stack, at, v.value, r.defs.Keys) && Grown(r.d, old(r.defs), r.defs)
      decreases |r.u - Elements(stack)|, node, 1
    {
      var n := node.fields;
      var out: Node := map[];
      var keys := n.Keys;
      while keys != {}
        invariant keys <= n.Keys && out.Keys == n.Keys - keys && old(r.defs.Keys) <= r.defs.Keys
        invariant Grown(r.d, old(r.defs), r.defs)
        invariant FieldsExpanded(r.d, r.u, n, stack, at, out, r.defs.Keys)
        decreases keys
      {
        var k :| k in keys;
        var w := Field(n, stack, at, k, out, old(r.defs));
        if w.None? { return None; }
        out := out[k := w.value];
        keys := keys - {k};
      }
      ObjectExpanded(r.d, r.u, n, stack, at, out, r.defs.Keys);
      v := Some(Obj(Stamped(r.d.orders, n, out, at)));
    }

    /** One field more of an object, beside those expanded. */
    method Field(n: Node, stack: seq<string>, at: Place, k: string, ghost out: Node, ghost first: map<string, Json>)
      returns (v: Option<Json>)
      requires Within(r.d, r.u, Obj(n)) && StrAt(n, "$ref").None? && k in n
      requires Grown(r.d, first, r.defs) && FieldsExpanded(r.d, r.u, n, stack, at, out, r.defs.Keys)
      modifies r`defs
      ensures old(r.defs.Keys) <= r.defs.Keys && (Followable(r.d, Obj(n)) ==> v.Some?)
      ensures v.Some? ==> Grown(r.d, first, r.defs)
      ensures v.Some? ==> FieldsExpanded(r.d, r.u, n, stack, at, out[k := v.value], r.defs.Keys)
      decreases |r.u - Elements(stack)|, Obj(n), 0
    {
      ghost var before := r.defs;
      FollowableField(r.d, n, k);
      v := Node(n[k], stack, at.Child(k));
      if v.Some? {
        GrownTwice(r.d, first, before, r.defs);
        FieldsExpandedMore(r.d, r.u, n, stack, at, out, k, v.value, before.Keys, r.defs.Keys);
      }
    }

    method List(node: Json, stack: seq<string>, at: Place) returns (v: Option<Json>)
      requires Within(r.d, r.u, node) && node.Arr?
      modifies r`defs
      ensures old(r.defs.Keys) <= r.defs.Keys && (Followable(r.d, node) ==> v.Some?)
      ensures v.Some? ==> Expanded(r.d, r.u, node, stack, at, v.value, r.defs.Keys) && Grown(r.d, old(r.defs), r.defs)
      decreases |r.u - Elements(stack)|, node, 1
    {
      var l := node.items;
      var out: seq<Json> := [];
      while |out| < |l|
        invariant |out| <= |l| && old(r.defs.Keys) <= r.defs.Keys && Grown(r.d, old(r.defs), r.defs)
        invariant ItemsExpanded(r.d, r.u, l, stack, at, out, r.defs.Keys)
        decreases |l| - |out|
      {
        var w := Item(l, stack, at, out, old(r.defs));
        if w.None? { return None; }
        out := out + [w.value];
      }
      ListExpanded(r.d, r.u, l, stack, at, out, r.defs.Keys);
      v := Some(Arr(out));
    }

    /** One item more of a list, after those expanded. */
    method Item(l: seq<Json>, stack: seq<string>, at: Place, out: seq<Json>, ghost first: map<string, Json>)
      returns (v: Option<Json>)
      requires Within(r.d, r.u, Arr(l)) && |out| < |l|
      requires Grown(r.d, first, r.defs) && ItemsExpanded(r.d, r.u, l, stack, at, out, r.defs.Keys)
      modifies r`defs
      ensures old(r.defs.Keys) <= r.defs.Keys && (Followable(r.d, Arr(l)) ==> v.Some?)
      ensures v.Some? ==> Grown(r.d, first, r.defs)
      ensures v.Some? ==> ItemsExpanded(r.d, r.u, l, stack, at, out + [v.value], r.defs.Keys)
      decreases |r.u - Elements(stack)|, Arr(l), 0
    {
      ghost var before := r.defs;
      FollowableItem(r.d, l, |out|);
      v := Node(l[|out|], stack, at);
      if v.Some? {
        GrownTwice(r.d, first, before, r.defs);
        ItemsExpandedMore(r.d, r.u, l, stack, at, out, v.value, before.Keys, r.defs.Keys);
      }
    }
  }

  /** Document.schema: it succeeds exactly where every reference reached can be followed and the
      copy is an object. */
  method Schema(d: Doc, node: Json) returns (s: Option<Node>, ghost m: Node, ghost defs: map<string, Json>)
    ensures var u := Refs(Obj(d.raw)) + Refs(node);
            var copy := NodeOf(d, u, node, [], InSchema);
            s.Some? <==> Followable(d, node) && copy.Some? && copy.value.Obj?
    ensures s.Some? ==> s.value == WithDefs(m, defs) && Resolved(d, Refs(Obj(d.raw)) + Refs(node), node, m, defs)
  {
    ghost var u := Refs(Obj(d.raw)) + Refs(node);
    assert Within(d, u, node);
    ExpandsExactly(d, u, node, InSchema);
    var r := new Resolver(d, u);
    var c := new SchemaCopier(r);
    var out := c.Node(node, [], InSchema);
    m, defs := map[], map[];
    if out.None? { return None, m, defs; }
    if !out.value.Obj? { return None, m, defs; }
    var fields := out.value.fields;
    m, defs := fields, r.defs;
    if r.defs != map[] {
      var own := NodeAt(fields, "$defs").GetOr(map[]);
      fields := fields["$defs" := Obj(own + r.defs)];
    }
    s := Some(fields);
  }
}
