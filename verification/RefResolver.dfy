/** The $ref resolver (internal/asyncapi/document.go): references expanded in place, each cycle
    kept as a reference into the schema's own $defs. */
module RefResolver {
  import opened JsonValues
  import opened Sorting
  import opened PointerTokens
  import opened Generation
  import opened SpecRefs
  import opened OrderStamps

  /** The name resolver.define gives a reference: its unescaped pointer text. */
  function NameOf(ref: string): Option<string> { PathUnescape(if HasPrefix(ref, "#/") then ref[2..] else ref) }

  function LocalRef(name: string): Json { Obj(map["$ref" := Str(DEFS_PREFIX + EscapeToken(name))]) }

  function Kept(ref: string): Option<Json> {
    if NameOf(ref).None? then None else Some(LocalRef(NameOf(ref).value))
  }

  /** What resolver.local copies a node to. */
  ghost function LocalOf(d: Doc, node: Json, at: Place): Option<Json>
    decreases node, 1
  {
    match node
    case Obj(n) =>
      if StrAt(n, "$ref").Some? then Kept(n["$ref"].s)
      else
        var out := LocalFields(d, node, at);
        if out.None? then None else Some(Obj(Stamped(d.orders, n, out.value, at)))
    case Arr(l) =>
      if forall i | 0 <= i < |l| :: LocalOf(d, l[i], at).Some?
      then Some(Arr(seq(|l|, i requires 0 <= i < |l| => LocalOf(d, l[i], at).value))) else None
    case _ => Some(node)
  }

  ghost function LocalFields(d: Doc, node: Json, at: Place): Option<Node>
    requires node.Obj?
    decreases node, 0
  {
    var n := node.fields;
    if exists k :: k in n && LocalOf(d, n[k], at.Child(k)).None? then None
    else Some(map k | k in n :: LocalOf(d, n[k], at.Child(k)).value)
  }

  /** The references a resolution can meet: those of the spec, and those of the node it starts from. */
  ghost predicate Within(d: Doc, u: set<string>, node: Json) { Refs(Obj(d.raw)) <= u && Refs(node) <= u }

  lemma {:induction false} FollowWithin(d: Doc, u: set<string>, ref: string)
    requires Refs(Obj(d.raw)) <= u && Follow(d, ref).Some?
    ensures Within(d, u, Follow(d, ref).value)
  {
    WalkRefs(Obj(d.raw), Split(Internal(ref).value));
  }

  lemma {:induction false} OneLess(u: set<string>, stack: seq<string>, ref: string)
    requires ref in u && ref !in stack
    ensures |u - Elements(stack + [ref])| < |u - Elements(stack)|
  {
    ElementsSnoc(stack, ref);
    var rest := u - Elements(stack + [ref]);
    assert rest + {ref} == u - Elements(stack);
  }

  /** What resolver.node copies a node to: stack holds the references being expanded. */
  ghost function NodeOf(d: Doc, u: set<string>, node: Json, stack: seq<string>, at: Place): Option<Json>
    requires Within(d, u, node)
    decreases |u - Elements(stack)|, node, 1
  {
    match node
    case Obj(n) =>
      if StrAt(n, "$ref").Some? then
        var ref := n["$ref"].s;
        if ref in stack then Kept(ref)
        else if Follow(d, ref).None? then None
        else
          FollowWithin(d, u, ref);
          OneLess(u, stack, ref);
          NodeOf(d, u, Follow(d, ref).value, stack + [ref], at.Referenced())
      else
        var out := NodeFields(d, u, node, stack, at);
        if out.None? then None else Some(Obj(Stamped(d.orders, n, out.value, at)))
    case Arr(l) =>
      if forall i | 0 <= i < |l| :: NodeOf(d, u, l[i], stack, at).Some?
      then Some(Arr(seq(|l|, i requires 0 <= i < |l| => NodeOf(d, u, l[i], stack, at).value))) else None
    case _ => Some(node)
  }

  ghost function NodeFields(d: Doc, u: set<string>, node: Json, stack: seq<string>, at: Place): Option<Node>
    requires Within(d, u, node) && node.Obj?
    decreases |u - Elements(stack)|, node, 0
  {
    var n := node.fields;
    if exists k :: k in n && NodeOf(d, u, n[k], stack, at.Child(k)).None? then None
    else Some(map k | k in n :: NodeOf(d, u, n[k], stack, at.Child(k)).value)
  }

  // ----- References into $defs -----

  /** The name a local reference has its target under. */
  function LocalName(ref: string): Option<string> {
    if HasPrefix(ref, DEFS_PREFIX) then Some(UnescapeToken(ref[|DEFS_PREFIX|..])) else None
  }

  lemma {:induction false} LocalRefNames(name: string)
    ensures IsRef(LocalRef(name)) && LocalName(RefOf(LocalRef(name))) == Some(name)
    ensures Refs(LocalRef(name)) == {RefOf(LocalRef(name))}
  {
    TokenRoundTrip(name);
    assert (DEFS_PREFIX + EscapeToken(name))[|DEFS_PREFIX|..] == EscapeToken(name);
    var m := LocalRef(name).fields;
    assert m.Keys == {"$ref"};
  }

  ghost predicate LocalTo(refs: set<string>, names: set<string>) {
    forall x | x in refs :: LocalName(x).Some? && LocalName(x).value in names
  }

  /** Every reference left in a copy is a local one to a name defined. */
  ghost predicate AllLocal(b: Json, names: set<string>) { LocalTo(Refs(b), names) }

  lemma {:induction false} StampedLocal(d: Doc, n: Node, out: Node, at: Place, names: set<string>)
    requires "$ref" in out ==> !out["$ref"].Str?
    requires forall k | k in out :: AllLocal(out[k], names)
    ensures AllLocal(Obj(Stamped(d.orders, n, out, at)), names)
  {
    var s := Stamped(d.orders, n, out, at);
    StampAddsOnly(d.orders, n, out, at);
    assert StrAt(s, "$ref").None?;
    forall x | x in Refs(Obj(s)) ensures LocalName(x).Some? && LocalName(x).value in names {
      var k :| k in s && x in Refs(s[k]);
    }
  }

  lemma {:induction false} ListLocal(l: seq<Json>, names: set<string>)
    requires forall i | 0 <= i < |l| :: AllLocal(l[i], names)
    ensures AllLocal(Arr(l), names)
  {
  }

  /** Every reference that a copy of a node keeps leads to a name defined. */
  ghost predicate Keeps(node: Json, names: set<string>) {
    forall ref | ref in Heads(node) :: NameOf(ref).Some? && NameOf(ref).value in names
  }

  // ----- The resolver -----

  /** A definition is its target, copied with every reference in it local. */
  ghost predicate Defined(d: Doc, defs: map<string, Json>, name: string) {
    name in defs && Target(d, name).Some? && LocalOf(d, Target(d, name).value, InSchema) == Some(defs[name]) &&
    Keeps(Target(d, name).value, defs.Keys)
  }

  /** d1 is d0 with more names defined. */
  ghost predicate Grown(d: Doc, d0: map<string, Json>, d1: map<string, Json>) {
    d0.Keys <= d1.Keys && (forall n | n in d0 :: d1[n] == d0[n]) &&
    forall n | n in d1.Keys - d0.Keys :: Defined(d, d1, n)
  }

  lemma {:induction false} KeepsMore(node: Json, names: set<string>, more: set<string>)
    requires Keeps(node, names) && names <= more
    ensures Keeps(node, more)
  {
  }

  lemma {:induction false} GrownTwice(d: Doc, d0: map<string, Json>, d1: map<string, Json>, d2: map<string, Json>)
    requires Grown(d, d0, d1) && Grown(d, d1, d2)
    ensures Grown(d, d0, d2)
  {
    forall n | n in d2.Keys - d0.Keys ensures Defined(d, d2, n) {
      if n in d1 {
        assert Defined(d, d1, n);
        KeepsMore(Target(d, n).value, d1.Keys, d2.Keys);
      }
    }
  }

  /** Filling in the name claimed first. */
  lemma {:induction false} GrownByClaim(d: Doc, d0: map<string, Json>, d1: map<string, Json>, name: string, local: Json)
    requires name !in d0 && Grown(d, d0[name := Null], d1)
    requires Target(d, name).Some? && LocalOf(d, Target(d, name).value, InSchema) == Some(local)
    requires Keeps(Target(d, name).value, d1.Keys)
    ensures Grown(d, d0, d1[name := local])
  {
    var d2 := d1[name := local];
    assert d2.Keys == d1.Keys;
    forall n | n in d0 ensures d2[n] == d0[n] { assert d0[name := Null][n] == d0[n]; }
    forall n | n in d2.Keys - d0.Keys ensures Defined(d, d2, n) {
      if n != name { assert Defined(d, d1, n); }
    }
  }

  /** out is the copy of a node, and what it keeps is defined. */
  ghost predicate CopiedLocally(d: Doc, node: Json, at: Place, out: Json, names: set<string>) {
    LocalOf(d, node, at) == Some(out) && Keeps(node, names)
  }

  ghost predicate FieldsCopied(d: Doc, n: Node, at: Place, out: Node, names: set<string>) {
    forall k | k in out :: k in n && CopiedLocally(d, n[k], at.Child(k), out[k], names)
  }

  ghost predicate ItemsCopied(d: Doc, l: seq<Json>, at: Place, out: seq<Json>, names: set<string>) {
    |out| <= |l| && forall i | 0 <= i < |out| :: CopiedLocally(d, l[i], at, out[i], names)
  }

  /** One field more, copied when more names are defined. */
  lemma {:induction false} FieldsCopiedMore(d: Doc, n: Node, at: Place, out: Node, key: string, v: Json,
                                            names: set<string>, more: set<string>)
    requires FieldsCopied(d, n, at, out, names) && names <= more
    requires key in n && CopiedLocally(d, n[key], at.Child(key), v, more)
    ensures FieldsCopied(d, n, at, out[key := v], more)
  {
    forall k | k in out ensures CopiedLocally(d, n[k], at.Child(k), out[k], more) { KeepsMore(n[k], names, more); }
  }

  lemma {:induction false} ItemsCopiedMore(d: Doc, l: seq<Json>, at: Place, out: seq<Json>, v: Json,
                                           names: set<string>, more: set<string>)
    requires ItemsCopied(d, l, at, out, names) && names <= more
    requires |out| < |l| && CopiedLocally(d, l[|out|], at, v, more)
    ensures ItemsCopied(d, l, at, out + [v], more)
  {
    forall i | 0 <= i < |out| ensures CopiedLocally(d, l[i], at, out[i], more) { KeepsMore(l[i], names, more); }
  }

  lemma {:induction false} ObjectCopied(d: Doc, n: Node, at: Place, out: Node, names: set<string>)
    requires StrAt(n, "$ref").None? && out.Keys == n.Keys
    requires FieldsCopied(d, n, at, out, names)
    ensures CopiedLocally(d, Obj(n), at, Obj(Stamped(d.orders, n, out, at)), names)
  {
    LocalObjectIs(d, n, at, out);
    forall ref | ref in Heads(Obj(n)) ensures NameOf(ref).Some? && NameOf(ref).value in names {
      var k :| k in n && ref in Heads(n[k]);
      assert CopiedLocally(d, n[k], at.Child(k), out[k], names);
    }
  }

  lemma {:induction false} ListCopied(d: Doc, l: seq<Json>, at: Place, out: seq<Json>, names: set<string>)
    requires |out| == |l| && ItemsCopied(d, l, at, out, names)
    ensures CopiedLocally(d, Arr(l), at, Arr(out), names)
  {
    assert forall i | 0 <= i < |l| :: LocalOf(d, l[i], at) == Some(out[i]);
    assert LocalOf(d, Arr(l), at).value.items == out;
  }

  lemma {:induction false} LocalObjectIs(d: Doc, n: Node, at: Place, out: Node)
    requires StrAt(n, "$ref").None? && out.Keys == n.Keys
    requires forall k | k in out :: LocalOf(d, n[k], at.Child(k)) == Some(out[k])
    ensures LocalOf(d, Obj(n), at) == Some(Obj(Stamped(d.orders, n, out, at)))
  {
    var copied := LocalFields(d, Obj(n), at);
    assert copied.Some? && copied.value == out;
  }

  /** A copy is text only where the node is. */
  lemma {:induction false} LocalStaysPlain(d: Doc, node: Json, at: Place)
    requires !node.Str?
    ensures LocalOf(d, node, at).Some? ==> !LocalOf(d, node, at).value.Str?
  {
  }

  /** ref, and every reference reached from it, can be followed. */
  ghost predicate FollowableRef(d: Doc, ref: string) { Follow(d, ref).Some? && Followable(d, Follow(d, ref).value) }

  /** An internal reference leads where its name does, and no other reference can be followed. */
  lemma {:induction false} FollowNames(d: Doc, ref: string)
    ensures Follow(d, ref).Some? ==> HasPrefix(ref, "#/") && NameOf(ref).Some?
    ensures Follow(d, ref).Some? ==> Follow(d, ref) == Target(d, NameOf(ref).value)
  {
  }

  ghost function NamesWithin(u: set<string>): set<string> {
    set ref | ref in u && NameOf(ref).Some? :: NameOf(ref).value
  }

  class Resolver {
    const d: Doc
    ghost const u: set<string>
    var defs: map<string, Json>

    constructor (d: Doc, ghost u: set<string>)
      ensures this.d == d && this.u == u && defs == map[]
    {
      this.d, this.u, defs := d, u, map[];
    }

    /** resolver.cycle */
    method Cycle(ref: string) returns (r: Option<Json>)
      requires ref in u && Refs(Obj(d.raw)) <= u
      modifies this`defs
      ensures old(defs.Keys) <= defs.Keys && (FollowableRef(d, ref) ==> r.Some?)
      ensures r.Some? ==> r == Kept(ref) && NameOf(ref).value in defs && Grown(d, old(defs), defs)
      decreases NamesWithin(u) - defs.Keys, 1
    {
      var name := Define(ref);
      if name.None? { return None; }
      r := Some(LocalRef(name.value));
    }

    /** resolver.define */
    method Define(ref: string) returns (r: Option<string>)
      requires ref in u && Refs(Obj(d.raw)) <= u
      modifies this`defs
      ensures old(defs.Keys) <= defs.Keys && (FollowableRef(d, ref) ==> r.Some?)
      ensures r.Some? ==> r == NameOf(ref) && r.value in defs && Grown(d, old(defs), defs)
      ensures NameOf(ref).Some? && NameOf(ref).value in old(defs) ==> r.Some?
      decreases NamesWithin(u) - defs.Keys, 0
    {
      var name := NameOf(ref);
      if name.None? { return None; }
      if name.value in defs { return name; }
      assert name.value in NamesWithin(u) - defs.Keys;
      ghost var before := defs;
      defs := defs[name.value := Null];
      var target := Pointer(d, ref);
      if target.None? { return None; }
      FollowWithin(d, u, ref);
      var local := Local(target.value, InSchema);
      if local.None? { return None; }
      GrownByClaim(d, before, defs, name.value, local.value);
      defs := defs[name.value := local.value];
      r := name;
    }

    /** resolver.local */
    method Local(node: Json, at: Place) returns (r: Option<Json>)
      requires Within(d, u, node)
      modifies this`defs
      ensures old(defs.Keys) <= defs.Keys && (Followable(d, node) ==> r.Some?)
      ensures r.Some? ==> r == LocalOf(d, node, at) && Keeps(node, defs.Keys) && Grown(d, old(defs), defs)
      decreases NamesWithin(u) - defs.Keys, 2, node, 1
    {
      match node
      case Obj(n) =>
        if StrAt(n, "$ref").Some? {
          if Followable(d, node) { FollowableOn(d, node, n["$ref"].s); }
          r := Cycle(n["$ref"].s);
        } else {
          r := LocalObject(node, at);
        }
      case Arr(_) => r := LocalList(node, at);
      case _ => r := Some(node);
    }

    method LocalObject(node: Json, at: Place) returns (r: Option<Json>)
      requires Within(d, u, node) && node.Obj? && !IsRef(node)
      modifies this`defs
      ensures old(defs.Keys) <= defs.Keys && (Followable(d, node) ==> r.Some?)
      ensures r.Some? ==> r == LocalOf(d, node, at) && Keeps(node, defs.Keys) && Grown(d, old(defs), defs)
      decreases NamesWithin(u) - defs.Keys, 2, node, 0, 1
    {
      var n := node.fields;
      var out: Node := map[];
      var keys := n.Keys;
      while keys != {}
        invariant keys <= n.Keys && out.Keys == n.Keys - keys && old(defs.Keys) <= defs.Keys
        invariant Grown(d, old(defs), defs)
        invariant FieldsCopied(d, n, at, out, defs.Keys)
        decreases keys
      {
        var k :| k in keys;
        var v := LocalField(n, at, k, out, old(defs));
        if v.None? { return None; }
        out := out[k := v.value];
        keys := keys - {k};
      }
      ObjectCopied(d, n, at, out, defs.Keys);
      r := Some(Obj(Stamped(d.orders, n, out, at)));
    }

    /** One field more of an object, beside those copied. */
    method LocalField(n: Node, at: Place, k: string, ghost out: Node, ghost first: map<string, Json>)
      returns (v: Option<Json>)
      requires Within(d, u, Obj(n)) && StrAt(n, "$ref").None? && k in n
      requires Grown(d, first, defs) && FieldsCopied(d, n, at, out, defs.Keys)
      modifies this`defs
      ensures old(defs.Keys) <= defs.Keys && (Followable(d, Obj(n)) ==> v.Some?)
      ensures v.Some? ==> Grown(d, first, defs) && FieldsCopied(d, n, at, out[k := v.value], defs.Keys)
      decreases NamesWithin(u) - defs.Keys, 2, Obj(n), 0, 0
    {
      ghost var before := defs;
      FollowableField(d, n, k);
      v := Local(n[k], at.Child(k));
      if v.Some? {
        GrownTwice(d, first, before, defs);
        FieldsCopiedMore(d, n, at, out, k, v.value, before.Keys, defs.Keys);
      }
    }

    method LocalList(node: Json, at: Place) returns (r: Option<Json>)
      requires Within(d, u, node) && node.Arr?
      modifies this`defs
      ensures old(defs.Keys) <= defs.Keys && (Followable(d, node) ==> r.Some?)
      ensures r.Some? ==> r == LocalOf(d, node, at) && Keeps(node, defs.Keys) && Grown(d, old(defs), defs)
      decreases NamesWithin(u) - defs.Keys, 2, node, 0, 1
    {
      var l := node.items;
      var out: seq<Json> := [];
      while |out| < |l|
        invariant |out| <= |l| && old(defs.Keys) <= defs.Keys && Grown(d, old(defs), defs)
        invariant ItemsCopied(d, l, at, out, defs.Keys)
        decreases |l| - |out|
      {
        var v := LocalItem(l, at, out, old(defs));
        if v.None? { return None; }
        out := out + [v.value];
      }
      ListCopied(d, l, at, out, defs.Keys);
      r := Some(Arr(out));
    }

    /** One item more of a list, after those copied. */
    method LocalItem(l: seq<Json>, at: Place, out: seq<Json>, ghost first: map<string, Json>) returns (v: Option<Json>)
      requires Within(d, u, Arr(l)) && |out| < |l|
      requires Grown(d, first, defs) && ItemsCopied(d, l, at, out, defs.Keys)
      modifies this`defs
      ensures old(defs.Keys) <= defs.Keys && (Followable(d, Arr(l)) ==> v.Some?)
      ensures v.Some? ==> Grown(d, first, defs) && ItemsCopied(d, l, at, out + [v.value], defs.Keys)
      decreases NamesWithin(u) - defs.Keys, 2, Arr(l), 0, 0
    {
      ghost var before := defs;
      FollowableItem(d, l, |out|);
      v := Local(l[|out|], at);
      if v.Some? {
        GrownTwice(d, first, before, defs);
        ItemsCopiedMore(d, l, at, out, v.value, before.Keys, defs.Keys);
      }
    }
  }
}
