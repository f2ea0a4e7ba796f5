/** When a schema resolves to one that means the same, the root of it, and the references left in
    it (internal/asyncapi/document.go). */
module RefRoots {
  import opened JsonValues
  import opened Sorting
  import opened Paths
  import opened PointerTokens
  import opened SpecRefs
  import opened OrderStamps
  import opened RefResolver
  import opened SchemaResolver
  import opened RefMeaning

  // ----- The root -----

  /** An object that holds a reference to a text under "$ref". */
  ghost predicate HoldsSome(d: Doc, v: Json) { exists text :: HoldsText(d, v, text) }

  /** No object met is one. */
  ghost predicate TextFree(d: Doc, u: set<string>, a: Json, stack: seq<string>)
    requires Within(d, u, a)
  {
    forall path, v | Meets(d, u, a, stack, path, v) :: !HoldsSome(d, v)
  }

  ghost predicate UnstampedTextFree(d: Doc, u: set<string>, a: Json, stack: seq<string>)
    requires Within(d, u, a)
  {
    forall path, v | Unstamped(path) && Meets(d, u, a, stack, path, v) :: !HoldsSome(d, v)
  }

  /** Where no such text names a definition, a schema means what its node means if and only if no
      such object is met. */
  lemma {:induction false} MeansWithoutTexts(d: Doc, u: set<string>, node: Json, m: Node, defs: map<string, Json>,
                                             g: map<string, Json>)
    requires Resolved(d, u, node, m, defs) && g == DefsIn(WithDefs(m, defs)) && Within(d, u, node)
    requires forall path, v, text | Unstamped(path) && Meets(d, u, node, [], path, v) && HoldsText(d, v, text) ::
               Own(g).Lead(text).None?
    ensures Means(d, node, m, g) <==> UnstampedTextFree(d, u, node, [])
  {
    ResolvedMeansTheSame(d, u, node, m, defs, g);
    if !UnstampedTextFree(d, u, node, []) {
      var path, v :| Unstamped(path) && Meets(d, u, node, [], path, v) && HoldsSome(d, v);
      var text :| HoldsText(d, v, text);
      assert Misread(d, g, v);
    }
  }

  /** And where no such text is a local reference at all, which the spec alone shows. */
  lemma {:induction false} MeansByTheSpec(d: Doc, u: set<string>, node: Json, m: Node, defs: map<string, Json>,
                                          g: map<string, Json>)
    requires Resolved(d, u, node, m, defs) && g == DefsIn(WithDefs(m, defs)) && Within(d, u, node)
    requires forall path, v, text | Unstamped(path) && Meets(d, u, node, [], path, v) && HoldsText(d, v, text) ::
               LocalName(text).None?
    ensures Means(d, node, m, g) <==> UnstampedTextFree(d, u, node, [])
  {
    MeansWithoutTexts(d, u, node, m, defs, g);
  }

  /** Where a node leads to w, w is met, and its copy is a copy of w. */
  lemma {:induction false} CopiedAsLanding(d: Doc, u: set<string>, a: Json, stack: seq<string>, at: Place, b: Json,
                                           n: nat, w: Json)
    returns (open: seq<string>, place: Place)
    requires Within(d, u, a) && NodeOf(d, u, a, stack, at) == Some(b)
    requires LandsAfter(d, a, n, w) && Farther(d, stack, n, w)
    ensures Meets(d, u, a, stack, [], w) && Within(d, u, w) && NodeOf(d, u, w, open, place) == Some(b)
    decreases n
  {
    open, place := stack, at;
    if n > 0 {
      var ref := RefOf(a);
      FartherOn(d, stack, ref, n, w);
      CopiedAsTarget(d, u, a, stack, at, b);
      open, place := CopiedAsLanding(d, u, Follow(d, ref).value, stack + [ref], at.Referenced(), b, n - 1, w);
    }
  }

  /** A reference that is not being expanded is copied as its target is. */
  lemma {:induction false} CopiedAsTarget(d: Doc, u: set<string>, a: Json, stack: seq<string>, at: Place, b: Json)
    requires Within(d, u, a) && NodeOf(d, u, a, stack, at) == Some(b) && IsRef(a) && RefOf(a) !in stack
    ensures Follow(d, RefOf(a)).Some? && Within(d, u, Follow(d, RefOf(a)).value) && RefOf(a) in u
    ensures NodeOf(d, u, Follow(d, RefOf(a)).value, stack + [RefOf(a)], at.Referenced()) == Some(b)
    ensures |u - Elements(stack + [RefOf(a)])| < |u - Elements(stack)|
  {
    FollowWithin(d, u, RefOf(a));
    OneLess(u, stack, RefOf(a));
  }

  /** At the schema itself the keys are the spec's, and $defs where there are cycles. */
  lemma {:induction false} ResolvedRoot(d: Doc, u: set<string>, node: Json, m: Node, defs: map<string, Json>, fuel: nat)
    requires Resolved(d, u, node, m, defs) && Within(d, u, node) && TextFree(d, u, node, [])
    requires Landing(d, node, fuel).Some?
    ensures Look(Landing(d, node, fuel).value) == Look(Obj(m)) && !IsRef(Obj(m))
    ensures Look(Obj(WithDefs(m, defs))) == Keys(Look(Obj(m)).keys + if defs == map[] then {} else {"$defs"})
  {
    RootLanding(d, u, node, m, fuel);
    RootKeys(m, defs);
  }

  lemma {:induction false} RootLanding(d: Doc, u: set<string>, node: Json, m: Node, fuel: nat)
    requires Within(d, u, node) && NodeOf(d, u, node, [], InSchema) == Some(Obj(m)) && TextFree(d, u, node, [])
    requires Landing(d, node, fuel).Some?
    ensures Look(Landing(d, node, fuel).value) == Look(Obj(m)) && !IsRef(Obj(m))
  {
    var n := LandingCounts(d, node, fuel);
    var w := Landing(d, node, fuel).value;
    LandsAtLast(d, node, n, w);
    var open, place := CopiedAsLanding(d, u, node, [], InSchema, Obj(m), n, w);
    assert !HoldsSome(d, w);
    if w.Obj? { NodeObject(d, u, w.fields, open, place, Obj(m)); }
  }

  lemma {:induction false} RootKeys(m: Node, defs: map<string, Json>)
    ensures Look(Obj(WithDefs(m, defs))) == Keys(Look(Obj(m)).keys + if defs == map[] then {} else {"$defs"})
  {
    if defs == map[] { assert WithDefs(m, defs) == m; } else { assert WithDefs(m, defs).Keys == m.Keys + {"$defs"}; }
  }

  lemma {:induction false} LandsAtLast(d: Doc, v: Json, n: nat, w: Json)
    requires LandsAfter(d, v, n, w)
    ensures !IsRef(w)
    decreases n
  {
    if n > 0 { LandsAtLast(d, Follow(d, RefOf(v)).value, n - 1, w); }
  }

  // ----- Every reference left is local -----

  lemma {:induction false} LocalIsLocal(d: Doc, node: Json, at: Place, b: Json, names: set<string>)
    requires LocalOf(d, node, at) == Some(b) && Keeps(node, names)
    ensures AllLocal(b, names)
    decreases node
  {
    match node
    case Obj(n) =>
      if IsRef(node) {
        LocalRefNames(NameOf(RefOf(node)).value);
      } else {
        var out := LocalFields(d, node, at).value;
        forall k | k in out ensures AllLocal(out[k], names) {
          assert Heads(n[k]) <= Heads(node);
          LocalIsLocal(d, n[k], at.Child(k), out[k], names);
        }
        if "$ref" in n { LocalStaysPlain(d, n["$ref"], at.Child("$ref")); }
        StampedLocal(d, n, out, at, names);
      }
    case Arr(l) =>
      forall i | 0 <= i < |l| ensures AllLocal(b.items[i], names) {
        assert Heads(l[i]) <= Heads(node);
        LocalIsLocal(d, l[i], at, b.items[i], names);
      }
      ListLocal(b.items, names);
    case _ =>
  }

  ghost predicate IsLocal(x: string, names: set<string>) { LocalName(x).Some? && LocalName(x).value in names }

  /** A reference left in a copy that is not local comes from a text: an object met holds a
      reference to it under "$ref". */
  lemma {:induction false} StrayFromText(d: Doc, u: set<string>, names: set<string>, a: Json, stack: seq<string>,
                                         at: Place, b: Json, x: string)
    returns (path: seq<Step>, v: Json)
    requires Expanded(d, u, a, stack, at, b, names) && x in Refs(b) && !IsLocal(x, names)
    ensures Meets(d, u, a, stack, path, v) && HoldsSome(d, v)
    decreases |u - Elements(stack)|, a, 1
  {
    match a
    case Obj(n) =>
      if IsRef(a) {
        path, v := StrayInTarget(d, u, names, a, stack, at, b, x);
      } else if HoldsSome(d, a) {
        path, v := [], a;
      } else {
        path, v := StrayInField(d, u, names, n, stack, at, b, x);
      }
    case Arr(l) => path, v := StrayInItem(d, u, names, l, stack, at, b, x);
    case _ =>
  }

  lemma {:induction false} StrayInItem(d: Doc, u: set<string>, names: set<string>, l: seq<Json>, stack: seq<string>,
                                       at: Place, b: Json, x: string)
    returns (path: seq<Step>, v: Json)
    requires Expanded(d, u, Arr(l), stack, at, b, names) && x in Refs(b) && !IsLocal(x, names)
    ensures Meets(d, u, Arr(l), stack, path, v) && HoldsSome(d, v)
    decreases |u - Elements(stack)|, Arr(l), 0
  {
    var i :| 0 <= i < |l| && x in Refs(b.items[i]);
    var rest, w := StrayFromText(d, u, names, l[i], stack, at, b.items[i], x);
    path, v := [IndexStep(i)] + rest, w;
    MeetsInto(d, u, Arr(l), stack, IndexStep(i), rest, w);
  }

  lemma {:induction false} StrayInTarget(d: Doc, u: set<string>, names: set<string>, a: Json, stack: seq<string>,
                                         at: Place, b: Json, x: string)
    returns (path: seq<Step>, v: Json)
    requires Expanded(d, u, a, stack, at, b, names) && IsRef(a) && x in Refs(b) && !IsLocal(x, names)
    ensures Meets(d, u, a, stack, path, v) && HoldsSome(d, v)
    decreases |u - Elements(stack)|, a, 0
  {
    var ref := RefOf(a);
    if ref in stack { LocalRefNames(NameOf(ref).value); }
    FollowWithin(d, u, ref);
    OneLess(u, stack, ref);
    path, v := StrayFromText(d, u, names, Follow(d, ref).value, stack + [ref], at.Referenced(), b, x);
  }

  lemma {:induction false} StrayInField(d: Doc, u: set<string>, names: set<string>, n: Node, stack: seq<string>,
                                        at: Place, b: Json, x: string)
    returns (path: seq<Step>, v: Json)
    requires Expanded(d, u, Obj(n), stack, at, b, names) && StrAt(n, "$ref").None? && !HoldsSome(d, Obj(n))
    requires x in Refs(b) && !IsLocal(x, names)
    ensures Meets(d, u, Obj(n), stack, path, v) && HoldsSome(d, v)
    decreases |u - Elements(stack)|, Obj(n), 0
  {
    var k, c := FieldWith(d, u, names, n, stack, at, b, x);
    var rest, w := StrayFromText(d, u, names, n[k], stack, at.Child(k), c, x);
    path, v := [FieldStep(k)] + rest, w;
    MeetsInto(d, u, Obj(n), stack, FieldStep(k), rest, w);
  }

  /** A reference in an expanded object is in the copy of one of its fields. */
  lemma {:induction false} FieldWith(d: Doc, u: set<string>, names: set<string>, n: Node, stack: seq<string>,
                                     at: Place, b: Json, x: string)
    returns (k: string, c: Json)
    requires Expanded(d, u, Obj(n), stack, at, b, names) && StrAt(n, "$ref").None? && !HoldsSome(d, Obj(n))
    requires x in Refs(b)
    ensures k in n && Expanded(d, u, n[k], stack, at.Child(k), c, names) && x in Refs(c)
  {
    var out := NodeFields(d, u, Obj(n), stack, at).value;
    NodeObject(d, u, n, stack, at, b);
    k := StampedRefs(d, n, out, at, b, x);
    c := out[k];
  }

  lemma {:induction false} StampedRefs(d: Doc, n: Node, out: Node, at: Place, b: Json, x: string) returns (k: string)
    requires b == Obj(Stamped(d.orders, n, out, at)) && !IsRef(b) && x in Refs(b)
    ensures k in out && x in Refs(out[k])
  {
    StampAddsOnly(d.orders, n, out, at);
    var s := b.fields;
    k :| k in s && x in Refs(s[k]);
  }

  lemma {:induction false} MeetsInto(d: Doc, u: set<string>, a: Json, stack: seq<string>, step: Step, rest: seq<Step>,
                                     v: Json)
    requires Within(d, u, a) && !IsRef(a) && !HoldsSome(d, a) && Enter(a, step).Some?
    requires Within(d, u, Enter(a, step).value) && Meets(d, u, Enter(a, step).value, stack, rest, v)
    ensures Meets(d, u, a, stack, [step] + rest, v)
  {
    assert ([step] + rest)[1..] == rest;
  }

  /** Every reference in the resolved schema is a local one whose target is in its $defs, where
      no object met holds a reference to a text under "$ref" and no definition is a text named
      "$ref", as one is that the spec itself would be a reference by. */
  lemma {:induction false} EveryReferenceLocal(d: Doc, u: set<string>, node: Json, m: Node, defs: map<string, Json>)
    requires Resolved(d, u, node, m, defs) && Within(d, u, node) && TextFree(d, u, node, [])
    requires !("$ref" in defs && IsRef(Obj(d.raw)))
    ensures AllLocal(Obj(WithDefs(m, defs)), DefsIn(WithDefs(m, defs)).Keys)
  {
    var s := WithDefs(m, defs);
    OwnDefs(d, u, node, m, defs);
    forall x | x in Refs(Obj(m)) ensures IsLocal(x, defs.Keys) {
      if !IsLocal(x, defs.Keys) { var path, v := StrayFromText(d, u, defs.Keys, node, [], InSchema, Obj(m), x); }
    }
    forall x | x in Refs(Obj(s)) ensures LocalName(x).Some? && LocalName(x).value in defs {
      AddedRefs(m, defs, x);
      if x !in Refs(Obj(m)) { DefsRefs(d, m, defs, x); }
    }
  }

  lemma {:induction false} AddedRefs(m: Node, defs: map<string, Json>, x: string)
    requires x in Refs(Obj(WithDefs(m, defs)))
    ensures x in Refs(Obj(m)) || (defs != map[] && x in Refs(Obj(DefsIn(m) + defs)))
  {
    var s := WithDefs(m, defs);
    if defs != map[] && x !in Refs(Obj(m)) {
      assert StrAt(s, "$ref") == StrAt(m, "$ref");
      var k :| k in s && x in Refs(s[k]);
      assert k == "$defs";
    }
  }

  lemma {:induction false} DefsRefs(d: Doc, m: Node, defs: map<string, Json>, x: string)
    requires x in Refs(Obj(DefsIn(m) + defs)) && (forall n | n in defs :: Defined(d, defs, n))
    requires AllLocal(Obj(m), defs.Keys)
    requires !("$ref" in defs && IsRef(Obj(d.raw)))
    ensures LocalName(x).Some? && LocalName(x).value in defs
  {
    var own := DefsIn(m);
    if "$ref" in defs { NoDefIsText(d, defs); }
    if StrAt(own + defs, "$ref") == Some(x) {
      assert x in Refs(m["$defs"]);
    } else {
      var k :| k in own + defs && x in Refs((own + defs)[k]);
      if k in defs {
        assert Defined(d, defs, k);
        LocalIsLocal(d, Target(d, k).value, InSchema, defs[k], defs.Keys);
      } else {
        assert x in Refs(m["$defs"]);
      }
    }
  }

  lemma {:induction false} NoDefIsText(d: Doc, defs: map<string, Json>)
    requires "$ref" in defs && Defined(d, defs, "$ref") && !IsRef(Obj(d.raw))
    ensures !defs["$ref"].Str?
  {
    assert Split("$ref") == ["$ref"] by { SplitWord("$ref"); }
    var t := Target(d, "$ref").value;
    assert UnescapeToken("$ref") == "$ref" && ["$ref"][1..] == [];
    assert Walk(Obj(d.raw), ["$ref"]) == TokenStep(Obj(d.raw), "$ref");
    LocalStaysPlain(d, t, InSchema);
  }
}
