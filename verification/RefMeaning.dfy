/** What the $ref resolver keeps (internal/asyncapi/document.go): reading the resolved schema
    along a path, through its own $defs, sees what reading the spec along it sees. */
module RefMeaning {
  import opened JsonValues
  import opened Sorting
  import opened Paths
  import opened PropertyOrder
  import opened SpecRefs
  import opened OrderStamps
  import opened RefResolver
  import opened SchemaResolver

  /** What references are followed into: a spec, or the definitions of a resolved schema. */
  datatype Source = Spec(d: Doc) | Own(defs: map<string, Json>) {
    function Lead(ref: string): Option<Json> {
      match this
      case Spec(d) => Follow(d, ref)
      case Own(defs) =>
        if LocalName(ref).Some? && LocalName(ref).value in defs then Some(defs[LocalName(ref).value]) else None
    }
  }

  /** What is seen at the end of a path: a scalar, an object's keys, or a list's length. */
  datatype Sight = Scalar(v: Json) | Keys(keys: set<string>) | Length(n: nat)

  function Look(v: Json): Sight {
    match v
    case Obj(m) => Keys(m.Keys - {ORDER_KEYWORD, LITERAL_KEYWORD})
    case Arr(l) => Length(|l|)
    case _ => Scalar(v)
  }

  function Enter(v: Json, step: Step): Option<Json> {
    if step.index >= 0 then (if v.Arr? && step.index < |v.items| then Some(v.items[step.index]) else None)
    else if v.Obj? && step.field in v.fields then Some(v.fields[step.field]) else None
  }

  /** Reading along a path, following at most fuel references. */
  function Read(s: Source, v: Json, path: seq<Step>, fuel: nat): Option<Sight>
    decreases fuel, |path|
  {
    if IsRef(v) then
      if fuel == 0 || s.Lead(RefOf(v)).None? then None else Read(s, s.Lead(RefOf(v)).value, path, fuel - 1)
    else if path == [] then Some(Look(v))
    else if Enter(v, path[0]).None? then None
    else Read(s, Enter(v, path[0]).value, path[1..], fuel)
  }

  ghost predicate Sees(s: Source, v: Json, path: seq<Step>, o: Sight) {
    exists fuel: nat :: Read(s, v, path, fuel) == Some(o)
  }

  /** Through a reference one sees what it leads to. */
  lemma {:induction false} SeesOn(s: Source, v: Json, path: seq<Step>, o: Sight)
    requires IsRef(v)
    ensures Sees(s, v, path, o) <==> s.Lead(RefOf(v)).Some? && Sees(s, s.Lead(RefOf(v)).value, path, o)
  {
    if Sees(s, v, path, o) {
      var fuel: nat :| Read(s, v, path, fuel) == Some(o);
      assert Read(s, s.Lead(RefOf(v)).value, path, fuel - 1) == Some(o);
    }
    if s.Lead(RefOf(v)).Some? && Sees(s, s.Lead(RefOf(v)).value, path, o) {
      var fuel: nat :| Read(s, s.Lead(RefOf(v)).value, path, fuel) == Some(o);
      assert Read(s, v, path, fuel + 1) == Some(o);
    }
  }

  lemma {:induction false} SeesHere(s: Source, v: Json, o: Sight)
    requires !IsRef(v)
    ensures Sees(s, v, [], o) <==> o == Look(v)
  {
    assert Read(s, v, [], 0) == Some(Look(v));
  }

  lemma {:induction false} SeesInto(s: Source, v: Json, path: seq<Step>, o: Sight)
    requires !IsRef(v) && path != []
    ensures Sees(s, v, path, o) <==> Enter(v, path[0]).Some? && Sees(s, Enter(v, path[0]).value, path[1..], o)
  {
    if Sees(s, v, path, o) {
      var fuel: nat :| Read(s, v, path, fuel) == Some(o);
      assert Read(s, Enter(v, path[0]).value, path[1..], fuel) == Some(o);
    }
    if Enter(v, path[0]).Some? && Sees(s, Enter(v, path[0]).value, path[1..], o) {
      var fuel: nat :| Read(s, Enter(v, path[0]).value, path[1..], fuel) == Some(o);
      assert Read(s, v, path, fuel) == Some(o);
    }
  }

  /** The path reads none of the keys the resolver stamps. */
  predicate Unstamped(path: seq<Step>) { forall i | 0 <= i < |path| :: path[i].index < 0 ==> !IsStamp(path[i].field) }

  /** g holds the definitions a resolution made, all of spec nodes copied with local references. */
  ghost predicate HoldsDefs(d: Doc, defs: map<string, Json>, g: map<string, Json>) {
    forall n | n in defs :: n in g && g[n] == defs[n] && Defined(d, defs, n)
  }

  // ----- A copy with local references reads step for step as its node -----

  /** b is a copy of an object, stamped: the same keys but the stamps, each value copied as it was. */
  ghost predicate StampedCopy(n: Node, out: Node, b: Json) {
    b.Obj? && (forall k | !IsStamp(k) :: k in b.fields <==> k in out) &&
    (forall k | k in out && !IsStamp(k) :: b.fields[k] == out[k]) &&
    out.Keys == n.Keys
  }

  lemma {:induction false} StampedLooks(n: Node, out: Node, b: Json)
    requires StampedCopy(n, out, b)
    ensures Look(b) == Look(Obj(n)) && (forall k | !IsStamp(k) :: k in b.fields <==> k in n)
    ensures IsRef(b) <==> StrAt(out, "$ref").Some?
    ensures IsRef(b) ==> RefOf(b) == out["$ref"].s
  {
  }

  /** b is the copy of a that keeps a's references, each a local one to a name defined. */
  ghost predicate Copies(d: Doc, names: set<string>, a: Json, b: Json) {
    Followable(d, a) && Keeps(a, names) && exists at :: LocalOf(d, a, at) == Some(b)
  }

  lemma {:induction false} LocalObject(d: Doc, n: Node, at: Place, b: Json)
    requires StrAt(n, "$ref").None? && LocalOf(d, Obj(n), at) == Some(b)
    ensures b.Obj? && !IsRef(b) && Look(b) == Look(Obj(n))
    ensures forall k | !IsStamp(k) :: k in b.fields <==> k in n
    ensures forall k | k in n && !IsStamp(k) :: LocalOf(d, n[k], at.Child(k)) == Some(b.fields[k])
  {
    var out := LocalFields(d, Obj(n), at).value;
    StampAddsOnly(d.orders, n, out, at);
    if "$ref" in n { LocalStaysPlain(d, n["$ref"], at.Child("$ref")); }
    StampedLooks(n, out, b);
  }

  /** Where a kept reference leads: to the copy of what the spec's reference leads to. */
  lemma {:induction false} KeptLeads(d: Doc, defs: map<string, Json>, g: map<string, Json>, ref: string, b: Json)
    requires HoldsDefs(d, defs, g) && Kept(ref) == Some(b) && NameOf(ref).value in defs && FollowableRef(d, ref)
    ensures IsRef(b) && Own(g).Lead(RefOf(b)).Some?
    ensures Copies(d, defs.Keys, Follow(d, ref).value, Own(g).Lead(RefOf(b)).value)
  {
    var name := NameOf(ref).value;
    FollowNames(d, ref);
    LocalLeads(g, name);
    assert Defined(d, defs, name);
    DefinedCopies(d, defs, name);
  }

  lemma {:induction false} LocalLeads(g: map<string, Json>, name: string)
    requires name in g
    ensures IsRef(LocalRef(name)) && Own(g).Lead(RefOf(LocalRef(name))) == Some(g[name])
  {
    LocalRefNames(name);
  }

  lemma {:induction false} DefinedCopies(d: Doc, defs: map<string, Json>, name: string)
    requires Defined(d, defs, name) && Followable(d, Target(d, name).value)
    ensures Copies(d, defs.Keys, Target(d, name).value, defs[name])
  {
    assert LocalOf(d, Target(d, name).value, InSchema) == Some(defs[name]);
  }

  lemma {:induction false} CopyOfRef(d: Doc, names: set<string>, a: Json, b: Json)
    requires IsRef(a) && Copies(d, names, a, b)
    ensures Kept(RefOf(a)) == Some(b) && NameOf(RefOf(a)).value in names && FollowableRef(d, RefOf(a))
  {
    FollowableReference(d, a);
  }

  lemma {:induction false} CopyOfPlain(d: Doc, names: set<string>, a: Json, b: Json)
    requires !IsRef(a) && Copies(d, names, a, b)
    ensures !IsRef(b) && Look(b) == Look(a)
  {
    var at :| LocalOf(d, a, at) == Some(b);
    if a.Obj? { LocalObject(d, a.fields, at, b); }
  }

  lemma {:induction false} CopyOfChild(d: Doc, names: set<string>, a: Json, b: Json, step: Step)
    requires !IsRef(a) && Copies(d, names, a, b) && (step.index < 0 ==> !IsStamp(step.field))
    ensures Enter(a, step).Some? <==> Enter(b, step).Some?
    ensures Enter(a, step).Some? ==> Copies(d, names, Enter(a, step).value, Enter(b, step).value)
  {
    if a.Obj? {
      CopyOfFields(d, names, a.fields, b);
    } else if a.Arr? {
      CopyOfItems(d, names, a.items, b);
    }
  }

  lemma {:induction false} CopyOfFields(d: Doc, names: set<string>, m: Node, b: Json)
    requires !IsRef(Obj(m)) && Copies(d, names, Obj(m), b)
    ensures b.Obj? && forall k | !IsStamp(k) :: k in b.fields <==> k in m
    ensures forall k | k in m && !IsStamp(k) :: Copies(d, names, m[k], b.fields[k])
  {
    var at :| LocalOf(d, Obj(m), at) == Some(b);
    LocalObject(d, m, at, b);
    forall k | k in m && !IsStamp(k) ensures Copies(d, names, m[k], b.fields[k]) {
      FollowableField(d, m, k);
      assert LocalOf(d, m[k], at.Child(k)) == Some(b.fields[k]);
    }
  }

  lemma {:induction false} CopyOfItems(d: Doc, names: set<string>, l: seq<Json>, b: Json)
    requires Copies(d, names, Arr(l), b)
    ensures b.Arr? && |b.items| == |l| && forall i | 0 <= i < |l| :: Copies(d, names, l[i], b.items[i])
  {
    var at :| LocalOf(d, Arr(l), at) == Some(b);
    forall i | 0 <= i < |l| ensures Copies(d, names, l[i], b.items[i]) {
      FollowableItem(d, l, i);
      assert LocalOf(d, l[i], at) == Some(b.items[i]);
    }
  }

  ghost predicate ReadAlike(d: Doc, g: map<string, Json>, a: Json, b: Json, path: seq<Step>, fuel: nat) {
    Read(Own(g), b, path, fuel) == Read(Spec(d), a, path, fuel)
  }

  lemma {:induction false} CopyReads(d: Doc, defs: map<string, Json>, g: map<string, Json>, a: Json, b: Json,
                                     path: seq<Step>, fuel: nat)
    requires HoldsDefs(d, defs, g) && Copies(d, defs.Keys, a, b) && Unstamped(path)
    ensures ReadAlike(d, g, a, b, path, fuel)
    decreases fuel, |path|, 1
  {
    if IsRef(a) {
      CopyReadsRef(d, defs, g, a, b, path, fuel);
    } else {
      CopyOfPlain(d, defs.Keys, a, b);
      if path != [] { CopyReadsInto(d, defs, g, a, b, path, fuel); }
    }
  }

  lemma {:induction false} CopyReadsRef(d: Doc, defs: map<string, Json>, g: map<string, Json>, a: Json, b: Json,
                                        path: seq<Step>, fuel: nat)
    requires HoldsDefs(d, defs, g) && Copies(d, defs.Keys, a, b) && Unstamped(path) && IsRef(a)
    ensures ReadAlike(d, g, a, b, path, fuel)
    decreases fuel, |path|, 0
  {
    var v, w := CopyOfTarget(d, defs, g, a, b);
    forall less: nat | less < fuel
      ensures ReadAlike(d, g, v, w, path, less)
    {
      CopyReads(d, defs, g, v, w, path, less);
    }
    BothReadOn(d, g, a, v, b, w, path, fuel);
  }

  lemma {:induction false} CopyOfTarget(d: Doc, defs: map<string, Json>, g: map<string, Json>, a: Json, b: Json)
    returns (v: Json, w: Json)
    requires HoldsDefs(d, defs, g) && Copies(d, defs.Keys, a, b) && IsRef(a)
    ensures Spec(d).Lead(RefOf(a)) == Some(v) && IsRef(b) && Own(g).Lead(RefOf(b)) == Some(w)
    ensures Copies(d, defs.Keys, v, w)
  {
    CopyOfRef(d, defs.Keys, a, b);
    KeptLeads(d, defs, g, RefOf(a), b);
    v, w := Follow(d, RefOf(a)).value, Own(g).Lead(RefOf(b)).value;
  }

  lemma {:induction false} BothReadOn(d: Doc, g: map<string, Json>, a: Json, v: Json, b: Json, w: Json,
                                      path: seq<Step>, fuel: nat)
    requires IsRef(a) && Spec(d).Lead(RefOf(a)) == Some(v) && IsRef(b) && Own(g).Lead(RefOf(b)) == Some(w)
    requires forall less: nat | less < fuel :: ReadAlike(d, g, v, w, path, less)
    ensures ReadAlike(d, g, a, b, path, fuel)
  {
    ReadOn(Spec(d), a, path, fuel);
    ReadOn(Own(g), b, path, fuel);
    if fuel > 0 { assert ReadAlike(d, g, v, w, path, fuel - 1); }
  }

  lemma {:induction false} ReadOn(s: Source, v: Json, path: seq<Step>, fuel: nat)
    requires IsRef(v) && s.Lead(RefOf(v)).Some?
    ensures Read(s, v, path, fuel) == if fuel == 0 then None else Read(s, s.Lead(RefOf(v)).value, path, fuel - 1)
  {
  }

  lemma {:induction false} CopyReadsInto(d: Doc, defs: map<string, Json>, g: map<string, Json>, a: Json, b: Json,
                                         path: seq<Step>, fuel: nat)
    requires HoldsDefs(d, defs, g) && Copies(d, defs.Keys, a, b) && Unstamped(path) && path != [] && !IsRef(a)
    requires !IsRef(b)
    ensures ReadAlike(d, g, a, b, path, fuel)
    decreases fuel, |path|, 0
  {
    CopyOfChild(d, defs.Keys, a, b, path[0]);
    if Enter(a, path[0]).Some? {
      CopyReads(d, defs, g, Enter(a, path[0]).value, Enter(b, path[0]).value, path[1..], fuel);
    }
  }

  lemma {:induction false} CopySees(d: Doc, defs: map<string, Json>, g: map<string, Json>, a: Json, b: Json,
                                    path: seq<Step>, o: Sight)
    requires HoldsDefs(d, defs, g) && Copies(d, defs.Keys, a, b) && Unstamped(path)
    ensures Sees(Spec(d), a, path, o) <==> Sees(Own(g), b, path, o)
  {
    var s, t := Spec(d), Own(g);
    if Sees(s, a, path, o) {
      var fuel: nat :| Read(s, a, path, fuel) == Some(o);
      CopyReads(d, defs, g, a, b, path, fuel);
    }
    if Sees(t, b, path, o) {
      var fuel: nat :| Read(t, b, path, fuel) == Some(o);
      CopyReads(d, defs, g, a, b, path, fuel);
      assert Read(s, a, path, fuel) == Some(o);
    }
  }

  // ----- A copy with references expanded -----

  /** No reference being expanded leads to a text, unless by way of a. */
  ghost predicate Underway(d: Doc, stack: seq<string>, a: Json) {
    forall ref, text | ref in stack && Follow(d, ref).Some? && LandsOn(d, Follow(d, ref).value, text) ::
      LandsOn(d, a, text)
  }

  /** b is the copy of a made with the references of stack being expanded. */
  ghost predicate Expands(d: Doc, u: set<string>, names: set<string>, a: Json, stack: seq<string>, b: Json) {
    Followable(d, a) && Underway(d, stack, a) && exists at :: Expanded(d, u, a, stack, at, b, names)
  }

  lemma {:induction false} ExpandedKept(d: Doc, u: set<string>, names: set<string>, a: Json, stack: seq<string>,
                                        b: Json)
    requires IsRef(a) && RefOf(a) in stack && Expands(d, u, names, a, stack, b)
    ensures Kept(RefOf(a)) == Some(b) && NameOf(RefOf(a)).value in names && FollowableRef(d, RefOf(a))
  {
    FollowableReference(d, a);
  }

  lemma {:induction false} ExpandedRef(d: Doc, u: set<string>, names: set<string>, a: Json, stack: seq<string>, b: Json)
    requires IsRef(a) && RefOf(a) !in stack && Expands(d, u, names, a, stack, b)
    ensures RefOf(a) in u && Follow(d, RefOf(a)).Some?
    ensures Expands(d, u, names, Follow(d, RefOf(a)).value, stack + [RefOf(a)], b)
  {
    var ref := RefOf(a);
    var at :| Expanded(d, u, a, stack, at, b, names);
    FollowableReference(d, a);
    FollowWithin(d, u, ref);
    OneLess(u, stack, ref);
    UnderwayOn(d, stack, a);
    assert Expanded(d, u, Follow(d, ref).value, stack + [ref], at.Referenced(), b, names);
  }

  lemma {:induction false} UnderwayOn(d: Doc, stack: seq<string>, a: Json)
    requires IsRef(a) && Follow(d, RefOf(a)).Some? && Underway(d, stack, a)
    ensures Underway(d, stack + [RefOf(a)], Follow(d, RefOf(a)).value)
  {
    var ref := RefOf(a);
    forall r, text | r in stack + [ref] && Follow(d, r).Some? && LandsOn(d, Follow(d, r).value, text)
      ensures LandsOn(d, Follow(d, ref).value, text)
    {
      if r != ref { LandsOnward(d, a, text); }
    }
  }

  /** Inside what is no text, no reference being expanded leads to one. */
  lemma {:induction false} NoneLands(d: Doc, stack: seq<string>, a: Json)
    requires Underway(d, stack, a) && !IsRef(a) && !a.Str?
    ensures forall ref, text | ref in stack && Follow(d, ref).Some? :: !LandsOn(d, Follow(d, ref).value, text)
  {
    forall ref, text | ref in stack && Follow(d, ref).Some? && LandsOn(d, Follow(d, ref).value, text) ensures false {
      LandsAtOnce(d, a, text);
    }
  }

  // ----- Which copies become references -----

  /** A copy that is a text is the text its node leads to. */
  lemma {:induction false} TextCopied(d: Doc, u: set<string>, node: Json, stack: seq<string>, at: Place, text: string)
    requires Within(d, u, node) && NodeOf(d, u, node, stack, at) == Some(Str(text))
    ensures LandsOn(d, node, text)
    decreases |u - Elements(stack)|
  {
    if IsRef(node) {
      var ref := RefOf(node);
      assert ref !in stack;
      FollowWithin(d, u, ref);
      OneLess(u, stack, ref);
      TextCopied(d, u, Follow(d, ref).value, stack + [ref], at.Referenced(), text);
      LandsOnward(d, node, text);
    } else {
      LandsAtOnce(d, node, text);
    }
  }

  /** v leads to w through n references. */
  ghost predicate LandsAfter(d: Doc, v: Json, n: nat, w: Json)
    decreases n
  {
    if n == 0 then v == w && !IsRef(w)
    else IsRef(v) && Follow(d, RefOf(v)).Some? && LandsAfter(d, Follow(d, RefOf(v)).value, n - 1, w)
  }

  lemma {:induction false} LandingCounts(d: Doc, v: Json, fuel: nat) returns (n: nat)
    requires Landing(d, v, fuel).Some?
    ensures LandsAfter(d, v, n, Landing(d, v, fuel).value)
    decreases fuel
  {
    n := 0;
    if IsRef(v) {
      n := LandingCounts(d, Follow(d, RefOf(v)).value, fuel - 1);
      n := n + 1;
    }
  }

  lemma {:induction false} LandsAfterOne(d: Doc, v: Json, n: nat, w: Json, m: nat, x: Json)
    requires LandsAfter(d, v, n, w) && LandsAfter(d, v, m, x)
    ensures n == m && w == x
    decreases n
  {
    if n > 0 && m > 0 { LandsAfterOne(d, Follow(d, RefOf(v)).value, n - 1, w, m - 1, x); }
  }

  lemma {:induction false} LandsAfterLands(d: Doc, v: Json, n: nat, text: string)
    requires LandsAfter(d, v, n, Str(text))
    ensures LandsOn(d, v, text)
    decreases n
  {
    if n > 0 {
      LandsAfterLands(d, Follow(d, RefOf(v)).value, n - 1, text);
      LandsOnward(d, v, text);
    } else {
      LandsAtOnce(d, v, text);
    }
  }

  /** None of the references being expanded is as near to w. */
  ghost predicate Farther(d: Doc, stack: seq<string>, n: nat, w: Json) {
    forall ref, m: nat | ref in stack && Follow(d, ref).Some? && LandsAfter(d, Follow(d, ref).value, m, w) :: n <= m
  }

  lemma {:induction false} FartherOn(d: Doc, stack: seq<string>, ref: string, n: nat, w: Json)
    requires n > 0 && Farther(d, stack, n, w) && Follow(d, ref).Some? && LandsAfter(d, Follow(d, ref).value, n - 1, w)
    ensures ref !in stack && Farther(d, stack + [ref], n - 1, w)
  {
    forall r, m: nat | r in stack + [ref] && Follow(d, r).Some? && LandsAfter(d, Follow(d, r).value, m, w)
      ensures n - 1 <= m
    {
      if r == ref { LandsAfterOne(d, Follow(d, ref).value, n - 1, w, m, w); }
    }
  }

  lemma {:induction false} NoneLandsFarther(d: Doc, stack: seq<string>, n: nat, text: string)
    requires forall ref | ref in stack && Follow(d, ref).Some? :: !LandsOn(d, Follow(d, ref).value, text)
    ensures Farther(d, stack, n, Str(text))
  {
    forall ref, m: nat | ref in stack && Follow(d, ref).Some? && LandsAfter(d, Follow(d, ref).value, m, Str(text))
      ensures false
    {
      LandsAfterLands(d, Follow(d, ref).value, m, text);
    }
  }

  /** A node that leads to a text is copied as the text, where its references are expanded. */
  lemma {:induction false} CopiedAsText(d: Doc, u: set<string>, node: Json, stack: seq<string>, at: Place, n: nat,
                                        text: string)
    requires Within(d, u, node) && NodeOf(d, u, node, stack, at).Some?
    requires LandsAfter(d, node, n, Str(text)) && Farther(d, stack, n, Str(text))
    ensures NodeOf(d, u, node, stack, at) == Some(Str(text))
    decreases n
  {
    if n > 0 {
      var ref := RefOf(node);
      FollowWithin(d, u, ref);
      FartherOn(d, stack, ref, n, Str(text));
      OneLess(u, stack, ref);
      CopiedAsText(d, u, Follow(d, ref).value, stack + [ref], at.Referenced(), n - 1, text);
    }
  }

  /** An expanded object looks as its node does, and is a reference only where the node holds a
      reference to a text under "$ref". */
  lemma {:induction false} NodeObject(d: Doc, u: set<string>, n: Node, stack: seq<string>, at: Place, b: Json)
    requires Within(d, u, Obj(n)) && StrAt(n, "$ref").None? && NodeOf(d, u, Obj(n), stack, at) == Some(b)
    ensures b.Obj? && Look(b) == Look(Obj(n))
    ensures forall k | !IsStamp(k) :: k in b.fields <==> k in n
    ensures forall k | k in n && !IsStamp(k) :: NodeOf(d, u, n[k], stack, at.Child(k)) == Some(b.fields[k])
    ensures IsRef(b) ==> HoldsText(d, Obj(n), RefOf(b))
  {
    var out := NodeFields(d, u, Obj(n), stack, at).value;
    StampAddsOnly(d.orders, n, out, at);
    StampedLooks(n, out, b);
    if IsRef(b) { TextCopied(d, u, n["$ref"], stack, at.Child("$ref"), RefOf(b)); }
  }

  /** And there it is one, to that text. */
  lemma {:induction false} NodeObjectText(d: Doc, u: set<string>, n: Node, stack: seq<string>, at: Place, b: Json,
                                          text: string)
    requires Within(d, u, Obj(n)) && StrAt(n, "$ref").None? && NodeOf(d, u, Obj(n), stack, at) == Some(b)
    requires Underway(d, stack, Obj(n)) && HoldsText(d, Obj(n), text)
    ensures b.Obj? && StrAt(b.fields, "$ref") == Some(text)
  {
    NodeObject(d, u, n, stack, at, b);
    NoneLands(d, stack, Obj(n));
    var fuel: nat :| Landing(d, n["$ref"], fuel) == Some(Str(text));
    var far := LandingCounts(d, n["$ref"], fuel);
    NoneLandsFarther(d, stack, far, text);
    CopiedAsText(d, u, n["$ref"], stack, at.Child("$ref"), far, text);
  }

  lemma {:induction false} ExpandedPlain(d: Doc, u: set<string>, names: set<string>, a: Json, stack: seq<string>,
                                         b: Json)
    requires !IsRef(a) && Expands(d, u, names, a, stack, b)
    ensures Look(b) == Look(a) && (IsRef(b) ==> HoldsText(d, a, RefOf(b)))
    ensures forall text | HoldsText(d, a, text) :: IsRef(b) && RefOf(b) == text
  {
    var at :| Expanded(d, u, a, stack, at, b, names);
    if a.Obj? {
      NodeObject(d, u, a.fields, stack, at, b);
      forall text | HoldsText(d, a, text) ensures IsRef(b) && RefOf(b) == text {
        NodeObjectText(d, u, a.fields, stack, at, b, text);
      }
    }
  }

  lemma {:induction false} ExpandedChild(d: Doc, u: set<string>, names: set<string>, a: Json, stack: seq<string>,
                                         b: Json, step: Step)
    requires !IsRef(a) && Expands(d, u, names, a, stack, b) && (step.index < 0 ==> !IsStamp(step.field))
    ensures Enter(a, step).Some? <==> Enter(b, step).Some?
    ensures Enter(a, step).Some? ==> Expands(d, u, names, Enter(a, step).value, stack, Enter(b, step).value)
  {
    var at :| Expanded(d, u, a, stack, at, b, names);
    if a.Obj? {
      NodeObject(d, u, a.fields, stack, at, b);
      if step.index < 0 && step.field in a.fields {
        var k := step.field;
        NoneLands(d, stack, a);
        FollowableField(d, a.fields, k);
        assert Expanded(d, u, a.fields[k], stack, at.Child(k), b.fields[k], names);
      }
    } else if a.Arr? && 0 <= step.index < |a.items| {
      NoneLands(d, stack, a);
      FollowableItem(d, a.items, step.index);
      assert Expanded(d, u, a.items[step.index], stack, at, b.items[step.index], names);
    }
  }

  // ----- What a resolution meets, and where it misreads -----

  /** v is met along a path from a, each reference expanded unless it is being expanded already,
      and no object that holds a text under "$ref" passed through. */
  ghost predicate Meets(d: Doc, u: set<string>, a: Json, stack: seq<string>, path: seq<Step>, v: Json)
    requires Within(d, u, a)
    decreases |path|, |u - Elements(stack)|
  {
    (path == [] && v == a) ||
    (if IsRef(a) then
       RefOf(a) !in stack && Follow(d, RefOf(a)).Some? &&
       (FollowWithin(d, u, RefOf(a));
        OneLess(u, stack, RefOf(a));
        Meets(d, u, Follow(d, RefOf(a)).value, stack + [RefOf(a)], path, v))
     else
       path != [] && (forall text :: !HoldsText(d, a, text)) && Enter(a, path[0]).Some? &&
       (EnterWithin(d, u, a, path[0]);
        Meets(d, u, Enter(a, path[0]).value, stack, path[1..], v)))
  }

  lemma {:induction false} EnterWithin(d: Doc, u: set<string>, a: Json, step: Step)
    requires Within(d, u, a) && Enter(a, step).Some?
    ensures Within(d, u, Enter(a, step).value)
  {
  }

  /** The text names a definition, through which one sees what one sees in v. */
  ghost predicate ReadsAs(d: Doc, g: map<string, Json>, v: Json, text: string) {
    Own(g).Lead(text).Some? &&
    forall path, o | Unstamped(path) :: Sees(Spec(d), v, path, o) <==> Sees(Own(g), Own(g).Lead(text).value, path, o)
  }

  /** v is copied as a reference to something else than v. */
  ghost predicate Misread(d: Doc, g: map<string, Json>, v: Json) {
    exists text :: HoldsText(d, v, text) && !ReadsAs(d, g, v, text)
  }

  /** Nothing met is misread. */
  ghost predicate WellRead(d: Doc, u: set<string>, g: map<string, Json>, a: Json, stack: seq<string>)
    requires Within(d, u, a)
  {
    forall path, v | Unstamped(path) && Meets(d, u, a, stack, path, v) :: !Misread(d, g, v)
  }

  lemma {:induction false} WellReadOn(d: Doc, u: set<string>, g: map<string, Json>, a: Json, stack: seq<string>)
    requires Within(d, u, a) && IsRef(a) && RefOf(a) in u && RefOf(a) !in stack && Follow(d, RefOf(a)).Some?
    requires WellRead(d, u, g, a, stack)
    ensures Within(d, u, Follow(d, RefOf(a)).value) && WellRead(d, u, g, Follow(d, RefOf(a)).value, stack + [RefOf(a)])
  {
    FollowWithin(d, u, RefOf(a));
    forall path, v | Unstamped(path) && Meets(d, u, Follow(d, RefOf(a)).value, stack + [RefOf(a)], path, v)
      ensures !Misread(d, g, v)
    {
      assert Meets(d, u, a, stack, path, v);
    }
  }

  lemma {:induction false} WellReadInto(d: Doc, u: set<string>, g: map<string, Json>, a: Json, stack: seq<string>,
                                        step: Step)
    requires Within(d, u, a) && !IsRef(a) && (forall text :: !HoldsText(d, a, text))
    requires (step.index < 0 ==> !IsStamp(step.field))
    requires WellRead(d, u, g, a, stack) && Enter(a, step).Some?
    ensures Within(d, u, Enter(a, step).value) && WellRead(d, u, g, Enter(a, step).value, stack)
  {
    EnterWithin(d, u, a, step);
    forall path, v | Unstamped(path) && Meets(d, u, Enter(a, step).value, stack, path, v)
      ensures !Misread(d, g, v)
    {
      var longer := [step] + path;
      assert longer[1..] == path && Unstamped(longer);
      assert Meets(d, u, a, stack, longer, v);
    }
  }

  // ----- A copy with references expanded reads as its node -----

  lemma {:induction false} KeptSees(d: Doc, defs: map<string, Json>, g: map<string, Json>, a: Json, b: Json,
                                    path: seq<Step>, o: Sight)
    requires HoldsDefs(d, defs, g) && Unstamped(path)
    requires IsRef(a) && Kept(RefOf(a)) == Some(b) && NameOf(RefOf(a)).value in defs && FollowableRef(d, RefOf(a))
    ensures Sees(Spec(d), a, path, o) <==> Sees(Own(g), b, path, o)
  {
    KeptLeads(d, defs, g, RefOf(a), b);
    SeesOn(Spec(d), a, path, o);
    SeesOn(Own(g), b, path, o);
    CopySees(d, defs, g, Follow(d, RefOf(a)).value, Own(g).Lead(RefOf(b)).value, path, o);
  }

  lemma {:induction false} TextSees(d: Doc, u: set<string>, names: set<string>, g: map<string, Json>, a: Json,
                                    stack: seq<string>, b: Json, path: seq<Step>, o: Sight)
    requires Expands(d, u, names, a, stack, b) && Unstamped(path) && !IsRef(a) && IsRef(b) && !Misread(d, g, a)
    ensures Sees(Spec(d), a, path, o) <==> Sees(Own(g), b, path, o)
  {
    ExpandedPlain(d, u, names, a, stack, b);
    assert ReadsAs(d, g, a, RefOf(b));
    SeesOn(Own(g), b, path, o);
  }

  lemma {:induction false} ExpandedSees(d: Doc, u: set<string>, defs: map<string, Json>, g: map<string, Json>,
                                        a: Json, stack: seq<string>, b: Json, path: seq<Step>, o: Sight)
    requires HoldsDefs(d, defs, g) && Expands(d, u, defs.Keys, a, stack, b) && Unstamped(path)
    requires Within(d, u, a) && WellRead(d, u, g, a, stack)
    ensures Sees(Spec(d), a, path, o) <==> Sees(Own(g), b, path, o)
    decreases |path|, |u - Elements(stack)|, 1
  {
    if IsRef(a) {
      var ref := RefOf(a);
      if ref in stack {
        ExpandedKept(d, u, defs.Keys, a, stack, b);
        KeptSees(d, defs, g, a, b, path, o);
      } else {
        ExpandedRef(d, u, defs.Keys, a, stack, b);
        OneLess(u, stack, ref);
        WellReadOn(d, u, g, a, stack);
        SeesOn(Spec(d), a, path, o);
        ExpandedSees(d, u, defs, g, Follow(d, ref).value, stack + [ref], b, path, o);
      }
    } else {
      ExpandedPlainSees(d, u, defs, g, a, stack, b, path, o);
    }
  }

  lemma {:induction false} ExpandedPlainSees(d: Doc, u: set<string>, defs: map<string, Json>, g: map<string, Json>,
                                             a: Json, stack: seq<string>, b: Json, path: seq<Step>, o: Sight)
    requires HoldsDefs(d, defs, g) && Expands(d, u, defs.Keys, a, stack, b) && Unstamped(path) && !IsRef(a)
    requires Within(d, u, a) && WellRead(d, u, g, a, stack)
    ensures Sees(Spec(d), a, path, o) <==> Sees(Own(g), b, path, o)
    decreases |path|, |u - Elements(stack)|, 0
  {
    ExpandedPlain(d, u, defs.Keys, a, stack, b);
    if IsRef(b) {
      assert Unstamped([]) && Meets(d, u, a, stack, [], a);
      TextSees(d, u, defs.Keys, g, a, stack, b, path, o);
    } else if path == [] {
      SeesHere(Spec(d), a, o);
      SeesHere(Own(g), b, o);
    } else {
      SeesInto(Spec(d), a, path, o);
      SeesInto(Own(g), b, path, o);
      ExpandedChild(d, u, defs.Keys, a, stack, b, path[0]);
      if Enter(a, path[0]).Some? {
        WellReadInto(d, u, g, a, stack, path[0]);
        ExpandedSees(d, u, defs, g, Enter(a, path[0]).value, stack, Enter(b, path[0]).value, path[1..], o);
      }
    }
  }

  // ----- A misread object is seen -----

  /** Some path shows something else in the copy than in the node. */
  ghost predicate Differs(d: Doc, g: map<string, Json>, a: Json, b: Json) {
    exists path, o :: Unstamped(path) && DiffersAt(d, g, a, b, path, o)
  }

  ghost predicate DiffersAt(d: Doc, g: map<string, Json>, a: Json, b: Json, path: seq<Step>, o: Sight) {
    !(Sees(Spec(d), a, path, o) <==> Sees(Own(g), b, path, o))
  }

  lemma {:induction false} MisreadDiffers(d: Doc, u: set<string>, names: set<string>, g: map<string, Json>, a: Json,
                                          stack: seq<string>, b: Json)
    requires Expands(d, u, names, a, stack, b) && Misread(d, g, a)
    ensures Differs(d, g, a, b)
  {
    var text :| HoldsText(d, a, text) && !ReadsAs(d, g, a, text);
    ExpandedPlain(d, u, names, a, stack, b);
    if Own(g).Lead(text).None? {
      SeesHere(Spec(d), a, Look(a));
      SeesOn(Own(g), b, [], Look(a));
      assert Unstamped([]) && DiffersAt(d, g, a, b, [], Look(a));
    } else {
      var path, o :| Unstamped(path) &&
                     !(Sees(Spec(d), a, path, o) <==> Sees(Own(g), Own(g).Lead(text).value, path, o));
      SeesOn(Own(g), b, path, o);
      assert DiffersAt(d, g, a, b, path, o);
    }
  }

  lemma {:induction false} MetMisreadDiffers(d: Doc, u: set<string>, names: set<string>, g: map<string, Json>,
                                             a: Json, stack: seq<string>, b: Json, path: seq<Step>, v: Json)
    requires Within(d, u, a) && Expands(d, u, names, a, stack, b) && Unstamped(path)
    requires Meets(d, u, a, stack, path, v) && Misread(d, g, v)
    ensures Differs(d, g, a, b)
    decreases |path|, |u - Elements(stack)|
  {
    if path == [] && v == a {
      MisreadDiffers(d, u, names, g, a, stack, b);
    } else if IsRef(a) {
      var ref := RefOf(a);
      ExpandedRef(d, u, names, a, stack, b);
      FollowWithin(d, u, ref);
      OneLess(u, stack, ref);
      MetMisreadDiffers(d, u, names, g, Follow(d, ref).value, stack + [ref], b, path, v);
      DiffersOn(d, g, a, b);
    } else {
      ExpandedPlain(d, u, names, a, stack, b);
      ExpandedChild(d, u, names, a, stack, b, path[0]);
      EnterWithin(d, u, a, path[0]);
      MetMisreadDiffers(d, u, names, g, Enter(a, path[0]).value, stack, Enter(b, path[0]).value, path[1..], v);
      DiffersInto(d, g, a, b, path[0]);
    }
  }

  lemma {:induction false} DiffersOn(d: Doc, g: map<string, Json>, a: Json, b: Json)
    requires IsRef(a) && Follow(d, RefOf(a)).Some? && Differs(d, g, Follow(d, RefOf(a)).value, b)
    ensures Differs(d, g, a, b)
  {
    var path, o :| Unstamped(path) && DiffersAt(d, g, Follow(d, RefOf(a)).value, b, path, o);
    SeesOn(Spec(d), a, path, o);
    assert DiffersAt(d, g, a, b, path, o);
  }

  lemma {:induction false} DiffersInto(d: Doc, g: map<string, Json>, a: Json, b: Json, step: Step)
    requires !IsRef(a) && !IsRef(b) && Enter(a, step).Some? && Enter(b, step).Some?
    requires (step.index < 0 ==> !IsStamp(step.field))
    requires Differs(d, g, Enter(a, step).value, Enter(b, step).value)
    ensures Differs(d, g, a, b)
  {
    var path, o :| Unstamped(path) && DiffersAt(d, g, Enter(a, step).value, Enter(b, step).value, path, o);
    var longer := [step] + path;
    assert longer[1..] == path && Unstamped(longer);
    SeesInto(Spec(d), a, longer, o);
    SeesInto(Own(g), b, longer, o);
    assert DiffersAt(d, g, a, b, longer, o);
  }

  // ----- The resolved schema -----

  function DefsIn(s: Node): Node { NodeAt(s, "$defs").GetOr(map[]) }

  lemma {:induction false} OwnDefs(d: Doc, u: set<string>, node: Json, m: Node, defs: map<string, Json>)
    requires Resolved(d, u, node, m, defs)
    ensures HoldsDefs(d, defs, DefsIn(WithDefs(m, defs)))
    ensures Within(d, u, node) && Expands(d, u, defs.Keys, node, [], Obj(m))
  {
    ExpandsExactly(d, u, node, InSchema);
  }

  /** Along every path the copy shows, through the schema's own $defs, what the spec shows: the
      same scalar, keys or list length, and nothing more. */
  ghost predicate Means(d: Doc, node: Json, m: Node, g: map<string, Json>) {
    forall path, o | Unstamped(path) :: Sees(Spec(d), node, path, o) <==> Sees(Own(g), Obj(m), path, o)
  }

  lemma {:induction false} WellReadMeans(d: Doc, u: set<string>, defs: map<string, Json>, g: map<string, Json>,
                                         node: Json, m: Node)
    requires HoldsDefs(d, defs, g) && Within(d, u, node) && Expands(d, u, defs.Keys, node, [], Obj(m))
    requires WellRead(d, u, g, node, [])
    ensures Means(d, node, m, g)
  {
    forall path, o | Unstamped(path) ensures Sees(Spec(d), node, path, o) <==> Sees(Own(g), Obj(m), path, o) {
      ExpandedSees(d, u, defs, g, node, [], Obj(m), path, o);
    }
  }

  lemma {:induction false} MisreadMeansElse(d: Doc, u: set<string>, names: set<string>, g: map<string, Json>,
                                            node: Json, m: Node)
    requires Within(d, u, node) && Expands(d, u, names, node, [], Obj(m)) && !WellRead(d, u, g, node, [])
    ensures !Means(d, node, m, g)
  {
    var path, v :| Unstamped(path) && Meets(d, u, node, [], path, v) && Misread(d, g, v);
    MetMisreadDiffers(d, u, names, g, node, [], Obj(m), path, v);
    var q, o :| Unstamped(q) && DiffersAt(d, g, node, Obj(m), q, o);
  }

  /** A schema that resolves means what its node means, but for an object it meets that holds a
      reference to a text under "$ref", unless that text names a definition that reads the same. */
  lemma {:induction false} ResolvedMeansTheSame(d: Doc, u: set<string>, node: Json, m: Node, defs: map<string, Json>,
                                                g: map<string, Json>)
    requires Resolved(d, u, node, m, defs) && g == DefsIn(WithDefs(m, defs))
    ensures Within(d, u, node) && (Means(d, node, m, g) <==> WellRead(d, u, g, node, []))
  {
    OwnDefs(d, u, node, m, defs);
    if WellRead(d, u, g, node, []) {
      WellReadMeans(d, u, defs, g, node, m);
    } else {
      MisreadMeansElse(d, u, defs.Keys, g, node, m);
    }
  }

  /** The added $defs show at the root alone. */
  lemma {:induction false} AddedDefsHideNothing(m: Node, defs: map<string, Json>, g: map<string, Json>,
                                                path: seq<Step>, o: Sight)
    requires path != [] && (path[0].index < 0 ==> path[0].field != "$defs")
    ensures Sees(Own(g), Obj(WithDefs(m, defs)), path, o) <==> Sees(Own(g), Obj(m), path, o)
  {
    var s := WithDefs(m, defs);
    assert StrAt(s, "$ref") == StrAt(m, "$ref");
    if IsRef(Obj(m)) {
      SeesOn(Own(g), Obj(m), path, o);
      SeesOn(Own(g), Obj(s), path, o);
    } else {
      assert Enter(Obj(s), path[0]) == Enter(Obj(m), path[0]);
      SeesInto(Own(g), Obj(m), path, o);
      SeesInto(Own(g), Obj(s), path, o);
    }
  }
}
