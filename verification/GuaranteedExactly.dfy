/** How much the static walk locates (internal/generator/walk.go): of the paths that step into no
    literal, meet no alternative and stay within the $ref budget, exactly those every record has. */
module GuaranteedExactly {
  import opened JsonValues
  import opened Sorting
  import opened SchemaTypes
  import opened SchemaMerge
  import opened Generation
  import opened Paths
  import opened KeyPaths
  import opened Records
  import opened GuaranteedWalk
  import opened Outcomes

  // ----- Nodes built by their type -----

  /** The schema a step leads to where the step exists. */
  function Inside(s: Node, step: Step): Option<Node> {
    if step.index >= 0 then NodeAt(s, "items") else NodeAt(PropsOf(s), step.field)
  }

  /** Where a step exists in every value, each outcome of the schema inside stands there in some
      outcome, and its absence leaves the step out. */
  lemma {:induction false} InsideReached(defs: Node, s: Node, depth: nat, step: Step, o: Outcome) returns (v: Json)
    requires depth <= MAX_DEPTH && ByType(s) && Answerable(defs, s, depth) && Resolved(step)
    requires Descend(s, step).Some? && Yields(defs, Descend(s, step).value, depth, o)
    ensures Yields(defs, s, depth, Value(v))
    ensures Child(v, step) == if o.Value? then Some(o.v) else None
  {
    if step.index >= 0 {
      v := Arr(Repeated(s, o));
      RepeatedIsYielded(defs, s, depth, o);
      assert YieldsTyped(defs, s, "array", depth, Value(v));
    } else {
      v := ObjectWith(defs, s, depth, step.field, o);
      assert YieldsTyped(defs, s, "object", depth, Value(v));
      assert step == FieldStep(step.field);
    }
    assert TypeList(s).value[0] in TypeList(s).value;
  }

  /** An object with a given outcome of one property, which may be absent if it can or need not be. */
  lemma {:induction false} ObjectWith(defs: Node, s: Node, depth: nat, f: string, o: Outcome) returns (v: Json)
    requires depth <= MAX_DEPTH && AnswerableObject(defs, s, depth)
    requires o.Value? ==> f in PropsOf(s) && YieldsProp(defs, PropsOf(s), f, depth, o)
    requires o.Absent? && f in PropsOf(s) && Required(s, f) ==> YieldsProp(defs, PropsOf(s), f, depth, Absent)
    ensures v.Ord? && YieldsObject(defs, s, depth, v.keys, v.vals)
    ensures Child(v, FieldStep(f)) == if o.Value? then Some(o.v) else None
  {
    var vals := ChooseAll(defs, s, depth, PropsOf(s).Keys);
    vals := if o.Value? then vals[f := o.v] else vals - {f};
    AnswerableIsReadable(defs, s, depth);
    ObjectIsYielded(defs, s, depth, vals);
    ObjectField(s, vals, f);
    v := ObjectOf(s, vals);
  }

  /** Where the walk refuses a step, some outcome does not have it. */
  lemma {:induction false} RefusedIsMissing(defs: Node, s: Node, depth: nat, step: Step) returns (v: Json)
    requires depth <= MAX_DEPTH && ByType(s) && Answerable(defs, s, depth) && Resolved(step)
    requires Descend(s, step).None?
    ensures Yields(defs, s, depth, Value(v)) && Child(v, step).None?
  {
    var want := if step.index >= 0 then "array" else "object";
    TypesOfShape(s["type"]);
    if t :| t in TypeList(s).value && t != want {
      v := AnswerableTyped(defs, s, depth, t);
      OtherTypeLacks(defs, s, depth, t, v, step);
    } else {
      OnlyType(TypeList(s).value, want);
      if step.index >= 0 {
        v := ShortArray(defs, s, depth, step.index);
      } else {
        assert step.field in PropsOf(s) ==> AnswerableProp(defs, s, step.field, depth);
        v := ObjectWith(defs, s, depth, step.field, Absent);
        assert step == FieldStep(step.field);
      }
      assert YieldsTyped(defs, s, want, depth, Value(v)) && want in TypeList(s).value;
    }
  }

  lemma {:induction false} OnlyType(ts: seq<string>, t: string)
    requires ts != [] && Distinct(ts) && forall x | x in ts :: x == t
    ensures ts == [t]
  {
    assert ts[0] in ts;
    if |ts| > 1 { FirstTwo(ts, t); }
  }

  lemma {:induction false} FirstTwo(ts: seq<string>, t: string)
    requires |ts| > 1 && forall x | x in ts :: x == t
    ensures ts[0] == ts[1]
  {
    assert ts[0] in ts && ts[1] in ts;
  }

  lemma {:induction false} OtherTypeLacks(defs: Node, s: Node, depth: nat, t: string, v: Json, step: Step)
    requires depth <= MAX_DEPTH && JsonType(t) && t != (if step.index >= 0 then "array" else "object")
    requires YieldsTyped(defs, s, t, depth, Value(v))
    ensures Child(v, step).None?
  {
  }

  lemma {:induction false} ShortArray(defs: Node, s: Node, depth: nat, i: int) returns (v: Json)
    requires depth <= MAX_DEPTH && AnswerableArray(defs, s, depth) && i >= 0
    requires NodeAt(s, "items").None? || i >= MinItems(s)
    ensures v.Arr? && YieldsArray(defs, s, depth, v.items) && |v.items| <= i
  {
    var vals: seq<Json> := [];
    if NodeAt(s, "items").Some? {
      HeightField(s, "items");
      var o := Absent;
      if MinItems(s) > 0 { o := AnswerableSome(defs, s["items"].fields, depth); }
      RepeatedIsYielded(defs, s, depth, o);
      vals := Repeated(s, o);
    }
    v := Arr(vals);
  }

  // ----- Chains of references and merges -----

  /** One reference followed within the budget, or one allOf merged. */
  ghost predicate Onward(defs: Node, s: Node, depth: nat, t: Node, d: nat) {
    if StrAt(s, "$ref").Some? then LookupDef(defs, s["$ref"].s) == Some(t) && depth < MAX_DEPTH && d == depth + 1
    else ListAt(s, "allOf").Some? && MergeAll(s["allOf"].items) == Some(t) && d == depth
  }

  /** Nodes each of which leads to the next, the last of them neither a reference nor an allOf. */
  ghost predicate IsChain(defs: Node, chain: seq<(Node, nat)>) {
    chain != []
    && (forall i | 0 < i < |chain| :: Onward(defs, chain[i - 1].0, chain[i - 1].1, chain[i].0, chain[i].1))
    && StrAt(chain[|chain| - 1].0, "$ref").None? && ListAt(chain[|chain| - 1].0, "allOf").None?
  }

  /** A literal answers one of the nodes. */
  ghost predicate MeetsLiteral(chain: seq<(Node, nat)>) {
    exists i :: 0 <= i < |chain| && StrAt(chain[i].0, "$ref").None? && IsLiteral(chain[i].0)
  }

  ghost predicate Alternatives(s: Node) { "oneOf" in s || "anyOf" in s }

  /** The chain from a node, where it ends within the budget. */
  lemma {:induction false} ResolvedChain(defs: Node, s: Node, depth: nat, into: bool) returns (chain: seq<(Node, nat)>)
    requires depth <= MAX_DEPTH && Resolve(defs, s, depth, into).Some?
    ensures IsChain(defs, chain) && chain[0] == (s, depth)
    ensures chain[|chain| - 1] == Resolve(defs, s, depth, into).value && !Alternatives(chain[|chain| - 1].0)
    ensures into ==> !MeetsLiteral(chain)
    decreases MAX_DEPTH - depth, Height(Obj(s))
  {
    if StrAt(s, "$ref").None? && ListAt(s, "allOf").None? {
      chain := [(s, depth)];
      SingleChain(defs, s, depth);
    } else {
      var t, d := ResolvedNext(defs, s, depth, into);
      var rest := ResolvedChain(defs, t, d, into);
      chain := ChainBefore(defs, s, depth, rest);
    }
  }

  lemma {:induction false} ResolvedNext(defs: Node, s: Node, depth: nat, into: bool) returns (t: Node, d: nat)
    requires depth <= MAX_DEPTH && Resolve(defs, s, depth, into).Some?
    requires StrAt(s, "$ref").Some? || ListAt(s, "allOf").Some?
    ensures d <= MAX_DEPTH && Onward(defs, s, depth, t, d)
    ensures Resolve(defs, t, d, into) == Resolve(defs, s, depth, into)
    ensures into && StrAt(s, "$ref").None? ==> !IsLiteral(s)
    ensures depth < d || (depth == d && Height(Obj(t)) < Height(Obj(s)))
  {
    if StrAt(s, "$ref").Some? {
      t, d := LookupDef(defs, s["$ref"].s).value, depth + 1;
    } else {
      AllOfShrinks(s);
      t, d := MergeAll(s["allOf"].items).value, depth;
    }
  }

  lemma {:induction false} SingleChain(defs: Node, s: Node, depth: nat)
    requires StrAt(s, "$ref").None? && ListAt(s, "allOf").None?
    ensures IsChain(defs, [(s, depth)]) && (MeetsLiteral([(s, depth)]) <==> IsLiteral(s))
  {
    assert [(s, depth)][0] == (s, depth);
  }

  lemma {:induction false} ChainBefore(defs: Node, s: Node, depth: nat, rest: seq<(Node, nat)>)
    returns (chain: seq<(Node, nat)>)
    requires IsChain(defs, rest) && Onward(defs, s, depth, rest[0].0, rest[0].1)
    ensures IsChain(defs, chain) && chain[0] == (s, depth) && chain[|chain| - 1] == rest[|rest| - 1]
    ensures MeetsLiteral(chain) <==> (StrAt(s, "$ref").None? && IsLiteral(s)) || MeetsLiteral(rest)
  {
    chain := [(s, depth)] + rest;
    forall i | 0 < i < |chain| ensures Onward(defs, chain[i - 1].0, chain[i - 1].1, chain[i].0, chain[i].1) {
      if i > 1 { assert Onward(defs, rest[i - 2].0, rest[i - 2].1, rest[i - 1].0, rest[i - 1].1); }
    }
    if i :| 0 <= i < |rest| && StrAt(rest[i].0, "$ref").None? && IsLiteral(rest[i].0) {
      assert chain[i + 1] == rest[i];
    }
    if i :| 0 <= i < |chain| && StrAt(chain[i].0, "$ref").None? && IsLiteral(chain[i].0) && i > 0 {
      assert rest[i - 1] == chain[i];
    }
    assert chain[0] == (s, depth);
  }

  lemma {:induction false} ChainResolves(defs: Node, chain: seq<(Node, nat)>, into: bool)
    requires IsChain(defs, chain) && chain[0].1 <= MAX_DEPTH && !Alternatives(chain[|chain| - 1].0)
    requires into ==> !MeetsLiteral(chain)
    ensures Resolve(defs, chain[0].0, chain[0].1, into) == Some(chain[|chain| - 1])
    decreases |chain|
  {
    var s, depth := chain[0].0, chain[0].1;
    if |chain| > 1 {
      assert Onward(defs, chain[0].0, chain[0].1, chain[1].0, chain[1].1);
      ChainTail(defs, chain);
      if StrAt(s, "$ref").None? { AllOfShrinks(s); }
      ChainResolves(defs, chain[1..], into);
    }
  }

  lemma {:induction false} ChainTail(defs: Node, chain: seq<(Node, nat)>)
    requires IsChain(defs, chain) && |chain| > 1
    ensures IsChain(defs, chain[1..]) && (MeetsLiteral(chain[1..]) ==> MeetsLiteral(chain))
  {
    var rest := chain[1..];
    forall i | 0 < i < |rest| ensures Onward(defs, rest[i - 1].0, rest[i - 1].1, rest[i].0, rest[i].1) {
      assert Onward(defs, chain[i].0, chain[i].1, chain[i + 1].0, chain[i + 1].1);
    }
    if i :| 0 <= i < |rest| && StrAt(rest[i].0, "$ref").None? && IsLiteral(rest[i].0) {
      assert chain[i + 1] == rest[i];
    }
  }

  /** A chain from a node that ends at one without alternatives. */
  ghost predicate EndsFrom(defs: Node, chain: seq<(Node, nat)>, s: Node, depth: nat) {
    IsChain(defs, chain) && chain[0] == (s, depth) && !Alternatives(chain[|chain| - 1].0)
  }

  /** The empty path is located if and only if following references and merging allOfs ends, within
      the budget, at a node without alternatives, whether or not a literal answers it. */
  lemma {:induction false} EmptyPathExact(defs: Node, s: Node, depth: nat)
    requires depth <= MAX_DEPTH
    ensures LocateFrom(defs, s, depth, []).Some? <==>
            exists chain :: EndsFrom(defs, chain, s, depth)
  {
    if Resolve(defs, s, depth, false).Some? {
      var chain := ResolvedChain(defs, s, depth, false);
      assert EndsFrom(defs, chain, s, depth);
    }
    if chain :| EndsFrom(defs, chain, s, depth) { ChainResolves(defs, chain, false); }
  }

  // ----- Whole paths -----

  /** Nothing on the way of a path makes the walk refuse it outright: every reference can be followed
      within the budget, every allOf merges, no node has alternatives, and none that the path steps
      into is answered with a literal. */
  ghost predicate Open(defs: Node, s: Node, depth: nat, path: seq<Step>)
    requires depth <= MAX_DEPTH
    decreases |path|, MAX_DEPTH - depth, Height(Obj(s))
  {
    if StrAt(s, "$ref").Some? then
      LookupDef(defs, s["$ref"].s).Some? && depth < MAX_DEPTH &&
      Open(defs, LookupDef(defs, s["$ref"].s).value, depth + 1, path)
    else if path != [] && IsLiteral(s) then false
    else if ListAt(s, "allOf").Some? then
      MergeAll(s["allOf"].items).Some? && (AllOfShrinks(s); Open(defs, MergeAll(s["allOf"].items).value, depth, path))
    else
      !Alternatives(s) &&
      (path != [] && Inside(s, path[0]).Some? ==> Open(defs, Inside(s, path[0]).value, depth, path[1..]))
  }

  ghost predicate HasPath(o: Outcome, path: seq<Step>) { o.Value? && At(o.v, path).Some? }

  ghost predicate InEveryOutcome(defs: Node, s: Node, depth: nat, path: seq<Step>)
    requires depth <= MAX_DEPTH
  {
    forall o | Yields(defs, s, depth, o) :: HasPath(o, path)
  }

  /** The node a path is read at, once references are followed and allOfs merged. */
  lemma {:induction false} OpenResolves(defs: Node, s: Node, depth: nat, path: seq<Step>)
    requires depth <= MAX_DEPTH && Open(defs, s, depth, path)
    ensures Resolve(defs, s, depth, path != []).Some?
    ensures var (n, d) := Resolve(defs, s, depth, path != []).value; OpenAt(defs, n, d, path)
    decreases MAX_DEPTH - depth, Height(Obj(s))
  {
    if StrAt(s, "$ref").Some? {
      OpenResolves(defs, LookupDef(defs, s["$ref"].s).value, depth + 1, path);
    } else if ListAt(s, "allOf").Some? {
      AllOfShrinks(s);
      OpenResolves(defs, MergeAll(s["allOf"].items).value, depth, path);
    }
  }

  /** Resolving changes nothing about what is yielded, whatever it is. */
  lemma {:induction false} ResolveYields(defs: Node, s: Node, depth: nat, o: Outcome)
    requires depth <= MAX_DEPTH && Resolve(defs, s, depth, true).Some?
    ensures var (n, d) := Resolve(defs, s, depth, true).value; Yields(defs, n, d, o) <==> Yields(defs, s, depth, o)
    decreases MAX_DEPTH - depth, Height(Obj(s))
  {
    if StrAt(s, "$ref").Some? {
      ResolveYields(defs, LookupDef(defs, s["$ref"].s).value, depth + 1, o);
      YieldsThroughRef(defs, s, depth, o);
    } else if ListAt(s, "allOf").Some? {
      IsLiteralExact(s);
      AllOfShrinks(s);
      ResolveYields(defs, MergeAll(s["allOf"].items).value, depth, o);
      YieldsThroughAllOf(defs, s, depth, o);
    }
  }

  lemma {:induction false} YieldsThroughRef(defs: Node, s: Node, depth: nat, o: Outcome)
    requires depth < MAX_DEPTH && StrAt(s, "$ref").Some? && LookupDef(defs, s["$ref"].s).Some?
    ensures Yields(defs, s, depth, o) <==> Yields(defs, LookupDef(defs, s["$ref"].s).value, depth + 1, o)
  {
  }

  lemma {:induction false} YieldsThroughAllOf(defs: Node, s: Node, depth: nat, o: Outcome)
    requires depth <= MAX_DEPTH && StrAt(s, "$ref").None? && LiteralsOf(s) == []
    requires ListAt(s, "allOf").Some? && MergeAll(s["allOf"].items).Some?
    ensures Yields(defs, s, depth, o) <==> Yields(defs, MergeAll(s["allOf"].items).value, depth, o)
  {
    AllOfShrinks(s);
  }

  /** Nor about whether the generator answers, and it ends at a node built by its type. */
  lemma {:induction false} ResolveAnswers(defs: Node, s: Node, depth: nat)
    requires depth <= MAX_DEPTH && Resolve(defs, s, depth, true).Some? && Answerable(defs, s, depth)
    ensures var (n, d) := Resolve(defs, s, depth, true).value; ByType(n) && Answerable(defs, n, d)
    decreases MAX_DEPTH - depth, Height(Obj(s))
  {
    IsLiteralExact(s);
    if StrAt(s, "$ref").Some? {
      ResolveAnswers(defs, LookupDef(defs, s["$ref"].s).value, depth + 1);
    } else if ListAt(s, "allOf").Some? {
      AllOfShrinks(s);
      ResolveAnswers(defs, MergeAll(s["allOf"].items).value, depth);
    }
  }

  /** What Open asks at a node that is neither a reference nor an allOf. */
  ghost predicate OpenAt(defs: Node, n: Node, d: nat, path: seq<Step>) {
    d <= MAX_DEPTH &&
    (path != [] && Inside(n, path[0]).Some? ==> Open(defs, Inside(n, path[0]).value, d, path[1..]))
  }

  /** A path of fields and indexes is located if and only if nothing on its way makes the walk refuse
      it outright and every outcome of the schema has it. */
  lemma {:induction false} LocatedExactly(defs: Node, s: Node, depth: nat, path: seq<Step>)
    requires depth <= MAX_DEPTH && Answerable(defs, s, depth) && ResolvedPath(path)
    ensures LocateFrom(defs, s, depth, path).Some? <==>
            Open(defs, s, depth, path) && InEveryOutcome(defs, s, depth, path)
  {
    if LocateFrom(defs, s, depth, path).Some? {
      LocatedIsOpen(defs, s, depth, path);
      LocatedSteps(defs, s, depth, path);
      forall o | Yields(defs, s, depth, o) ensures HasPath(o, path) { WalkSound(defs, s, depth, path, o); }
    }
    if Open(defs, s, depth, path) && InEveryOutcome(defs, s, depth, path) { OpenIsLocated(defs, s, depth, path); }
  }

  lemma {:induction false} LocatedSteps(defs: Node, s: Node, depth: nat, path: seq<Step>)
    requires depth <= MAX_DEPTH && LocateFrom(defs, s, depth, path).Some? && ResolvedPath(path)
    ensures LocateFrom(defs, s, depth, path).value.steps == path
    decreases |path|
  {
    if path != [] {
      var here := Resolve(defs, s, depth, true).value;
      var next := Descend(here.0, StepOf(here.0, path[0])).value;
      LocatedSteps(defs, next, here.1, path[1..]);
    }
  }

  lemma {:induction false} LocatedIsOpen(defs: Node, s: Node, depth: nat, path: seq<Step>)
    requires depth <= MAX_DEPTH && LocateFrom(defs, s, depth, path).Some? && ResolvedPath(path)
    ensures Open(defs, s, depth, path)
    decreases |path|, 1
  {
    if path != [] {
      var here := Resolve(defs, s, depth, true).value;
      var next := Descend(here.0, path[0]).value;
      LocatedIsOpen(defs, next, here.1, path[1..]);
    }
    ResolvedIsOpen(defs, s, depth, path);
  }

  lemma {:induction false} ResolvedIsOpen(defs: Node, s: Node, depth: nat, path: seq<Step>)
    requires depth <= MAX_DEPTH && Resolve(defs, s, depth, path != []).Some?
    requires var (n, d) := Resolve(defs, s, depth, path != []).value; OpenAt(defs, n, d, path)
    ensures Open(defs, s, depth, path)
    decreases MAX_DEPTH - depth, Height(Obj(s))
  {
    if StrAt(s, "$ref").Some? {
      ResolvedIsOpen(defs, LookupDef(defs, s["$ref"].s).value, depth + 1, path);
    } else if ListAt(s, "allOf").Some? {
      AllOfShrinks(s);
      ResolvedIsOpen(defs, MergeAll(s["allOf"].items).value, depth, path);
    }
  }

  lemma {:induction false} OpenIsLocated(defs: Node, s: Node, depth: nat, path: seq<Step>)
    requires depth <= MAX_DEPTH && Answerable(defs, s, depth) && ResolvedPath(path)
    requires Open(defs, s, depth, path) && InEveryOutcome(defs, s, depth, path)
    ensures LocateFrom(defs, s, depth, path).Some?
    decreases |path|
  {
    OpenResolves(defs, s, depth, path);
    if path != [] {
      var here := Resolve(defs, s, depth, true).value;
      ResolveAnswers(defs, s, depth);
      forall o | Yields(defs, here.0, here.1, o) ensures HasPath(o, path) { ResolveYields(defs, s, depth, o); }
      EveryStepTaken(defs, here.0, here.1, path);
      OpenIsLocated(defs, Descend(here.0, path[0]).value, here.1, path[1..]);
    }
  }

  lemma {:induction false} RefusedIsRight(defs: Node, n: Node, d: nat, path: seq<Step>)
    requires d <= MAX_DEPTH && ByType(n) && Answerable(defs, n, d) && path != [] && Resolved(path[0])
    requires Descend(n, path[0]).None?
    ensures !InEveryOutcome(defs, n, d, path)
  {
    var v := RefusedIsMissing(defs, n, d, path[0]);
    assert !HasPath(Value(v), path);
  }

  /** A step that every outcome has is taken, and the rest of the path is in every outcome inside. */
  lemma {:induction false} EveryStepTaken(defs: Node, n: Node, d: nat, path: seq<Step>)
    requires d <= MAX_DEPTH && ByType(n) && Answerable(defs, n, d) && path != [] && ResolvedPath(path)
    requires InEveryOutcome(defs, n, d, path) && OpenAt(defs, n, d, path)
    ensures StepOf(n, path[0]) == path[0] && Descend(n, path[0]).Some?
    ensures var next := Descend(n, path[0]).value;
            Answerable(defs, next, d) && Open(defs, next, d, path[1..]) && InEveryOutcome(defs, next, d, path[1..])
  {
    if Descend(n, path[0]).None? { RefusedIsRight(defs, n, d, path); }
    var next := Descend(n, path[0]).value;
    AnswersInside(defs, n, d, path[0]);
    forall o | Yields(defs, next, d, o) ensures HasPath(o, path[1..]) {
      var v := InsideReached(defs, n, d, path[0], o);
      assert HasPath(Value(v), path);
    }
  }

  lemma {:induction false} AnswersInside(defs: Node, n: Node, d: nat, step: Step)
    requires d <= MAX_DEPTH && ByType(n) && Answerable(defs, n, d) && Descend(n, step).Some?
    ensures Inside(n, step) == Descend(n, step) && Answerable(defs, Descend(n, step).value, d)
  {
    if step.index < 0 { assert AnswerableProp(defs, n, step.field, d); }
  }

  // ----- Tokens of a pointer -----

  /** A token reads as a field of its name, or as the index it prints. */
  ghost predicate ReadsAs(p: Step, q: Step) {
    if !p.token then q == p
    else q == FieldStep(p.field) || exists n: nat :: n <= MAX_INT && Itoa(n) == p.field && q == IndexStep(n)
  }

  ghost predicate Reads(path: seq<Step>, q: seq<Step>) {
    |q| == |path| && forall i | 0 <= i < |path| :: ReadsAs(path[i], q[i])
  }

  /** A path with tokens is located if and only if a reading of it is, and then as that reading. */
  lemma {:induction false} TokensEitherWay(defs: Node, s: Node, depth: nat, path: seq<Step>, q: seq<Step>)
    requires depth <= MAX_DEPTH
    ensures LocateFrom(defs, s, depth, path).Some? ==> Reads(path, LocateFrom(defs, s, depth, path).value.steps)
    ensures Reads(path, q) && LocateFrom(defs, s, depth, q).Some? ==>
              LocateFrom(defs, s, depth, path) == LocateFrom(defs, s, depth, q)
    decreases |path|
  {
    if path != [] && Resolve(defs, s, depth, true).Some? {
      var (n, d) := Resolve(defs, s, depth, true).value;
      var step := StepOf(n, path[0]);
      ReadStep(n, path[0]);
      if Descend(n, step).Some? {
        TokensEitherWay(defs, Descend(n, step).value, d, path[1..], if |q| > 0 then q[1..] else []);
        var rest := LocateFrom(defs, Descend(n, step).value, d, path[1..]);
        if rest.Some? { ReadsMore(path, step, rest.value.steps); }
      }
      if Reads(path, q) && Descend(n, StepOf(n, q[0])).Some? {
        OneReading(n, path[0], q[0]);
        assert Reads(path[1..], q[1..]);
      }
    }
  }

  lemma {:induction false} ReadsMore(path: seq<Step>, step: Step, rest: seq<Step>)
    requires path != [] && ReadsAs(path[0], step) && Reads(path[1..], rest)
    ensures Reads(path, [step] + rest)
  {
    forall i | 0 <= i < |path| ensures ReadsAs(path[i], ([step] + rest)[i]) {
      if i > 0 { assert ReadsAs(path[1..][i - 1], rest[i - 1]); }
    }
  }

  lemma {:induction false} ReadStep(s: Node, p: Step)
    ensures ReadsAs(p, StepOf(s, p))
  {
    if TokenIndex(p.field).Some? {
      AtoiBounded(p.field);
    }
  }

  lemma {:induction false} AtoiBounded(s: string)
    ensures Atoi(s).Some? ==> Atoi(s).value <= MAX_INT
  {
  }

  /** Of two readings of a token the schema allows one at most. */
  lemma {:induction false} OneReading(s: Node, p: Step, q: Step)
    requires ReadsAs(p, q) && Descend(s, StepOf(s, q)).Some?
    ensures StepOf(s, p) == StepOf(s, q)
  {
    if p.token {
      assert StepOf(s, q) == q;
      AllowsArray(s, q);
      if q != FieldStep(p.field) {
        var n: nat :| n <= MAX_INT && Itoa(n) == p.field && q == IndexStep(n);
        AtoiItoa(n);
      }
    }
  }

  /** A step is taken at a node that allows an array exactly where it is an index. */
  lemma {:induction false} AllowsArray(s: Node, step: Step)
    requires Descend(s, step).Some?
    ensures TypeList(s).Some? && ("array" in TypeList(s).value <==> step.index >= 0)
  {
    var want := if step.index >= 0 then "array" else "object";
    assert Always(s, want) && "array" in [want] <==> want == "array";
  }
}
