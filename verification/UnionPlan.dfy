/** planUnion (internal/wire/avrowire/union.go): the plan by which the Message types of one
    topic register and encode. */
module UnionPlan {
  import opened JsonValues
  import opened Sorting
  import opened AvscShapes
  import opened SchemaTypes
  import opened ShallowForms
  import opened UnionCollect
  import opened UnionMembers
  import opened UnionReach
  import opened UnionRender
  import opened UnionRenderer
  import opened UnionOrder
  import opened UnionGraph

  datatype Subject = Subject(name: string, schema: Json, references: seq<string>)

  datatype Plan = Plan(branches: seq<string>, subjects: seq<Subject>, value: Json, union: seq<Json>)

  function NamesIn(subjects: seq<Subject>): (names: seq<string>)
    ensures |names| == |subjects|
  {
    if subjects == [] then [] else NamesIn(subjects[..|subjects| - 1]) + [subjects[|subjects| - 1].name]
  }

  lemma {:induction false} NamesInMore(subjects: seq<Subject>, s: Subject)
    ensures NamesIn(subjects + [s]) == NamesIn(subjects) + [s.name]
  {
    assert (subjects + [s])[..|subjects|] == subjects;
  }

  /** The view of the inline union: nothing is registered elsewhere. */
  ghost function Whole(g: Graph): Cx { Cx(g.env, {}) }

  ghost predicate GoodGraph(g: Graph) { GoodEnv(g.env) && NameClosed(g.env) && g.registered <= g.env.Keys }

  /** s renders the type of its name, and refers to the registered types it depends on. */
  ghost predicate IsSubject(g: Graph, s: Subject) {
    s.name in g.registered && s.name in g.env && RendersDef(g.At(s.name), s.name, s.schema, {s.name}) &&
    Distinct(s.references) && Elements(s.references) == Deps(g, s.name)
  }

  ghost predicate AreSubjects(g: Graph, subjects: seq<Subject>) {
    forall i | 0 <= i < |subjects| :: IsSubject(g, subjects[i])
  }

  lemma {:induction false} AreSubjectsMore(g: Graph, subjects: seq<Subject>, s: Subject)
    requires AreSubjects(g, subjects) && IsSubject(g, s)
    ensures AreSubjects(g, subjects + [s])
  {
    forall i | 0 <= i < |subjects| + 1 ensures IsSubject(g, (subjects + [s])[i]) {
      if i < |subjects| { assert IsSubject(g, subjects[i]); }
    }
  }

  ghost predicate IsPlan(g: Graph, branches: seq<string>, plan: Plan) {
    plan.branches == branches && plan.value == Arr(Strs(branches)) &&
    AreSubjects(g, plan.subjects) && Ordered(g, NamesIn(plan.subjects)) &&
    Elements(branches) <= Elements(NamesIn(plan.subjects)) &&
    LeastOrder(g, [], Elements(branches), NamesIn(plan.subjects)) &&
    InBranchOrder(g, branches, NamesIn(plan.subjects)) &&
    |plan.union| == |branches| && RendersList(Whole(g), Strs(branches), "", plan.union, {})
  }

  /** What a subject's rendering names and defines is what its type depends on and holds inline. */
  lemma {:induction false} SubjectRendered(g: Graph, name: string, schema: Json, names: set<string>)
    requires GoodGraph(g) && name in g.registered && RendersDef(g.At(name), name, schema, {name})
    requires names == NamesOf(FieldDefs(FieldsIn(schema.fields), g.env[name].ns))
    ensures {name} + names == Inline(g.At(name), name)
    ensures Outside(g.At(name), DefOccurs(g.env[name]), names) == Deps(g, name)
  {
    var cx := g.At(name);
    assert {} + {name} == {name};
    DefFaithful(cx, name, "", schema, {});
    var held := HeldIn(schema.fields, g.env[name].ns);
    assert held == FieldDefs(FieldsIn(schema.fields), g.env[name].ns);
    SoundIsInline(cx, name, held);
    OutsideDefinition(cx, name, names);
    OutsideMore(cx, name, names);
  }

  lemma {:induction false} SoundIsInline(cx: Cx, name: string, held: seq<(string, Def)>)
    requires name in cx.env && name !in cx.ext
    requires Sound(cx, held, DefOccurs(cx.env[name]), cx.env[name].ns, {name})
    ensures {name} + NamesOf(held) == Inline(cx, name)
  {
    var names := {name} + NamesOf(held);
    forall x | x in names ensures x in cx.env && Need(cx, DefOccurs(cx.env[x])) <= names {
      if x != name { assert Served(cx, x, names); }
    }
    forall j | Closed(cx, j) && name in j ensures names <= j {}
    InlineUnique(cx, name, names);
  }

  lemma {:induction false} OutsideMore(cx: Cx, name: string, names: set<string>)
    requires name in cx.env && name !in cx.ext
    ensures Outside(cx, {}, {name} + names) == Outside(cx, {name}, {name} + names)
  {
  }

  method RenderSubject(g: Graph, name: string) returns (s: Option<Subject>)
    requires GoodGraph(g) && name in g.registered
    ensures AllSpaced(Whole(g)) ==> s.Some?
    ensures s.Some? ==> s.value.name == name && IsSubject(g, s.value)
  {
    var r := new Renderer(g.env, g.registered, name, {name});
    assert r.Context() == g.At(name);
    var schema := r.Definition(name);
    if schema.None? { return None; }
    SubjectRendered(g, name, schema.value, NamesOf(FieldDefs(FieldsIn(schema.value.fields), g.env[name].ns)));
    s := Some(Subject(name, schema.value, r.refs));
  }

  /** The loop of planUnion that renders the subjects. */
  method RenderSubjects(g: Graph, order: seq<string>) returns (subjects: Option<seq<Subject>>)
    requires GoodGraph(g) && Ordered(g, order)
    ensures AllSpaced(Whole(g)) ==> subjects.Some?
    ensures subjects.Some? ==> NamesIn(subjects.value) == order && AreSubjects(g, subjects.value)
  {
    var out: seq<Subject> := [];
    while |out| < |order|
      invariant Rendered(g, order, out)
      decreases |order| - |out|
    {
      var s := RenderSubject(g, order[|out|]);
      if s.None? { return None; }
      OneMoreRendered(g, order, out, s.value);
      out := out + [s.value];
    }
    assert order[..|out|] == order;
    subjects := Some(out);
  }

  /** The first subjects of an order. */
  ghost predicate Rendered(g: Graph, order: seq<string>, out: seq<Subject>) {
    |out| <= |order| && NamesIn(out) == order[..|out|] && AreSubjects(g, out)
  }

  lemma {:induction false} OneMoreRendered(g: Graph, order: seq<string>, out: seq<Subject>, s: Subject)
    requires Rendered(g, order, out) && |out| < |order| && s.name == order[|out|] && IsSubject(g, s)
    ensures Rendered(g, order, out + [s])
  {
    NamesInMore(out, s);
    AreSubjectsMore(g, out, s);
    TakeOneMore(order, |out|);
  }

  /** The loop of planUnion that renders the inline union. */
  method RenderUnion(g: Graph, branches: seq<string>) returns (union: Option<seq<Json>>)
    requires GoodGraph(g) && Elements(branches) <= g.env.Keys
    ensures AllSpaced(Whole(g)) ==> union.Some?
    ensures union.Some? ==> |union.value| == |branches| && RendersList(Whole(g), Strs(branches), "", union.value, {})
  {
    var r := new Renderer(g.env, {}, "", {});
    assert r.Context() == Whole(g);
    var shs := Strs(branches);
    var out: seq<Json> := [];
    while |out| < |branches|
      invariant |out| <= |branches| && RendersList(Whole(g), shs, "", out, {})
      invariant r.emitted == NamesOf(DefSeqList(out, ""))
      decreases |branches| - |out|
    {
      var b := branches[|out|];
      assert b in Elements(branches);
      NameReadsBack(b, g.env[b], "");
      var s := r.Ref(b, "");
      if s.None? { return None; }
      assert {} + NamesOf(DefSeqList(out, "")) == NamesOf(DefSeqList(out, ""));
      RendersListMore(Whole(g), shs, "", out, s.value, {});
      out := out + [s.value];
    }
    union := Some(out);
  }

  // ----- Where planUnion succeeds -----

  /** The Message types make a union, no branch's references lead into a cycle, and no type
      without a namespace is named from inside one. */
  ghost predicate Plannable(members: seq<Member>) {
    Composable(members, Branches(members), |members|) &&
    (forall b | b in Branches(members) :: !LeadsIntoCycle(GraphOf(members), b)) &&
    AllSpaced(Whole(GraphOf(members)))
  }

  lemma {:induction false} BranchIsDefined(m: Member)
    requires IsRecord(m.root)
    ensures Defines(m, BranchOf(m)) && ShallowOf(m.root, "") == Str(BranchOf(m))
  {
    assert Held(m)[0] in Held(m) && Held(m)[0].0 == BranchOf(m);
  }

  /** What the Message types, their branches and their graph have in common, once they make a union. */
  ghost predicate Ready(members: seq<Member>, branches: seq<string>, g: Graph) {
    (forall i | 0 <= i < |members| :: Sane(members[i])) && Holds(members, g.env) &&
    |branches| == |members| && (forall i | 0 <= i < |members| :: branches[i] == BranchOf(members[i])) &&
    Elements(branches) <= g.registered <= g.env.Keys
  }

  lemma {:induction false} ComposableReady(members: seq<Member>, branches: seq<string>)
    requires Parsed(members) && branches == Branches(members) && Composable(members, branches, |members|)
    ensures Ready(members, branches, GraphOf(members))
  {
    AgreeAtEnd(members, branches);
    EnvironmentHolds(members);
    forall i | 0 <= i < |members| ensures Sane(members[i]) { ComposableSane(members, branches, i); }
    BranchesHeld(members, branches, Types(members));
  }

  lemma {:induction false} BranchesHeld(members: seq<Member>, branches: seq<string>, env: Env)
    requires Holds(members, env) && |branches| == |members|
    requires forall i | 0 <= i < |members| :: branches[i] == BranchOf(members[i]) && Sane(members[i])
    ensures Elements(branches) <= env.Keys
  {
    forall i | 0 <= i < |members| ensures branches[i] in env {
      BranchIsDefined(members[i]);
      var d :| d in Held(members[i]) && d.0 == branches[i];
    }
  }

  lemma {:induction false} ReadyGraph(members: seq<Member>, branches: seq<string>, g: Graph)
    requires Ready(members, branches, g)
    ensures GoodGraph(g)
  {
    EnvironmentFits(members, g.env);
  }

  /** A closed set with every branch in it has every type. */
  lemma {:induction false} ReachesAll(members: seq<Member>, branches: seq<string>, g: Graph, j: set<string>)
    requires Ready(members, branches, g) && Closed(Whole(g), j) && Elements(branches) <= j
    ensures g.env.Keys <= j
  {
    forall i | 0 <= i < |members| ensures NamesOf(Held(members[i])) <= j {
      assert branches[i] in Elements(branches);
      MemberReached(members[i], g, j);
    }
    forall x | x in g.env ensures x in j {
      var i :| 0 <= i < |members| && Defines(members[i], x);
    }
  }

  lemma {:induction false} MemberReached(m: Member, g: Graph, j: set<string>)
    requires Sane(m) && BranchOf(m) in j && Closed(Whole(g), j)
    requires forall d | d in Held(m) :: d.0 in g.env && g.env[d.0] == d.1
    ensures NamesOf(Held(m)) <= j
  {
    var keys := g.env.Keys;
    BranchIsDefined(m);
    forall d | d in Held(m) ensures d.0 in keys && (d.0 in j ==> DefOccurs(d.1) * keys <= j) {
      assert Need(Whole(g), DefOccurs(d.1)) == DefOccurs(d.1) * keys;
    }
    AllReached(m.root, "", keys, j);
  }

  // ----- The inline union -----

  /** The rendered union reads back as the branches. */
  lemma {:induction false} UnionFaithful(g: Graph, branches: seq<string>, union: seq<Json>)
    requires GoodGraph(g) && Elements(branches) <= g.env.Keys && |union| == |branches|
    requires RendersList(Whole(g), Strs(branches), "", union, {})
    ensures Faithful(Whole(g), Arr(Strs(branches)), "", Arr(union), {})
    ensures Occurs(Arr(Strs(branches))) == Elements(branches)
  {
    var cx, shs := Whole(g), Strs(branches);
    forall i | 0 <= i < |branches|
      ensures Faithful(cx, shs[i], "", union[i], {} + NamesOf(DefSeqList(union[..i], "")))
    {
      assert branches[i] in Elements(branches) && Occurs(Str(branches[i])) == {branches[i]};
      RendersFaithfully(cx, shs[i], "", union[i], {} + NamesOf(DefSeqList(union[..i], "")));
    }
    ListFaithful(cx, shs, "", union, {});
    StrsOccur(branches);
  }

  lemma {:induction false} StrsOccur(branches: seq<string>)
    ensures Occurs(Arr(Strs(branches))) == Elements(branches)
  {
    var l := Strs(branches);
    forall x | x in Elements(branches) ensures x in Occurs(Arr(l)) {
      var i :| 0 <= i < |branches| && branches[i] == x;
      assert x in Occurs(l[i]);
    }
  }

  /** Every type is defined in the inline union, and every name in it is allowed its place. */
  lemma {:induction false} UnionDefinesAll(members: seq<Member>, branches: seq<string>, g: Graph, union: seq<Json>)
    requires Ready(members, branches, g) && |union| == |branches|
    requires RendersList(Whole(g), Strs(branches), "", union, {})
    ensures NamesOf(DefSeqList(union, "")) == g.env.Keys
    ensures AllSpaced(Whole(g))
  {
    UnionSound(members, branches, g, union);
    SoundCovers(Whole(g), DefSeqList(union, ""), Elements(branches));
    ReachesAll(members, branches, g, NamesOf(DefSeqList(union, "")));
  }

  lemma {:induction false} UnionSound(members: seq<Member>, branches: seq<string>, g: Graph, union: seq<Json>)
    requires Ready(members, branches, g) && |union| == |branches|
    requires RendersList(Whole(g), Strs(branches), "", union, {})
    ensures Sound(Whole(g), DefSeqList(union, ""), Elements(branches), "", {})
  {
    ReadyGraph(members, branches, g);
    UnionFaithful(g, branches, union);
  }

  lemma {:induction false} SoundCovers(cx: Cx, ds: seq<(string, Def)>, occ: set<string>)
    requires Sound(cx, ds, occ, "", {}) && cx.ext == {} && occ <= cx.env.Keys
    ensures Closed(cx, NamesOf(ds)) && occ <= NamesOf(ds) <= cx.env.Keys
    ensures forall x | x in NamesOf(ds) :: Spaced(cx, DefOccurs(cx.env[x]), cx.env[x].ns)
  {
    assert {} + NamesOf(ds) == NamesOf(ds);
    assert Need(cx, occ) == occ;
    forall x | x in NamesOf(ds) ensures x in cx.env && Served(cx, x, NamesOf(ds)) {}
  }

  // ----- planUnion -----

  /** planUnion: it succeeds exactly when the Message types are plannable. */
  method PlanUnion(members: seq<Member>) returns (plan: Option<Plan>)
    requires Parsed(members)
    ensures plan.Some? <==> Plannable(members)
    ensures plan.Some? ==> IsPlan(GraphOf(members), Branches(members), plan.value)
  {
    var branches, defs := Collect(members);
    if branches.None? { return None; }
    var g := GraphCollected(members, branches.value, defs);
    plan := PlanGraph(members, g, branches.value);
  }

  method GraphCollected(members: seq<Member>, branches: seq<string>, defs: map<string, Entry>) returns (g: Graph)
    requires Parsed(members) && branches == Branches(members) && Composable(members, branches, |members|)
    requires Collected(members, |members|, defs)
    ensures g == GraphOf(members) && Ready(members, branches, g)
  {
    var shared := set x | x in defs && |defs[x].definedBy| > 1;
    g := Graph(map x | x in defs :: defs[x].def, Elements(branches) + shared);
    AgreeAtEnd(members, branches);
    SharedIsRegistered(members, branches, defs, shared);
    ComposableReady(members, branches);
  }

  lemma {:induction false} SharedIsRegistered(members: seq<Member>, branches: seq<string>, defs: map<string, Entry>,
                                              shared: set<string>)
    requires branches == Branches(members) && Collected(members, |members|, defs)
    requires Agree(map[], AllHeld(members, |members|))
    requires shared == set x | x in defs && |defs[x].definedBy| > 1
    ensures (map x | x in defs :: defs[x].def) == Types(members)
    ensures Elements(branches) + shared == Registered(members)
  {
    CollectedTypes(members, defs);
    assert (map x | x in defs :: defs[x].def).Keys == defs.Keys;
    assert shared == set x | x in Types(members).Keys && SharedByTwo(members, x);
  }

  method PlanGraph(members: seq<Member>, g: Graph, branches: seq<string>) returns (plan: Option<Plan>)
    requires Ready(members, branches, g)
    ensures plan.Some? <==> (forall b | b in branches :: !LeadsIntoCycle(g, b)) && AllSpaced(Whole(g))
    ensures plan.Some? ==> IsPlan(g, branches, plan.value)
  {
    ReadyGraph(members, branches, g);
    var order := Order(g, branches);
    if order.None? { return None; }
    var subjects := RenderSubjects(g, order.value);
    if subjects.None? { return None; }
    var union := RenderUnion(g, branches);
    if union.None? { return None; }
    UnionDefinesAll(members, branches, g, union.value);
    plan := Some(Plan(branches, subjects.value, Arr(Strs(branches)), union.value));
  }

  lemma {:induction false} AgreeAtEnd(members: seq<Member>, branches: seq<string>)
    requires |branches| == |members| && Composable(members, branches, |members|)
    ensures Agree(map[], AllHeld(members, |members|))
  {
    AgreeNone(map[]);
    if |members| > 0 { assert Joins(members, branches, |members| - 1); }
  }
}
