/** What a plan of internal/wire/avrowire/union.go promises the registry and the codec. */
module UnionPromises {
  import opened JsonValues
  import opened Sorting
  import opened SchemaTypes
  import opened AvscShapes
  import opened ShallowForms
  import opened UnionCollect
  import opened UnionMembers
  import opened UnionReach
  import opened UnionRender
  import opened UnionRenderer
  import opened UnionScope
  import opened UnionOrder
  import opened UnionGraph
  import opened UnionPlan

  /** Each definition is made once, and is the one in env. */
  ghost predicate OnceEach(ds: seq<(string, Def)>, env: Env) {
    (forall i | 0 <= i < |ds| :: ds[i].0 in env && env[ds[i].0] == ds[i].1) &&
    forall i, j | 0 <= i < j < |ds| :: ds[i].0 != ds[j].0
  }

  /** Collecting the inline union again gives the branches and the environment it was rendered
      from; every type is defined in it once, and every other name in it is one already defined. */
  lemma {:induction false} UnionRoundTrip(members: seq<Member>, branches: seq<string>, g: Graph, plan: Plan)
    requires Ready(members, branches, g) && IsPlan(g, branches, plan)
    ensures ShallowOf(Arr(plan.union), "") == Arr(Strs(plan.branches))
    ensures FieldsOk(Arr(plan.union)) && Agree(map[], DefSeq(Arr(plan.union), ""))
    ensures TypesIn(DefSeq(Arr(plan.union), "")) == g.env && OnceEach(DefSeq(Arr(plan.union), ""), g.env)
    ensures Scoped(Arr(plan.union), "", {})
  {
    var ds := DefSeq(Arr(plan.union), "");
    ReadyGraph(members, branches, g);
    UnionFaithful(g, branches, plan.union);
    UnionDefinesAll(members, branches, g, plan.union);
    OnceAgrees(ds, g.env);
    UnionScoped(g, branches, plan.union);
  }

  lemma {:induction false} OnceAgrees(ds: seq<(string, Def)>, env: Env)
    requires OnceEach(ds, env) && NamesOf(ds) == env.Keys
    ensures Agree(map[], ds) && TypesIn(ds) == env
  {
    assert Fits(env, map[], ds);
    TypesInKeys(ds);
    TypesInAgree(ds, env);
    forall x | x in env ensures TypesIn(ds)[x] == env[x] {
      var d :| d in ds && d.0 == x;
    }
  }

  lemma {:induction false} UnionScoped(g: Graph, branches: seq<string>, union: seq<Json>)
    requires GoodGraph(g) && Elements(branches) <= g.env.Keys && |union| == |branches|
    requires RendersList(Whole(g), Strs(branches), "", union, {})
    ensures Scoped(Arr(union), "", {})
  {
    forall i | 0 <= i < |union| ensures Scoped(union[i], "", {} + NamesOf(DefSeqList(union[..i], ""))) {
      var e0 := {} + NamesOf(DefSeqList(union[..i], ""));
      assert branches[i] in Elements(branches) && Occurs(Str(branches[i])) == {branches[i]};
      RendersScoped(Whole(g), Str(branches[i]), "", union[i], e0, {});
      assert e0 + {} == e0;
    }
  }

  /** A subject's schema is the definition of its type: it defines the types inline in it, each
      once, and every other name in it is one already defined or one of its references. */
  lemma {:induction false} SubjectStandsAlone(g: Graph, s: Subject)
    requires GoodGraph(g) && IsSubject(g, s)
    ensures ShallowOf(s.schema, "") == Str(s.name) && FieldsOk(s.schema)
    ensures OnceEach(DefSeq(s.schema, ""), g.env) && NamesOf(DefSeq(s.schema, "")) == Inline(g.At(s.name), s.name)
    ensures Scoped(s.schema, "", Elements(s.references))
  {
    var cx := g.At(s.name);
    assert {} + {s.name} == {s.name};
    DefFaithful(cx, s.name, "", s.schema, {});
    SubjectDefines(g, s);
    assert {} + Elements(s.references) == Elements(s.references);
    DefinitionScoped(cx, s.name, "", s.schema, {}, Elements(s.references));
  }

  lemma {:induction false} SubjectDefines(g: Graph, s: Subject)
    requires GoodGraph(g) && IsSubject(g, s)
    ensures NamesOf(DefSeq(s.schema, "")) == Inline(g.At(s.name), s.name)
    ensures Outside(g.At(s.name), {s.name}, NamesOf(DefSeq(s.schema, ""))) == Elements(s.references) <= g.At(s.name).ext
  {
    var cx := g.At(s.name);
    assert {} + {s.name} == {s.name};
    FirstDefSeq(cx, s.name, "", s.schema, {});
    var held := FieldDefs(FieldsIn(s.schema.fields), g.env[s.name].ns);
    FirstNames(s.name, g.env[s.name], held);
    SubjectRendered(g, s.name, s.schema, NamesOf(held));
    OutsideDefinition(cx, s.name, NamesOf(held));
  }

  /** Each subject refers only to subjects registered before it. */
  lemma {:induction false} ReferencesAreEarlier(g: Graph, branches: seq<string>, plan: Plan, k: nat, x: string)
    requires IsPlan(g, branches, plan) && k < |plan.subjects| && x in plan.subjects[k].references
    ensures x in NamesIn(plan.subjects)[..k]
  {
    NamesInAt(plan.subjects);
    assert IsSubject(g, plan.subjects[k]);
    assert x in Elements(plan.subjects[k].references);
    assert x in Elements(NamesIn(plan.subjects)[..k]);
  }

  /** What the first k payloads reach is registered before anything else: a further Message type
      only adds at the end. */
  lemma {:induction false} EarlierPayloadsFirst(g: Graph, branches: seq<string>, plan: Plan, k: nat, x: string,
                                                y: string, j: set<string>)
    requires IsPlan(g, branches, plan) && k <= |branches| && x in NamesIn(plan.subjects)
    requires DepsClosed(g, j) && Elements(branches[..k]) <= j && x !in j
    requires forall c | DepsClosed(g, c) && Elements(branches[..k]) <= c :: y in c
    ensures y in NamesIn(plan.subjects) && IndexOf(NamesIn(plan.subjects), y) < IndexOf(NamesIn(plan.subjects), x)
  {
    var order := NamesIn(plan.subjects);
    var n :| 0 <= n <= |order| && Reaches(g, branches[..k], order[..n]);
    PrefixClosed(g, order, n);
    assert y in Elements(order[..n]) && x !in Elements(order[..n]);
    FoundBefore(order, n, x, y);
  }

  lemma {:induction false} PrefixClosed(g: Graph, order: seq<string>, n: nat)
    requires Ordered(g, order) && n <= |order|
    ensures DepsClosed(g, Elements(order[..n]))
  {
    forall x | x in Elements(order[..n]) ensures Deps(g, x) <= Elements(order[..n]) {
      var i :| 0 <= i < n && order[i] == x;
      assert forall z | z in order[..i] :: z in order[..n];
    }
  }

  lemma {:induction false} FoundBefore(order: seq<string>, n: nat, x: string, y: string)
    requires n <= |order| && y in order[..n] && x !in order[..n]
    ensures y in order && IndexOf(order, y) < n <= IndexOf(order, x)
  {
    var i :| 0 <= i < n && order[i] == y;
    forall j | 0 <= j < n ensures order[j] != x { assert order[..n][j] == order[j]; }
  }

  lemma {:induction false} NamesInAt(subjects: seq<Subject>)
    ensures |NamesIn(subjects)| == |subjects|
    ensures forall k | 0 <= k < |subjects| :: NamesIn(subjects)[k] == subjects[k].name
  {
    if subjects != [] { NamesInAt(subjects[..|subjects| - 1]); }
  }

  // ----- Each named type in one subject -----

  ghost predicate DefinedIn(s: Subject, x: string) { x in NamesOf(DefSeq(s.schema, "")) }

  /** Whoever defines a type defines what is inline in it. */
  lemma {:induction false} DefinersOfInline(members: seq<Member>, branches: seq<string>, g: Graph, name: string,
                                            x: string, i: nat)
    requires Parsed(members) && Ready(members, branches, g) && name in g.env && i < |members|
    requires x in Inline(g.At(name), name) && Defines(members[i], name)
    ensures Defines(members[i], x)
  {
    DefinedByOneClosed(members, branches, g, g.At(name), i);
    assert name in DefinedBy(g.env, members[i]);
  }

  ghost function DefinedBy(env: Env, m: Member): set<string> { set y | y in env.Keys && Defines(m, y) }

  lemma {:induction false} DefinedByOneClosed(members: seq<Member>, branches: seq<string>, g: Graph, cx: Cx, i: nat)
    requires Parsed(members) && Ready(members, branches, g) && cx.env == g.env && i < |members|
    ensures Closed(cx, DefinedBy(g.env, members[i]))
  {
    ReadyGraph(members, branches, g);
    var j := DefinedBy(g.env, members[i]);
    forall y, z | y in j && z in Need(cx, DefOccurs(g.env[y])) ensures z in j {
      NameReadsBack(z, g.env[z], "");
      DefinersGrow(members, g.env, i, y, z);
    }
  }

  /** Registered are the payloads and the types that Message types of two names define. */
  ghost predicate Registers(members: seq<Member>, branches: seq<string>, g: Graph) {
    forall x | x in g.env :: x in g.registered <==> x in branches || SharedByTwo(members, x)
  }

  lemma {:induction false} GraphRegisters(members: seq<Member>, branches: seq<string>, g: Graph)
    requires g == GraphOf(members) && branches == Branches(members)
    ensures Registers(members, branches, g)
  {
  }

  /** A registered type that holds an unregistered one inline is a payload: were it shared, what
      it holds would be shared too. */
  lemma {:induction false} HolderIsBranch(members: seq<Member>, branches: seq<string>, g: Graph, s: string, x: string)
    requires Registers(members, branches, g) && Parsed(members) && Ready(members, branches, g)
    requires s in g.registered && x in Inline(g.At(s), s) && x !in g.registered
    ensures s in branches
  {
    if s !in branches { InlineShared(members, branches, g, s, x); }
  }

  /** What a shared type holds inline is shared too, so registered. */
  lemma {:induction false} InlineShared(members: seq<Member>, branches: seq<string>, g: Graph, s: string, x: string)
    requires Registers(members, branches, g) && Parsed(members) && Ready(members, branches, g) && s in g.env
    requires x in Inline(g.At(s), s) && SharedByTwo(members, s)
    ensures x in g.registered
  {
    var i, j :| 0 <= i < |members| && 0 <= j < |members| && members[i].name != members[j].name &&
                Defines(members[i], s) && Defines(members[j], s);
    DefinersOfInline(members, branches, g, s, x, i);
    DefinersOfInline(members, branches, g, s, x, j);
    assert SharedByTwo(members, x);
  }

  /** Two payloads whose subjects both define x. */
  ghost predicate HeldByTwo(g: Graph, branches: seq<string>, x: string) {
    exists a, b :: a in branches && b in branches && a != b && x in Inline(g.At(a), a) && x in Inline(g.At(b), b)
  }

  /** A type is inline in two registered types only where it is unregistered and two payloads
      hold it. */
  lemma {:induction false} InlineInOne(members: seq<Member>, branches: seq<string>, g: Graph, s: string, t: string,
                                       x: string)
    requires Registers(members, branches, g) && Parsed(members) && Ready(members, branches, g)
    requires s in g.registered && t in g.registered && x in Inline(g.At(s), s) && x in Inline(g.At(t), t)
    ensures s == t || (x !in g.registered && HeldByTwo(g, branches, x))
  {
    if x in g.registered {
      RegisteredInItself(g, s, x);
      RegisteredInItself(g, t, x);
    } else {
      HolderIsBranch(members, branches, g, s, x);
      HolderIsBranch(members, branches, g, t, x);
    }
  }

  /** A registered type is inline in nothing but itself. */
  lemma {:induction false} RegisteredInItself(g: Graph, s: string, x: string)
    requires s in g.env && x in g.registered && x in Inline(g.At(s), s)
    ensures x == s
  {
    InlineStaysInside(g.At(s), s);
  }

  /** Every type is inline in some subject. */
  lemma {:induction false} InlineInSome(members: seq<Member>, branches: seq<string>, g: Graph, order: seq<string>)
    requires Ready(members, branches, g) && Ordered(g, order) && Elements(branches) <= Elements(order)
    ensures forall x | x in g.env :: exists k :: 0 <= k < |order| && x in Inline(g.At(order[k]), order[k])
  {
    InlineAllClosed(g, order);
    forall b | b in Elements(branches) ensures b in InlineAll(g, order) {
      var k :| 0 <= k < |order| && order[k] == b;
      InlineIsInline(g.At(order[k]), order[k]);
    }
    ReachesAll(members, branches, g, InlineAll(g, order));
  }

  /** The types inline in the subjects of an order. */
  ghost function InlineAll(g: Graph, order: seq<string>): set<string> {
    set k, x | 0 <= k < |order| && x in Inline(g.At(order[k]), order[k]) :: x
  }

  lemma {:induction false} InlineAllClosed(g: Graph, order: seq<string>)
    requires Ordered(g, order) && g.registered <= g.env.Keys
    ensures Closed(Whole(g), InlineAll(g, order))
  {
    forall x, y | x in InlineAll(g, order) && x in g.env && y in Need(Whole(g), DefOccurs(g.env[x]))
      ensures y in InlineAll(g, order)
    {
      var k :| 0 <= k < |order| && x in Inline(g.At(order[k]), order[k]);
      StaysOrRefers(g, order, k, x, y);
      if y in order {
        var l :| 0 <= l < |order| && order[l] == y;
        InlineIsInline(g.At(order[l]), order[l]);
      }
    }
  }

  /** What an inline type names is inline beside it, or a subject registered earlier. */
  lemma {:induction false} StaysOrRefers(g: Graph, order: seq<string>, k: nat, x: string, y: string)
    requires Ordered(g, order) && g.registered <= g.env.Keys && k < |order|
    requires x in Inline(g.At(order[k]), order[k]) && y in DefOccurs(g.env[x]) && y in g.env
    ensures y in Inline(g.At(order[k]), order[k]) || y in order
  {
    var cx := g.At(order[k]);
    InlineIsInline(cx, order[k]);
    if y in cx.ext {
      assert y in Deps(g, order[k]);
      assert y in Elements(order[..k]);
    } else {
      assert y in Need(cx, DefOccurs(cx.env[x]));
    }
  }

  /** Exactly one of the plan's subjects defines x. */
  ghost predicate DefinedOnce(plan: Plan, x: string) {
    (exists k :: 0 <= k < |plan.subjects| && DefinedIn(plan.subjects[k], x)) &&
    forall k, l | 0 <= k < l < |plan.subjects| :: !(DefinedIn(plan.subjects[k], x) && DefinedIn(plan.subjects[l], x))
  }

  lemma {:induction false} InlinePerSubject(g: Graph, subjects: seq<Subject>, x: string)
    requires GoodGraph(g) && AreSubjects(g, subjects)
    ensures var order := NamesIn(subjects);
            forall k | 0 <= k < |order| :: DefinedIn(subjects[k], x) <==> x in Inline(g.At(order[k]), order[k])
  {
    NamesInAt(subjects);
    forall k | 0 <= k < |subjects|
      ensures DefinedIn(subjects[k], x) <==> x in Inline(g.At(NamesIn(subjects)[k]), NamesIn(subjects)[k])
    {
      SubjectDefines(g, subjects[k]);
    }
  }

  ghost predicate InlineOnce(g: Graph, order: seq<string>, x: string) {
    (exists k :: 0 <= k < |order| && x in Inline(g.At(order[k]), order[k])) &&
    forall k, l | 0 <= k < l < |order| ::
      !(x in Inline(g.At(order[k]), order[k]) && x in Inline(g.At(order[l]), order[l]))
  }

  lemma {:induction false} OnceInline(g: Graph, plan: Plan, x: string)
    requires GoodGraph(g) && AreSubjects(g, plan.subjects)
    ensures DefinedOnce(plan, x) <==> InlineOnce(g, NamesIn(plan.subjects), x)
  {
    InlinePerSubject(g, plan.subjects, x);
  }

  lemma {:induction false} HeldByTwoTwice(g: Graph, branches: seq<string>, order: seq<string>, x: string)
    requires Elements(branches) <= Elements(order) && HeldByTwo(g, branches, x)
    ensures !InlineOnce(g, order, x)
  {
    var a, b :| a in branches && b in branches && a != b && x in Inline(g.At(a), a) && x in Inline(g.At(b), b);
    assert a in Elements(branches) && b in Elements(branches);
    var k :| 0 <= k < |order| && order[k] == a;
    var l :| 0 <= l < |order| && order[l] == b;
  }

  /** No two registered types of an order hold x inline. */
  lemma {:induction false} AtMostOnce(members: seq<Member>, branches: seq<string>, g: Graph, order: seq<string>,
                                      x: string)
    requires Registers(members, branches, g) && Parsed(members) && Ready(members, branches, g)
    requires Distinct(order) && Elements(order) <= g.registered
    requires x in g.registered || !HeldByTwo(g, branches, x)
    ensures forall k, l | 0 <= k < l < |order| ::
              !(x in Inline(g.At(order[k]), order[k]) && x in Inline(g.At(order[l]), order[l]))
  {
    forall k, l | 0 <= k < l < |order| && x in Inline(g.At(order[k]), order[k]) && x in Inline(g.At(order[l]), order[l])
      ensures false
    {
      assert order[k] in Elements(order) && order[l] in Elements(order);
      InlineInOne(members, branches, g, order[k], order[l], x);
    }
  }

  /** Every named type is defined in exactly one of the plan's subjects, but for an unregistered
      one that two payloads hold. */
  lemma {:induction false} DefinedOnceExactly(members: seq<Member>, branches: seq<string>, g: Graph, plan: Plan,
                                              x: string)
    requires g == GraphOf(members) && branches == Branches(members) && Parsed(members) && Ready(members, branches, g)
    requires IsPlan(g, branches, plan) && x in g.env
    ensures DefinedOnce(plan, x) <==> x in g.registered || !HeldByTwo(g, branches, x)
  {
    var order := NamesIn(plan.subjects);
    ReadyGraph(members, branches, g);
    GraphRegisters(members, branches, g);
    OnceInline(g, plan, x);
    if x in g.registered || !HeldByTwo(g, branches, x) {
      AtMostOnce(members, branches, g, order, x);
      InlineInSome(members, branches, g, order);
    } else {
      HeldByTwoTwice(g, branches, order, x);
    }
  }

  /** When the Message types have names of their own, no unregistered type is held by two. */
  lemma {:induction false} NamedApart(members: seq<Member>, branches: seq<string>, g: Graph, x: string)
    requires Registers(members, branches, g) && Parsed(members) && Ready(members, branches, g)
    requires x in g.env && forall a, b | 0 <= a < b < |members| :: members[a].name != members[b].name
    ensures x in g.registered || !HeldByTwo(g, branches, x)
  {
    if HeldByTwo(g, branches, x) {
      var a, b :| a in branches && b in branches && a != b && x in Inline(g.At(a), a) && x in Inline(g.At(b), b);
      var i := PayloadDefines(members, branches, g, a, x);
      var j := PayloadDefines(members, branches, g, b, x);
      assert members[i].name != members[j].name;
      assert SharedByTwo(members, x);
    }
  }

  lemma {:induction false} PayloadDefines(members: seq<Member>, branches: seq<string>, g: Graph, b: string, x: string)
    returns (i: nat)
    requires Parsed(members) && Ready(members, branches, g) && b in branches && x in Inline(g.At(b), b)
    ensures i < |members| && i < |branches| && branches[i] == b && Defines(members[i], x)
  {
    i :| i < |branches| && branches[i] == b;
    BranchIsDefined(members[i]);
    assert b in Elements(branches);
    DefinersOfInline(members, branches, g, b, x, i);
  }

  /** So every named type is then defined in exactly one of the plan's subjects. */
  lemma {:induction false} DefinedInExactlyOne(members: seq<Member>, branches: seq<string>, g: Graph, plan: Plan,
                                               x: string)
    requires g == GraphOf(members) && branches == Branches(members) && Parsed(members) && Ready(members, branches, g)
    requires IsPlan(g, branches, plan) && x in g.env
    requires forall a, b | 0 <= a < b < |members| :: members[a].name != members[b].name
    ensures DefinedOnce(plan, x)
  {
    GraphRegisters(members, branches, g);
    NamedApart(members, branches, g, x);
    DefinedOnceExactly(members, branches, g, plan, x);
  }
}
