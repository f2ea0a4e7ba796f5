/** Where the plan of internal/wire/avrowire/union.go does not define a shared type once: the
    Message types that share it go by one name, so it is credited to a single one. */
module UnionSameName {
  import opened JsonValues
  import opened Sorting
  import opened AvscShapes
  import opened ShallowForms
  import opened UnionCollect
  import opened UnionMembers
  import opened UnionReach
  import opened UnionOrder
  import opened UnionGraph
  import opened UnionPlan
  import opened UnionPromises

  /** A type that is no payload itself is defined in exactly one subject if and only if Message
      types of two names define it or no two payloads hold it inline. */
  lemma {:induction false} SharedTypeDefinedOnce(members: seq<Member>, branches: seq<string>, g: Graph, plan: Plan,
                                                 x: string)
    requires g == GraphOf(members) && branches == Branches(members) && Parsed(members) && Ready(members, branches, g)
    requires IsPlan(g, branches, plan) && x in g.env && x !in branches
    ensures DefinedOnce(plan, x) <==> SharedByTwo(members, x) || !HeldByTwo(g, branches, x)
  {
    DefinedOnceExactly(members, branches, g, plan, x);
    SharedIffRegistered(members, g, branches, x);
  }

  lemma {:induction false} UsedByBoth(g: Graph, branches: seq<string>, a: string, b: string, x: string)
    requires a in branches && b in branches && a != b && UsedBy(g.env, a, x) && UsedBy(g.env, b, x)
    ensures x in g.registered || HeldByTwo(g, branches, x)
  {
    if x !in g.registered {
      UsedIsInline(g, a, x);
      UsedIsInline(g, b, x);
    }
  }

  lemma {:induction false} SharedIffRegistered(members: seq<Member>, g: Graph, branches: seq<string>, x: string)
    requires g == GraphOf(members) && branches == Branches(members) && x in g.env && x !in branches
    ensures x in g.registered <==> SharedByTwo(members, x)
  {
  }

  ghost predicate UsedBy(env: Env, name: string, x: string) { x in env && name in env && x in DefOccurs(env[name]) }

  lemma {:induction false} UsedIsInline(g: Graph, name: string, x: string)
    requires name in g.env && x in g.env && x in DefOccurs(g.env[name]) && x !in g.registered
    ensures x in Inline(g.At(name), name)
  {
    InlineIsInline(g.At(name), name);
    assert x in Need(g.At(name), DefOccurs(g.env[name]));
  }

  // ----- A concrete pair -----

  function EnumX(): Node { map["type" := Str("enum"), "name" := Str("X")] }

  function FieldX(): Node { map["name" := Str("x"), "type" := Obj(EnumX())] }

  /** A Message type named Event whose record has one field, of an enum X defined in place. */
  function Event(record: string): Member {
    Member("Event", Obj(map["type" := Str("record"), "name" := Str(record), "fields" := Arr([Obj(FieldX())])]))
  }

  function DefX(): Def { Def("", EnumX()) }

  function ShallowX(record: string): Node {
    map["type" := Str("record"), "name" := Str(record), "fields" := Arr([Obj(FieldX()["type" := Str("X")])])]
  }

  lemma {:induction false} EventNames(record: string)
    requires record == "A" || record == "B"
    ensures FullOf(Event(record).root.fields, "") == record && SpaceOf(Event(record).root.fields, "") == "" &&
            ShortName(Event(record).root.fields) == record
    ensures FullOf(EnumX(), "") == "X" && SpaceOf(EnumX(), "") == "" && ShortName(EnumX()) == "X"
  {
    NoDotNoSpace(record);
    NoDotNoSpace("X");
  }

  lemma {:induction false} EventFields()
    ensures FieldDefs([Obj(FieldX())], "") == [("X", DefX())]
    ensures ShallowFields([Obj(FieldX())], "") == [Obj(FieldX()["type" := Str("X")])]
  {
    EventNames("A");
    assert DefOf(EnumX(), "") == DefX();
    assert DefSeq(Obj(EnumX()), "") == [("X", DefX())];
    var fields := [Obj(FieldX())];
    assert fields[..0] == [] && FieldDefs([], "") == [];
  }

  lemma {:induction false} EventHolds(record: string)
    requires record == "A" || record == "B"
    ensures Held(Event(record)) == [(record, Def("", ShallowX(record))), ("X", DefX())]
    ensures BranchOf(Event(record)) == record
  {
    var m := Event(record).root.fields;
    EventNames(record);
    EventFields();
    assert m["fields"] == Arr([Obj(FieldX())]);
    assert DefOf(m, "").shallow == ShallowX(record);
  }

  lemma {:induction false} EventTidy(record: string)
    requires record == "A" || record == "B"
    ensures Tidy(Event(record).root) && FieldsOk(Event(record).root) && IsRecord(Event(record).root)
  {
    EventNames(record);
    var m := Event(record).root.fields;
    assert FieldsIn(m) == [Obj(FieldX())];
    assert Tidy(Obj(EnumX())) && FieldsOk(Obj(EnumX()));
  }

  lemma {:induction false} EventUses(record: string)
    ensures DefOccurs(Def("", ShallowX(record))) == {"X"} && DefOccurs(DefX()) == {}
  {
    var fs := FieldsIn(ShallowX(record));
    assert |fs| == 1 && FieldType(fs[0]) == Str("X");
    assert "X" in Occurs(FieldType(fs[0]));
    assert FieldsIn(EnumX()) == [];
  }

  /** Two Message types of one name, with records a and b that both define x. */
  ghost predicate Pair(members: seq<Member>, a: (string, Def), b: (string, Def), x: (string, Def)) {
    |members| == 2 && members[0].name == members[1].name && Held(members[0]) == [a, x] && Held(members[1]) == [b, x] &&
    a.0 != b.0 && a.0 != x.0 && b.0 != x.0
  }

  ghost predicate OneUse(a: (string, Def), x: (string, Def)) { DefOccurs(a.1) == {x.0} && DefOccurs(x.1) == {} }

  lemma {:induction false} PairHeld(members: seq<Member>, a: (string, Def), b: (string, Def), x: (string, Def))
    requires Pair(members, a, b, x)
    ensures AllHeld(members, 1) == [a, x] && AllHeld(members, 2) == [a, x, b, x]
    ensures Agree(map[], [a, x]) && Agree(map[], [a, x, b, x])
  {
    assert AllHeld(members, 0) == [];
    var env: Env := map[a.0 := a.1, b.0 := b.1, x.0 := x.1];
    assert Fits(env, map[], [a, x]) && Fits(env, map[], [a, x, b, x]);
  }

  lemma {:induction false} PairTypes(a: (string, Def), b: (string, Def), x: (string, Def))
    requires a.0 != b.0 && a.0 != x.0 && b.0 != x.0
    ensures TypesIn([a, x, b, x]) == map[a.0 := a.1, b.0 := b.1, x.0 := x.1]
  {
    var all := [a, x, b, x];
    assert all[..3] == [a, x, b] && [a, x, b][..2] == [a, x] && [a, x][..1] == [a] && [a][..0] == [];
    assert TypesIn([]) == map[];
    assert TypesIn([a]) == map[a.0 := a.1];
    assert TypesIn([a, x]) == map[a.0 := a.1, x.0 := x.1];
    assert TypesIn([a, x, b]) == map[a.0 := a.1, x.0 := x.1, b.0 := b.1];
  }

  lemma {:induction false} PairContained(a: (string, Def), x: (string, Def))
    requires OneUse(a, x)
    ensures SelfContained([a, x])
  {
    assert [a, x][1] in [a, x];
    assert x.0 in NamesOf([a, x]);
    forall d | d in [a, x] ensures forall y | y in DefOccurs(d.1) :: IsPrimitive(y) || y in NamesOf([a, x]) {
      assert d == a || d == x;
    }
  }

  lemma {:induction false} PairParsed(members: seq<Member>, ds: seq<(string, Def)>, es: seq<(string, Def)>)
    requires |members| == 2 && Held(members[0]) == ds && Held(members[1]) == es
    requires SelfContained(ds) && SelfContained(es) && Tidy(members[0].root) && Tidy(members[1].root)
    ensures Parsed(members)
  {
  }

  lemma {:induction false} PairComposable(members: seq<Member>, branches: seq<string>)
    requires |members| == |branches| == 2 && branches[0] != branches[1]
    requires Agree(map[], AllHeld(members, 1)) && Agree(map[], AllHeld(members, 2))
    requires FieldsOk(members[0].root) && IsRecord(members[0].root) && FieldsOk(members[1].root)
    requires IsRecord(members[1].root)
    ensures Composable(members, branches, 2)
  {
    assert branches[..0] == [] && branches[..1] == [branches[0]];
  }

  lemma {:induction false} PairShares(members: seq<Member>, x: string)
    requires |members| == 2 && members[0].name == members[1].name
    ensures !SharedByTwo(members, x)
  {
  }

  /** Where the types name nothing but x, and x is not registered, no subject refers to another. */
  lemma {:induction false} NoDeps(g: Graph, x: string, name: string)
    requires x !in g.registered && forall y | y in g.env :: DefOccurs(g.env[y]) <= {x}
    ensures Deps(g, name) == {}
  {
  }

  lemma {:induction false} NoDepsNoCycle(g: Graph, first: string)
    requires forall name :: Deps(g, name) == {}
    ensures !LeadsIntoCycle(g, first)
  {
    forall p | CyclicWalk(g, first, p) ensures false { ChainStep(g, p); }
  }

  lemma {:induction false} ChainStep(g: Graph, p: seq<string>)
    requires Chain(g, p) && |p| > 1
    ensures Deps(g, p[0]) != {}
  {
    assert p[0 + 1] in Deps(g, p[0]);
  }

  lemma {:induction false} PairGraph(members: seq<Member>, branches: seq<string>, a: (string, Def), b: (string, Def),
                                     x: (string, Def), g: Graph)
    requires Pair(members, a, b, x) && branches == Branches(members) == [a.0, b.0] && g == GraphOf(members)
    ensures g.env == map[a.0 := a.1, b.0 := b.1, x.0 := x.1] && g.registered == {a.0, b.0}
  {
    PairHeld(members, a, b, x);
    PairTypes(a, b, x);
    forall y ensures !SharedByTwo(members, y) { PairShares(members, y); }
    assert Elements(branches) == {a.0, b.0} by { assert branches[0] == a.0 && branches[1] == b.0; }
  }

  lemma {:induction false} PairPlannable(members: seq<Member>, branches: seq<string>, a: (string, Def),
                                         b: (string, Def), x: (string, Def), g: Graph)
    requires Pair(members, a, b, x) && branches == Branches(members) == [a.0, b.0] && g == GraphOf(members)
    requires OneUse(a, x) && OneUse(b, x) && a.1.ns == "" && b.1.ns == "" && x.1.ns == ""
    requires Composable(members, branches, |members|)
    ensures Plannable(members)
  {
    PairGraph(members, branches, a, b, x, g);
    PairOrders(g, a, b, x);
    PairSpaces(g, a, b, x);
    PlannableIs(members, branches, g);
  }

  lemma {:induction false} PairOrders(g: Graph, a: (string, Def), b: (string, Def), x: (string, Def))
    requires g.env == map[a.0 := a.1, b.0 := b.1, x.0 := x.1] && g.registered == {a.0, b.0}
    requires a.0 != x.0 && b.0 != x.0 && OneUse(a, x) && OneUse(b, x)
    ensures forall first :: !LeadsIntoCycle(g, first)
  {
    forall name ensures Deps(g, name) == {} { NoDeps(g, x.0, name); }
    forall first ensures !LeadsIntoCycle(g, first) { NoDepsNoCycle(g, first); }
  }

  lemma {:induction false} PlannableIs(members: seq<Member>, branches: seq<string>, g: Graph)
    requires g == GraphOf(members) && branches == Branches(members) && Composable(members, branches, |members|)
    requires AllSpaced(Whole(g)) && forall first :: !LeadsIntoCycle(g, first)
    ensures Plannable(members)
  {
  }

  lemma {:induction false} PairSpaces(g: Graph, a: (string, Def), b: (string, Def), x: (string, Def))
    requires g.env == map[a.0 := a.1, b.0 := b.1, x.0 := x.1]
    requires a.1.ns == "" && b.1.ns == "" && x.1.ns == ""
    ensures AllSpaced(Whole(g))
  {
  }

  function Events(): seq<Member> { [Event("A"), Event("B")] }

  lemma {:induction false} EventsParsed(members: seq<Member>)
    requires members == Events()
    ensures Parsed(members)
  {
    var a, b, x := ("A", Def("", ShallowX("A"))), ("B", Def("", ShallowX("B"))), ("X", DefX());
    EventHolds("A");
    EventHolds("B");
    EventTidy("A");
    EventTidy("B");
    EventUses("A");
    EventUses("B");
    PairContained(a, x);
    PairContained(b, x);
    PairParsed(members, [a, x], [b, x]);
  }

  lemma {:induction false} EventsBranches(members: seq<Member>)
    requires members == Events()
    ensures Branches(members) == ["A", "B"]
  {
    EventHolds("A");
    EventHolds("B");
  }

  lemma {:induction false} EventsPair(members: seq<Member>, a: (string, Def), b: (string, Def), x: (string, Def))
    requires members == Events()
    requires a == ("A", Def("", ShallowX("A"))) && b == ("B", Def("", ShallowX("B"))) && x == ("X", DefX())
    ensures Pair(members, a, b, x)
  {
    EventHolds("A");
    EventHolds("B");
  }

  lemma {:induction false} EventsUse(members: seq<Member>, a: (string, Def), b: (string, Def), x: (string, Def))
    requires Pair(members, a, b, x) && OneUse(a, x) && OneUse(b, x)
    ensures UsedBy(Types(members), a.0, x.0) && UsedBy(Types(members), b.0, x.0)
  {
    PairHeld(members, a, b, x);
    PairTypes(a, b, x);
  }

  /** Two Message types of one name whose payloads both use x directly do not define it once. */
  lemma {:induction false} OneNameNotOnce(members: seq<Member>, branches: seq<string>, plan: Plan, x: string)
    requires |members| == 2 && branches == Branches(members) && members[0].name == members[1].name
    requires Parsed(members) && Composable(members, branches, 2) && IsPlan(GraphOf(members), branches, plan)
    requires branches[0] != branches[1] && x !in Elements(branches)
    requires UsedBy(Types(members), branches[0], x) && UsedBy(Types(members), branches[1], x)
    ensures !DefinedOnce(plan, x)
  {
    PairShares(members, x);
    ComposableReady(members, branches);
    SharedTypeDefinedOnce(members, branches, GraphOf(members), plan, x);
    SharedIffRegistered(members, GraphOf(members), branches, x);
    UsedByBoth(GraphOf(members), branches, branches[0], branches[1], x);
  }

  lemma {:induction false} EventsCompose(members: seq<Member>, branches: seq<string>)
    requires members == Events() && branches == Branches(members)
    ensures |members| == 2 && members[0].name == members[1].name && branches == ["A", "B"]
    ensures Parsed(members) && Composable(members, branches, 2)
  {
    EventsParsed(members);
    EventsBranches(members);
    var a, b, x := ("A", Def("", ShallowX("A"))), ("B", Def("", ShallowX("B"))), ("X", DefX());
    EventsPair(members, a, b, x);
    EventTidy("A");
    EventTidy("B");
    PairHeld(members, a, b, x);
    PairComposable(members, branches);
  }

  /** Two Message types named Event whose records A and B use the enum X: planUnion plans them. */
  lemma {:induction false} EventsPlannable(members: seq<Member>, branches: seq<string>)
    requires members == Events() && branches == Branches(members) == ["A", "B"] && Composable(members, branches, 2)
    ensures Plannable(members) && UsedBy(Types(members), "A", "X") && UsedBy(Types(members), "B", "X")
  {
    var a, b, x := ("A", Def("", ShallowX("A"))), ("B", Def("", ShallowX("B"))), ("X", DefX());
    EventsPair(members, a, b, x);
    EventUses("A");
    EventUses("B");
    EventsUse(members, a, b, x);
    PairPlannable(members, branches, a, b, x, GraphOf(members));
  }

  lemma {:induction false} EventsShare(members: seq<Member>, branches: seq<string>)
    requires members == Events() && branches == Branches(members)
    ensures |members| == 2 && members[0].name == members[1].name
    ensures branches[0] != branches[1] && "X" !in Elements(branches)
    ensures Parsed(members) && Composable(members, branches, 2) && Plannable(members)
    ensures UsedBy(Types(members), branches[0], "X") && UsedBy(Types(members), branches[1], "X")
  {
    EventsCompose(members, branches);
    EventsPlannable(members, branches);
    NoBranchIsX(branches);
  }

  lemma {:induction false} NoBranchIsX(branches: seq<string>)
    requires branches == ["A", "B"]
    ensures branches[0] != branches[1] && "X" !in Elements(branches)
  {
    assert branches[0] == "A" && branches[1] == "B";
  }

  /** So planUnion plans them, and no plan of theirs defines X in exactly one subject. */
  lemma {:induction false} SameNameTwice(members: seq<Member>, plan: Plan)
    requires members == Events()
    ensures Parsed(members) && Plannable(members)
    ensures IsPlan(GraphOf(members), Branches(members), plan) ==> !DefinedOnce(plan, "X")
  {
    var branches := Branches(members);
    EventsShare(members, branches);
    if IsPlan(GraphOf(members), branches, plan) { OneNameNotOnce(members, branches, plan, "X"); }
  }
}
