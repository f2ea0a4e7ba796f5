/** What the plan of internal/wire/avrowire/union.go keeps of the payloads: each definition with its
    attributes, its fields in order with theirs, and in each place of a type the same type. */
module UnionMeaning {
  import opened JsonValues
  import opened Sorting
  import opened AvscShapes
  import opened UnionCollect
  import opened UnionMembers
  import opened UnionReach
  import opened UnionRender
  import opened UnionRenderer
  import opened UnionOrder
  import opened UnionGraph
  import opened UnionPlan
  import opened UnionPromises

  // ----- The same type, the same definition -----

  /** The name a node gives its type by: a reference, or a definition in its place. */
  function NameIn(node: Json, ns: string): Option<string> {
    match node
    case Str(s) => Some(Qualify(s, ns))
    case Obj(m) => if IsNamed(m) then Some(FullOf(m, ns)) else None
    case _ => None
  }

  /** A node that only holds another under "type" stands for it. */
  predicate OnlyWraps(node: Json) {
    node.Obj? && !IsNamed(node.fields) && ContainerKey(node.fields).None? && Wraps(node.fields)
  }

  function Inner(node: Json): Json
    decreases node
  {
    if OnlyWraps(node) then Inner(node.fields["type"]) else node
  }

  ghost predicate SameBut(m: Node, n: Node, keys: set<string>) {
    forall k | k !in keys :: (k in m <==> k in n) && (k in m ==> m[k] == n[k])
  }

  /** The nodes a and b, each read in its namespace, are of one type. */
  ghost predicate SameType(a: Json, ans: string, b: Json, bns: string)
    decreases a
  {
    if OnlyWraps(a) then SameType(a.fields["type"], ans, b, bns)
    else
      var i := Inner(b);
      if NameIn(a, ans).Some? || NameIn(i, bns).Some? then NameIn(a, ans) == NameIn(i, bns)
      else if a.Arr? && i.Arr? then
        |a.items| == |i.items| && forall j | 0 <= j < |a.items| :: SameType(a.items[j], ans, i.items[j], bns)
      else if a.Obj? && i.Obj? && ContainerKey(a.fields).Some? && ContainerKey(a.fields) == ContainerKey(i.fields) then
        var k := ContainerKey(a.fields).value;
        SameBut(a.fields, i.fields, {k}) &&
        if k in a.fields then SameType(a.fields[k], ans, Get(i.fields, k), bns) else Inner(Get(i.fields, k)) == Null
      else a == i
  }

  /** Two fields of one name, type, default and every other attribute. */
  ghost predicate SameField(f: Json, fns: string, g: Json, gns: string) {
    if f.Obj? && g.Obj? then
      SameBut(f.fields, g.fields, {"type"}) && SameType(Get(f.fields, "type"), fns, Get(g.fields, "type"), gns)
    else f == g
  }

  /** Two definitions of one type: of one name in one namespace, their fields the same in one order,
      and every other attribute equal. */
  ghost predicate SameDefinition(m: Node, mns: string, n: Node, nns: string) {
    && ShortName(m) == ShortName(n) && SpaceOf(m, mns) == SpaceOf(n, nns)
    && SameBut(m, n, {"name", "namespace", "fields"}) && SameFields(m, n, SpaceOf(m, mns))
  }

  ghost predicate SameFields(m: Node, n: Node, ns: string) {
    if ListAt(m, "fields").Some? && ListAt(n, "fields").Some? then
      |FieldsIn(m)| == |FieldsIn(n)| &&
      forall i | 0 <= i < |FieldsIn(m)| :: SameField(FieldsIn(m)[i], ns, FieldsIn(n)[i], ns)
    else SameBut(m, n, {"name", "namespace"})
  }

  lemma {:induction false} InnerShallow(node: Json, ns: string)
    ensures ShallowOf(Inner(node), ns) == ShallowOf(node, ns) && !OnlyWraps(Inner(node))
    decreases node
  {
    if OnlyWraps(node) { InnerShallow(node.fields["type"], ns); }
  }

  predicate IsContainer(node: Json) { node.Obj? && !IsNamed(node.fields) && ContainerKey(node.fields).Some? }

  /** A shallow form is of its node's kind, a name's aside. */
  lemma {:induction false} ShallowKind(node: Json, ns: string)
    requires !OnlyWraps(node)
    ensures NameIn(node, ns).Some? ==> ShallowOf(node, ns) == Str(NameIn(node, ns).value)
    ensures node.Arr? ==> ShallowOf(node, ns).Arr?
    ensures IsContainer(node) ==> IsContainer(ShallowOf(node, ns))
    ensures IsContainer(node) ==> ContainerKey(ShallowOf(node, ns).fields) == ContainerKey(node.fields)
    ensures NameIn(node, ns).None? && !node.Arr? && !IsContainer(node) ==> ShallowOf(node, ns) == node
  {
  }

  lemma {:induction false} ContainersExactly(m: Node, mns: string, n: Node, nns: string, k: string)
    requires IsContainer(Obj(m)) && IsContainer(Obj(n)) && ContainerKey(m) == ContainerKey(n) == Some(k)
    requires k in m ==> (ShallowOf(m[k], mns) == ShallowOf(Get(n, k), nns) <==> SameType(m[k], mns, Get(n, k), nns))
    ensures ShallowOf(Obj(m), mns) == ShallowOf(Obj(n), nns) <==> SameType(Obj(m), mns, Obj(n), nns)
  {
    var x, y := if k in m then ShallowOf(m[k], mns) else Null, ShallowOf(Get(n, k), nns);
    OneKeyApart(m, n, k, x, y);
    InnerShallow(Get(n, k), nns);
    ShallowKind(Inner(Get(n, k)), nns);
    assert Inner(Obj(n)) == Obj(n);
  }

  lemma {:induction false} OneKeyApart(m: Node, n: Node, k: string, x: Json, y: Json)
    ensures m[k := x] == n[k := y] <==> SameBut(m, n, {k}) && x == y
  {
    var a, b := m[k := x], n[k := y];
    if a == b {
      assert a[k] == x && b[k] == y;
      forall j | j != k ensures (j in m <==> j in n) && (j in m ==> m[j] == n[j]) {
        assert (j in m <==> j in a) && (j in n <==> j in b);
      }
    }
  }

  /** The shallow forms are one exactly where the types are. */
  lemma {:induction false} ShallowExactly(a: Json, ans: string, b: Json, bns: string)
    ensures ShallowOf(a, ans) == ShallowOf(b, bns) <==> SameType(a, ans, b, bns)
    decreases a
  {
    if OnlyWraps(a) {
      ShallowExactly(a.fields["type"], ans, b, bns);
    } else {
      var i := Inner(b);
      InnerShallow(b, bns);
      if a.Arr? && i.Arr? {
        forall j | 0 <= j < |a.items| && j < |i.items|
          ensures ShallowOf(a.items[j], ans) == ShallowOf(i.items[j], bns) <==>
                    SameType(a.items[j], ans, i.items[j], bns)
        {
          ShallowExactly(a.items[j], ans, i.items[j], bns);
        }
        ListsExactly(a.items, ans, i.items, bns);
      } else if IsContainer(a) && IsContainer(i) && ContainerKey(a.fields) == ContainerKey(i.fields) {
        var k := ContainerKey(a.fields).value;
        if k in a.fields { ShallowExactly(a.fields[k], ans, Get(i.fields, k), bns); }
        ContainersExactly(a.fields, ans, i.fields, bns, k);
      } else {
        ShallowKind(a, ans);
        ShallowKind(i, bns);
      }
    }
  }

  lemma {:induction false} ListsExactly(a: seq<Json>, ans: string, b: seq<Json>, bns: string)
    requires forall j | 0 <= j < |a| && j < |b| ::
               ShallowOf(a[j], ans) == ShallowOf(b[j], bns) <==> SameType(a[j], ans, b[j], bns)
    ensures ShallowOf(Arr(a), ans) == ShallowOf(Arr(b), bns) <==>
              |a| == |b| && forall j | 0 <= j < |a| :: SameType(a[j], ans, b[j], bns)
  {
    var x, y := ShallowOf(Arr(a), ans).items, ShallowOf(Arr(b), bns).items;
    if x == y {
      assert |a| == |x| == |y| == |b|;
      forall j | 0 <= j < |a| ensures SameType(a[j], ans, b[j], bns) { assert x[j] == y[j]; }
    }
  }

  lemma {:induction false} FieldExactly(f: Json, fns: string, g: Json, gns: string)
    ensures ShallowField(f, fns) == ShallowField(g, gns) <==> SameField(f, fns, g, gns)
  {
    if f.Obj? && g.Obj? {
      var a, b := Get(f.fields, "type"), Get(g.fields, "type");
      ShallowExactly(a, fns, b, gns);
      OneKeyApart(f.fields, g.fields, "type", ShallowOf(a, fns), ShallowOf(b, gns));
    }
  }

  lemma {:induction false} FieldsExactly(fs: seq<Json>, gs: seq<Json>, ns: string)
    ensures ShallowFields(fs, ns) == ShallowFields(gs, ns) <==>
              |fs| == |gs| && forall i | 0 <= i < |fs| :: SameField(fs[i], ns, gs[i], ns)
  {
    var x, y := ShallowFields(fs, ns), ShallowFields(gs, ns);
    forall i | 0 <= i < |fs| && i < |gs| ensures x[i] == y[i] <==> SameField(fs[i], ns, gs[i], ns) {
      FieldExactly(fs[i], ns, gs[i], ns);
    }
    if x == y {
      assert |fs| == |x| == |y| == |gs|;
      forall i | 0 <= i < |fs| ensures SameField(fs[i], ns, gs[i], ns) { assert x[i] == y[i]; }
    }
  }

  /** What is stored of two definitions is one exactly where they are. */
  lemma {:induction false} StoredExactly(m: Node, mns: string, n: Node, nns: string)
    ensures DefOf(m, mns) == DefOf(n, nns) <==> SameDefinition(m, mns, n, nns)
  {
    if DefOf(m, mns) == DefOf(n, nns) { StoredAlike(m, mns, n, nns); }
    if SameDefinition(m, mns, n, nns) { AlikeStored(m, mns, n, nns); }
  }

  lemma {:induction false} AlikeStored(m: Node, mns: string, n: Node, nns: string)
    requires SameDefinition(m, mns, n, nns)
    ensures DefOf(m, mns) == DefOf(n, nns)
  {
    FieldsExactly(FieldsIn(m), FieldsIn(n), SpaceOf(m, mns));
    var a, b := DefOf(m, mns).shallow, DefOf(n, nns).shallow;
    forall k ensures (k in a <==> k in b) && (k in a ==> a[k] == b[k]) {
      StoredAt(m, mns, k);
      StoredAt(n, nns, k);
    }
    assert a == b;
  }

  lemma {:induction false} StoredAlike(m: Node, mns: string, n: Node, nns: string)
    requires DefOf(m, mns) == DefOf(n, nns)
    ensures SameDefinition(m, mns, n, nns)
  {
    FieldsExactly(FieldsIn(m), FieldsIn(n), SpaceOf(m, mns));
    StoredAt(m, mns, "name");
    StoredAt(n, nns, "name");
    StoredAt(m, mns, "fields");
    StoredAt(n, nns, "fields");
    forall k | k != "name" && k != "namespace" && k != "fields"
      ensures (k in m <==> k in n) && (k in m ==> m[k] == n[k])
    {
      StoredAt(m, mns, k);
      StoredAt(n, nns, k);
    }
  }

  lemma {:induction false} StoredAt(m: Node, ns: string, k: string)
    ensures var a := DefOf(m, ns).shallow;
      if k == "name" then k in a && a[k] == Str(ShortName(m))
      else if k == "namespace" then (k in a <==> SpaceOf(m, ns) != "") && (k in a ==> a[k] == Str(SpaceOf(m, ns)))
      else if k == "fields" && ListAt(m, k).Some? then k in a && a[k] == Arr(ShallowFields(FieldsIn(m), SpaceOf(m, ns)))
      else (k in a <==> k in m) && (k in a ==> a[k] == m[k])
  {
  }

  // ----- The definitions in a schema -----

  /** The node holds the definition m, read in the namespace e. */
  ghost predicate HoldsDefinition(node: Json, ns: string, m: Node, e: string)
    decreases node
  {
    match node
    case Arr(l) => exists i :: 0 <= i < |l| && HoldsDefinition(l[i], ns, m, e)
    case Obj(n) =>
      if IsNamed(n) then
        (m == n && e == ns) ||
        exists i :: 0 <= i < |FieldsIn(n)| && FieldsIn(n)[i].Obj? && "type" in FieldsIn(n)[i].fields &&
                    HoldsDefinition(FieldsIn(n)[i].fields["type"], SpaceOf(n, ns), m, e)
      else if ContainerKey(n).Some? then
        ContainerKey(n).value in n && HoldsDefinition(n[ContainerKey(n).value], ns, m, e)
      else Wraps(n) && HoldsDefinition(n["type"], ns, m, e)
    case _ => false
  }

  ghost predicate FieldHoldsIt(n: Node, ns: string, i: nat, m: Node, e: string)
    requires i < |FieldsIn(n)|
  {
    var f := FieldsIn(n)[i];
    f.Obj? && "type" in f.fields && HoldsDefinition(f.fields["type"], SpaceOf(n, ns), m, e)
  }

  /** d is what is collected of a definition the node holds. */
  ghost predicate StoredFrom(node: Json, ns: string, d: (string, Def)) {
    exists m: Node, e :: HoldsDefinition(node, ns, m, e) && d == (FullOf(m, e), DefOf(m, e))
  }

  lemma {:induction false} InList(l: seq<Json>, n: nat, ns: string, d: (string, Def))
    requires n <= |l|
    ensures d in DefSeqList(l[..n], ns) <==> exists i :: 0 <= i < n && d in DefSeq(l[i], ns)
  {
    if n > 0 {
      InList(l, n - 1, ns, d);
      assert l[..n][..n - 1] == l[..n - 1];
    }
  }

  function FieldSeq(fields: seq<Json>, i: nat, ns: string): seq<(string, Def)>
    requires i < |fields|
  {
    if fields[i].Obj? && "type" in fields[i].fields then DefSeq(fields[i].fields["type"], ns) else []
  }

  lemma {:induction false} InFields(fields: seq<Json>, n: nat, ns: string, d: (string, Def))
    requires n <= |fields|
    ensures d in FieldDefs(fields[..n], ns) <==> exists i :: 0 <= i < n && d in FieldSeq(fields, i, ns)
  {
    if n > 0 {
      InFields(fields, n - 1, ns, d);
      assert fields[..n][..n - 1] == fields[..n - 1];
      assert FieldDefs(fields[..n], ns) == FieldDefs(fields[..n - 1], ns) + FieldSeq(fields, n - 1, ns);
    }
  }

  /** What is collected from a node is what is stored of the definitions it holds. */
  lemma {:induction false} CollectedFrom(node: Json, ns: string, d: (string, Def))
    ensures d in DefSeq(node, ns) <==> StoredFrom(node, ns, d)
    decreases node, 1
  {
    match node
    case Arr(l) =>
      forall i | 0 <= i < |l| ensures d in DefSeq(l[i], ns) <==> StoredFrom(l[i], ns, d) { CollectedFrom(l[i], ns, d); }
      InList(l, |l|, ns, d);
      assert l[..|l|] == l;
      FromList(l, ns, d);
    case Obj(n) =>
      if IsNamed(n) {
        CollectedFromNamed(n, ns, d);
      } else if ContainerKey(n).Some? {
        if ContainerKey(n).value in n { CollectedFrom(n[ContainerKey(n).value], ns, d); }
        OneInside(node, ns, d);
      } else if Wraps(n) {
        CollectedFrom(n["type"], ns, d);
        OneInside(node, ns, d);
      }
    case _ =>
  }

  lemma {:induction false} FromList(l: seq<Json>, ns: string, d: (string, Def))
    ensures StoredFrom(Arr(l), ns, d) <==> exists i :: 0 <= i < |l| && StoredFrom(l[i], ns, d)
  {
    if StoredFrom(Arr(l), ns, d) {
      var m: Node, e :| HoldsDefinition(Arr(l), ns, m, e) && d == (FullOf(m, e), DefOf(m, e));
      var i :| 0 <= i < |l| && HoldsDefinition(l[i], ns, m, e);
      assert StoredFrom(l[i], ns, d);
    }
    if i :| 0 <= i < |l| && StoredFrom(l[i], ns, d) {
      var m: Node, e :| HoldsDefinition(l[i], ns, m, e) && d == (FullOf(m, e), DefOf(m, e));
      assert HoldsDefinition(Arr(l), ns, m, e);
    }
  }

  /** A node around another holds what that holds. */
  lemma {:induction false} OneInside(node: Json, ns: string, d: (string, Def))
    requires IsContainer(node) || OnlyWraps(node)
    ensures var n := node.fields; var k := if IsContainer(node) then ContainerKey(n).value else "type";
      StoredFrom(node, ns, d) <==> k in n && StoredFrom(n[k], ns, d)
  {
    var n := node.fields;
    var k := if IsContainer(node) then ContainerKey(n).value else "type";
    if StoredFrom(node, ns, d) {
      var m: Node, e :| HoldsDefinition(node, ns, m, e) && d == (FullOf(m, e), DefOf(m, e));
      assert HoldsDefinition(n[k], ns, m, e);
    }
    if k in n && StoredFrom(n[k], ns, d) {
      var m: Node, e :| HoldsDefinition(n[k], ns, m, e) && d == (FullOf(m, e), DefOf(m, e));
      assert HoldsDefinition(node, ns, m, e);
    }
  }

  lemma {:induction false} CollectedFromNamed(n: Node, ns: string, d: (string, Def))
    requires IsNamed(n)
    ensures d in DefSeq(Obj(n), ns) <==> StoredFrom(Obj(n), ns, d)
    decreases Obj(n), 0
  {
    var fields, space := FieldsIn(n), SpaceOf(n, ns);
    forall i | 0 <= i < |fields| ensures d in FieldSeq(fields, i, space) <==> FieldStores(n, ns, i, d) {
      if fields[i].Obj? && "type" in fields[i].fields { CollectedFrom(fields[i].fields["type"], space, d); }
    }
    InFields(fields, |fields|, space, d);
    assert fields[..|fields|] == fields && FieldDefs([], space) == [];
    FromNamed(n, ns, d);
  }

  ghost predicate FieldStores(n: Node, ns: string, i: nat, d: (string, Def))
    requires i < |FieldsIn(n)|
  {
    var f := FieldsIn(n)[i];
    f.Obj? && "type" in f.fields && StoredFrom(f.fields["type"], SpaceOf(n, ns), d)
  }

  lemma {:induction false} HoldsNamed(n: Node, ns: string, m: Node, e: string)
    requires IsNamed(n)
    ensures HoldsDefinition(Obj(n), ns, m, e) <==>
              (m == n && e == ns) || exists i :: 0 <= i < |FieldsIn(n)| && FieldHoldsIt(n, ns, i, m, e)
  {
    var fields := FieldsIn(n);
    if i :| 0 <= i < |fields| && fields[i].Obj? && "type" in fields[i].fields &&
            HoldsDefinition(fields[i].fields["type"], SpaceOf(n, ns), m, e)
    {
      assert FieldHoldsIt(n, ns, i, m, e);
    }
    if i :| 0 <= i < |fields| && FieldHoldsIt(n, ns, i, m, e) { assert fields[i].Obj?; }
  }

  lemma {:induction false} FromNamed(n: Node, ns: string, d: (string, Def))
    requires IsNamed(n)
    ensures StoredFrom(Obj(n), ns, d) <==>
              d == (FullOf(n, ns), DefOf(n, ns)) || exists i :: 0 <= i < |FieldsIn(n)| && FieldStores(n, ns, i, d)
  {
    if d == (FullOf(n, ns), DefOf(n, ns)) { assert HoldsDefinition(Obj(n), ns, n, ns); }
    if StoredFrom(Obj(n), ns, d) {
      var m: Node, e :| HoldsDefinition(Obj(n), ns, m, e) && d == (FullOf(m, e), DefOf(m, e));
      if m != n || e != ns {
        HoldsNamed(n, ns, m, e);
        var i :| 0 <= i < |FieldsIn(n)| && FieldHoldsIt(n, ns, i, m, e);
        assert FieldStores(n, ns, i, d);
      }
    }
    if i :| 0 <= i < |FieldsIn(n)| && FieldStores(n, ns, i, d) {
      var m: Node, e :| HoldsDefinition(FieldsIn(n)[i].fields["type"], SpaceOf(n, ns), m, e) &&
                        d == (FullOf(m, e), DefOf(m, e));
      assert FieldHoldsIt(n, ns, i, m, e);
      HoldsNamed(n, ns, m, e);
    }
  }

  // ----- The plan keeps the definitions -----

  /** b holds a definition that is the same as m. */
  ghost predicate SameIn(b: Json, m: Node, e: string) {
    exists n: Node, f :: HoldsDefinition(b, "", n, f) && SameDefinition(m, e, n, f)
  }

  ghost predicate SameInPayload(members: seq<Member>, m: Node, e: string) {
    exists i :: 0 <= i < |members| && SameIn(members[i].root, m, e)
  }

  lemma {:induction false} StoredIsSame(b: Json, m: Node, e: string, x: string)
    requires (x, DefOf(m, e)) in DefSeq(b, "")
    ensures SameIn(b, m, e)
  {
    CollectedFrom(b, "", (x, DefOf(m, e)));
    var n: Node, f :| HoldsDefinition(b, "", n, f) && (x, DefOf(m, e)) == (FullOf(n, f), DefOf(n, f));
    StoredExactly(m, e, n, f);
  }

  lemma {:induction false} HeldIsStored(a: Json, m: Node, e: string)
    requires HoldsDefinition(a, "", m, e)
    ensures (FullOf(m, e), DefOf(m, e)) in DefSeq(a, "")
  {
    var d := (FullOf(m, e), DefOf(m, e));
    assert StoredFrom(a, "", d);
    CollectedFrom(a, "", d);
  }

  /** The inline union holds every definition of the payloads. */
  lemma {:induction false} UnionKeeps(members: seq<Member>, plan: Plan, i: nat, m: Node, e: string)
    requires Parsed(members) && Plannable(members) && IsPlan(GraphOf(members), Branches(members), plan)
    requires i < |members| && HoldsDefinition(members[i].root, "", m, e)
    ensures SameIn(Arr(plan.union), m, e)
  {
    var g, ds := GraphOf(members), DefSeq(Arr(plan.union), "");
    ComposableReady(members, Branches(members));
    UnionRoundTrip(members, Branches(members), g, plan);
    HeldIsStored(members[i].root, m, e);
    assert (FullOf(m, e), DefOf(m, e)) in Held(members[i]);
    TypesInKeys(ds);
    var d :| d in ds && d.0 == FullOf(m, e);
    StoredIsSame(Arr(plan.union), m, e, FullOf(m, e));
  }

  /** What the environment holds some payload holds. */
  lemma {:induction false} FromAPayload(members: seq<Member>, branches: seq<string>, env: Env, m: Node, e: string)
    requires Holds(members, env) && FullOf(m, e) in env && env[FullOf(m, e)] == DefOf(m, e)
    ensures SameInPayload(members, m, e)
  {
    var x := FullOf(m, e);
    var i :| 0 <= i < |members| && Defines(members[i], x);
    var d :| d in Held(members[i]) && d.0 == x;
    assert d == (x, DefOf(m, e));
    StoredIsSame(members[i].root, m, e, x);
  }

  /** The inline union holds no definition but the payloads'. */
  lemma {:induction false} UnionAdds(members: seq<Member>, plan: Plan, m: Node, e: string)
    requires Parsed(members) && Plannable(members) && IsPlan(GraphOf(members), Branches(members), plan)
    requires HoldsDefinition(Arr(plan.union), "", m, e)
    ensures SameInPayload(members, m, e)
  {
    var g := GraphOf(members);
    ComposableReady(members, Branches(members));
    UnionRoundTrip(members, Branches(members), g, plan);
    HeldIsStored(Arr(plan.union), m, e);
    FromAPayload(members, Branches(members), g.env, m, e);
  }

  /** A subject holds no definition but the payloads'. */
  lemma {:induction false} SubjectAdds(members: seq<Member>, plan: Plan, k: nat, m: Node, e: string)
    requires Parsed(members) && Plannable(members) && IsPlan(GraphOf(members), Branches(members), plan)
    requires k < |plan.subjects| && HoldsDefinition(plan.subjects[k].schema, "", m, e)
    ensures SameInPayload(members, m, e)
  {
    var g := GraphOf(members);
    ComposableReady(members, Branches(members));
    ReadyGraph(members, Branches(members), g);
    SubjectStandsAlone(g, plan.subjects[k]);
    HeldIsStored(plan.subjects[k].schema, m, e);
    FromAPayload(members, Branches(members), g.env, m, e);
  }

  /** A subject's schema is its type's definition, as stored. */
  lemma {:induction false} SubjectDefinesIt(g: Graph, s: Subject)
    requires GoodGraph(g) && IsSubject(g, s)
    ensures (s.name, g.env[s.name]) in DefSeq(s.schema, "")
  {
    var cx := g.At(s.name);
    assert {} + {s.name} == {s.name};
    FirstDefSeq(cx, s.name, "", s.schema, {});
    assert [(s.name, g.env[s.name])][0] in [(s.name, g.env[s.name])];
  }

  /** The subject of a payload's type holds the payload's own definition. */
  lemma {:induction false} SubjectKeeps(members: seq<Member>, plan: Plan, i: nat, k: nat)
    requires Parsed(members) && Plannable(members) && IsPlan(GraphOf(members), Branches(members), plan)
    requires i < |members| && k < |plan.subjects| && plan.subjects[k].name == BranchOf(members[i])
    ensures members[i].root.Obj? && SameIn(plan.subjects[k].schema, members[i].root.fields, "")
  {
    var g, s := GraphOf(members), plan.subjects[k];
    ComposableReady(members, Branches(members));
    ReadyGraph(members, Branches(members), g);
    assert Sane(members[i]) && IsSubject(g, s);
    SubjectDefinesIt(g, s);
    PayloadStored(members[i], g.env);
    StoredIsSame(s.schema, members[i].root.fields, "", s.name);
  }

  lemma {:induction false} PayloadStored(m: Member, env: Env)
    requires IsRecord(m.root) && forall d | d in Held(m) :: d.0 in env && env[d.0] == d.1
    ensures BranchOf(m) in env && env[BranchOf(m)] == DefOf(m.root.fields, "")
  {
    assert HoldsDefinition(m.root, "", m.root.fields, "");
    HeldIsStored(m.root, m.root.fields, "");
  }
}
