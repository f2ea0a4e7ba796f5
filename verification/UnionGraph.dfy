/** The graph planUnion works on, as the Message types give it (internal/wire/avrowire/union.go):
    which types there are, which are registered, and what each Message type reaches. */
module UnionGraph {
  import opened JsonValues
  import opened Sorting
  import opened AvscShapes
  import opened ShallowForms
  import opened UnionCollect
  import opened UnionMembers
  import opened UnionReach
  import opened UnionOrder

  /** Every name the definitions of an avsc use is a primitive or defined in it. */
  ghost predicate SelfContained(ds: seq<(string, Def)>) {
    forall d | d in ds :: forall y | y in DefOccurs(d.1) :: IsPrimitive(y) || y in NamesOf(ds)
  }

  /** What avro.Parse has checked of each payload, and Tidy. */
  ghost predicate Parsed(members: seq<Member>) {
    forall i | 0 <= i < |members| :: Tidy(members[i].root) && SelfContained(Held(members[i]))
  }

  /** A payload with all that is asked of it. */
  ghost predicate Sane(m: Member) { Tidy(m.root) && FieldsOk(m.root) && SelfContained(Held(m)) && IsRecord(m.root) }

  lemma {:induction false} ComposableSane(members: seq<Member>, branches: seq<string>, i: nat)
    requires Parsed(members) && i < |members| == |branches| && Composable(members, branches, |members|)
    ensures Sane(members[i])
  {
    JoinsSane(members, branches, i);
  }

  lemma {:induction false} JoinsSane(members: seq<Member>, branches: seq<string>, i: nat)
    requires Parsed(members) && i < |members| == |branches| && Joins(members, branches, i)
    ensures Sane(members[i])
  {
  }

  /** The named types, by full name; the last definition of each, when they differ. */
  function TypesIn(ds: seq<(string, Def)>): Env {
    if ds == [] then map[] else TypesIn(ds[..|ds| - 1])[ds[|ds| - 1].0 := ds[|ds| - 1].1]
  }

  function Types(members: seq<Member>): Env { TypesIn(AllHeld(members, |members|)) }

  ghost predicate SharedByTwo(members: seq<Member>, x: string) {
    exists i, j :: 0 <= i < |members| && 0 <= j < |members| && members[i].name != members[j].name &&
                   Defines(members[i], x) && Defines(members[j], x)
  }

  /** The branches, and the types that Message types of two names define. */
  ghost function Registered(members: seq<Member>): set<string> {
    Elements(Branches(members)) + set x | x in Types(members).Keys && SharedByTwo(members, x)
  }

  ghost function GraphOf(members: seq<Member>): Graph { Graph(Types(members), Registered(members)) }

  lemma {:induction false} TypesInKeys(ds: seq<(string, Def)>)
    ensures TypesIn(ds).Keys == NamesOf(ds)
  {
    if ds != [] {
      var init, last := ds[..|ds| - 1], ds[|ds| - 1];
      TypesInKeys(init);
      assert ds == init + [last];
      NamesOfConcat(init, [last]);
      assert [last][0] in [last] && NamesOf([last]) == {last.0};
    }
  }

  lemma {:induction false} TypesInAgree(ds: seq<(string, Def)>, env: Env)
    requires Fits(env, map[], ds)
    ensures forall d | d in ds :: d.0 in TypesIn(ds) && TypesIn(ds)[d.0] == d.1
  {
    if ds != [] {
      var init, last := ds[..|ds| - 1], ds[|ds| - 1];
      assert ds == init + [last] && last in ds;
      TypesInAgree(init, env);
    }
  }

  /** The collected environment is the one the Message types give. */
  lemma {:induction false} CollectedTypes(members: seq<Member>, defs: map<string, Entry>)
    requires Collected(members, |members|, defs) && Agree(map[], AllHeld(members, |members|))
    ensures (map x | x in defs :: defs[x].def) == Types(members)
    ensures forall x | x in defs :: |defs[x].definedBy| > 1 <==> SharedByTwo(members, x)
  {
    var all := AllHeld(members, |members|);
    var env :| Fits(env, map[], all);
    TypesInKeys(all);
    TypesInAgree(all, env);
    forall x | x in defs ensures defs[x].def == Types(members)[x] {
      var d :| d in all && d.0 == x;
    }
    forall x | x in defs
      ensures |defs[x].definedBy| > 1 <==> SharedByTwo(members, x)
    {
      CreditedByTwo(members, defs, x);
    }
  }

  lemma {:induction false} CreditedByTwo(members: seq<Member>, defs: map<string, Entry>, x: string)
    requires Collected(members, |members|, defs) && x in defs
    ensures |defs[x].definedBy| > 1 <==> SharedByTwo(members, x)
  {
    TwoAreTwo(members, defs[x].definedBy, x);
  }

  lemma {:induction false} TwoAreTwo(members: seq<Member>, names: seq<string>, x: string)
    requires Distinct(names) && forall name :: name in names <==> SomeDefines(members, |members|, name, x)
    ensures |names| > 1 <==> SharedByTwo(members, x)
  {
    if |names| > 1 {
      var a, b := names[0], names[1];
      assert a in names && b in names && a != b;
      var i :| 0 <= i < |members| && members[i].name == a && Defines(members[i], x);
      var j :| 0 <= j < |members| && members[j].name == b && Defines(members[j], x);
    }
    if SharedByTwo(members, x) {
      var i, j :| 0 <= i < |members| && 0 <= j < |members| && members[i].name != members[j].name &&
                  Defines(members[i], x) && Defines(members[j], x);
      var a, b := members[i].name, members[j].name;
      assert SomeDefines(members, |members|, a, x) && SomeDefines(members, |members|, b, x);
      assert a in names && b in names;
    }
  }

  // ----- What the environment of composable Message types is like -----

  /** The environment holds what each Message type defines, and nothing else. */
  ghost predicate Holds(members: seq<Member>, env: Env) {
    (forall i, d | 0 <= i < |members| && d in Held(members[i]) :: d.0 in env && env[d.0] == d.1) &&
    forall x | x in env :: exists i :: 0 <= i < |members| && Defines(members[i], x)
  }

  lemma {:induction false} EnvironmentHolds(members: seq<Member>)
    requires Agree(map[], AllHeld(members, |members|))
    ensures Holds(members, Types(members))
  {
    var all := AllHeld(members, |members|);
    var env :| Fits(env, map[], all);
    TypesInKeys(all);
    TypesInAgree(all, env);
    forall i, d | 0 <= i < |members| && d in Held(members[i])
      ensures d.0 in Types(members) && Types(members)[d.0] == d.1
    {
      HeldInAll(members, |members|, i);
    }
    forall x | x in Types(members) ensures exists i :: 0 <= i < |members| && Defines(members[i], x) {
      var d :| d in all && d.0 == x;
      AllHeldBySome(members, |members|, d);
      var i :| 0 <= i < |members| && d in Held(members[i]);
      assert Defines(members[i], x);
    }
  }

  lemma {:induction false} EnvironmentFits(members: seq<Member>, env: Env)
    requires Holds(members, env) && forall i | 0 <= i < |members| :: Sane(members[i])
    ensures GoodEnv(env) && NameClosed(env)
  {
    forall x | x in env ensures GoodDef(x, env[x]) && Known(env, DefOccurs(env[x])) {
      var i :| 0 <= i < |members| && Defines(members[i], x);
      TypeFits(members[i], env, x);
    }
  }

  lemma {:induction false} TypeFits(m: Member, env: Env, x: string)
    requires Sane(m) && Defines(m, x)
    requires forall d | d in Held(m) :: d.0 in env && env[d.0] == d.1
    ensures GoodDef(x, env[x]) && Known(env, DefOccurs(env[x]))
  {
    var d :| d in Held(m) && d.0 == x;
    DefsAreGood(m.root, "");
    forall y | y in DefOccurs(env[x]) ensures IsPrimitive(y) || y in env {
      if !IsPrimitive(y) { var e :| e in Held(m) && e.0 == y; }
    }
  }

  /** Whatever a Message type defines in a definition's place, it defines the names in it. */
  lemma {:induction false} DefinersGrow(members: seq<Member>, env: Env, i: nat, x: string, y: string)
    requires Parsed(members) && i < |members| && Defines(members[i], x) && Holds(members, env)
    requires x in env && y in DefOccurs(env[x]) && !IsPrimitive(y)
    ensures Defines(members[i], y)
  {
    var d :| d in Held(members[i]) && d.0 == x;
  }

  // ----- Everything defined in a schema is reached from it -----

  /** j holds the types of keys that the definitions of its members refer to. */
  ghost predicate Followed(ds: seq<(string, Def)>, keys: set<string>, j: set<string>) {
    forall d | d in ds :: d.0 in keys && (d.0 in j ==> DefOccurs(d.1) * keys <= j)
  }

  lemma {:induction false} AllReached(node: Json, ns: string, keys: set<string>, j: set<string>)
    requires Occurs(ShallowOf(node, ns)) * keys <= j && Followed(DefSeq(node, ns), keys, j)
    ensures NamesOf(DefSeq(node, ns)) <= j
    decreases node
  {
    match node
    case Arr(l) =>
      assert l[..|l|] == l;
      forall i | 0 <= i < |l| ensures NamesOf(DefSeq(l[i], ns)) <= j {
        ItemHeld(l, i, |l|, ns);
        ShallowItemOccurs(l, i, ns);
        AllReached(l[i], ns, keys, j);
      }
      ListReached(l, |l|, ns, j);
    case Obj(m) =>
      if IsNamed(m) {
        RecordReached(node, m, ns, keys, j);
      } else if ContainerKey(m).Some? {
        var k := ContainerKey(m).value;
        if k in m {
          assert Occurs(ShallowOf(m[k], ns)) <= Occurs(ShallowOf(node, ns));
          AllReached(m[k], ns, keys, j);
        }
      } else if Wraps(m) {
        AllReached(m["type"], ns, keys, j);
      }
    case _ =>
  }

  lemma {:induction false} RecordReached(node: Json, m: Node, ns: string, keys: set<string>, j: set<string>)
    requires node == Obj(m) && IsNamed(m)
    requires Occurs(ShallowOf(node, ns)) * keys <= j && Followed(DefSeq(node, ns), keys, j)
    ensures NamesOf(DefSeq(node, ns)) <= j
    decreases node, 0
  {
    var full, d, space := FullOf(m, ns), DefOf(m, ns), SpaceOf(m, ns);
    assert Occurs(ShallowOf(node, ns)) == {full};
    assert DefSeq(node, ns)[0] == (full, d) && (full, d) in DefSeq(node, ns);
    assert full in Occurs(ShallowOf(node, ns)) * keys;
    var held: seq<(string, Def)> := [];
    if ListAt(m, "fields").Some? {
      var fields := m["fields"].items;
      held := FieldDefs(fields, space);
      assert DefSeq(node, ns) == [(full, d)] + held;
      assert forall e | e in held :: e in DefSeq(node, ns);
      DefFields(m, ns);
      assert fields[..|fields|] == fields;
      forall i | 0 <= i < |fields| && fields[i].Obj? && "type" in fields[i].fields
        ensures NamesOf(DefSeq(fields[i].fields["type"], space)) <= j
      {
        FieldHeld(fields, i, |fields|, space);
        FieldShallowOccurs(m, ns, i);
        AllReached(fields[i].fields["type"], space, keys, j);
      }
      FieldsReached(fields, |fields|, space, j);
    }
    forall x | x in NamesOf(DefSeq(node, ns)) ensures x in j {
      var e :| e in DefSeq(node, ns) && e.0 == x;
      if e != (full, d) { assert e in held && e.0 in NamesOf(held); }
    }
  }

  lemma {:induction false} FieldShallowOccurs(m: Node, ns: string, i: nat)
    requires IsNamed(m) && ListAt(m, "fields").Some? && i < |m["fields"].items|
    requires m["fields"].items[i].Obj? && "type" in m["fields"].items[i].fields
    ensures Occurs(ShallowOf(m["fields"].items[i].fields["type"], SpaceOf(m, ns))) <= DefOccurs(DefOf(m, ns))
  {
    DefFields(m, ns);
    var shs := FieldsIn(DefOf(m, ns).shallow);
    assert shs[i] == ShallowField(m["fields"].items[i], SpaceOf(m, ns));
    assert FieldType(shs[i]) == ShallowOf(m["fields"].items[i].fields["type"], SpaceOf(m, ns));
  }

  lemma {:induction false} ShallowItemOccurs(l: seq<Json>, i: nat, ns: string)
    requires i < |l|
    ensures Occurs(ShallowOf(l[i], ns)) <= Occurs(ShallowOf(Arr(l), ns))
  {
    var out := ShallowOf(Arr(l), ns).items;
    assert out[i] == ShallowOf(l[i], ns);
  }

  lemma {:induction false} ItemHeld(l: seq<Json>, i: nat, n: nat, ns: string)
    requires i < n <= |l|
    ensures forall d | d in DefSeq(l[i], ns) :: d in DefSeqList(l[..n], ns)
  {
    assert l[..n][..n - 1] == l[..n - 1];
    if i < n - 1 { ItemHeld(l, i, n - 1, ns); }
  }

  lemma {:induction false} FieldHeld(fields: seq<Json>, i: nat, n: nat, ns: string)
    requires i < n <= |fields| && fields[i].Obj? && "type" in fields[i].fields
    ensures forall d | d in DefSeq(fields[i].fields["type"], ns) :: d in FieldDefs(fields[..n], ns)
  {
    assert fields[..n][..n - 1] == fields[..n - 1];
    if i < n - 1 { FieldHeld(fields, i, n - 1, ns); }
  }

  lemma {:induction false} ListReached(l: seq<Json>, n: nat, ns: string, j: set<string>)
    requires n <= |l| && forall i | 0 <= i < |l| :: NamesOf(DefSeq(l[i], ns)) <= j
    ensures NamesOf(DefSeqList(l[..n], ns)) <= j
  {
    if n > 0 {
      assert l[..n][..n - 1] == l[..n - 1];
      ListReached(l, n - 1, ns, j);
      NamesOfConcat(DefSeqList(l[..n - 1], ns), DefSeq(l[n - 1], ns));
    }
  }

  lemma {:induction false} FieldsReached(fields: seq<Json>, n: nat, ns: string, j: set<string>)
    requires n <= |fields|
    requires forall i | 0 <= i < |fields| && fields[i].Obj? && "type" in fields[i].fields ::
              NamesOf(DefSeq(fields[i].fields["type"], ns)) <= j
    ensures NamesOf(FieldDefs(fields[..n], ns)) <= j
  {
    if n > 0 {
      assert fields[..n][..n - 1] == fields[..n - 1];
      FieldsReached(fields, n - 1, ns, j);
      var f := fields[n - 1];
      NamesOfConcat(FieldDefs(fields[..n - 1], ns), if f.Obj? && "type" in f.fields
        then DefSeq(f.fields["type"], ns) else []);
    }
  }
}
