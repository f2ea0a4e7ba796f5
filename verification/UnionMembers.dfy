/** The first loop of planUnion (internal/wire/avrowire/union.go): the Message types of a topic
    collected into one environment of named types. */
module UnionMembers {
  import opened JsonValues
  import opened Sorting
  import opened AvscShapes
  import opened UnionCollect

  /** An Avro Message type: its name and its decoded avsc. */
  datatype Member = Member(name: string, root: Json)

  predicate IsRecord(root: Json) {
    root.Obj? && (StrAt(root.fields, "type") == Some("record") || StrAt(root.fields, "type") == Some("error"))
  }

  /** The record a Message type contributes to the union. */
  function BranchOf(m: Member): string { if m.root.Obj? then FullOf(m.root.fields, "") else "" }

  function Branches(members: seq<Member>): seq<string> {
    seq(|members|, i requires 0 <= i < |members| => BranchOf(members[i]))
  }

  function Held(m: Member): seq<(string, Def)> { DefSeq(m.root, "") }

  ghost predicate Defines(m: Member, x: string) { x in NamesOf(Held(m)) }

  /** The definitions in the payloads of the first n Message types. */
  function AllHeld(members: seq<Member>, n: nat): seq<(string, Def)>
    requires n <= |members|
  {
    if n == 0 then [] else AllHeld(members, n - 1) + Held(members[n - 1])
  }

  /** Message type i can join the ones before it: its payload is a record none of them has, and
      its named types are defined as theirs are. */
  ghost predicate Joins(members: seq<Member>, branches: seq<string>, i: nat)
    requires i < |members| == |branches|
  {
    IsRecord(members[i].root) && FieldsOk(members[i].root) &&
    Agree(map[], AllHeld(members, i + 1)) &&
    branches[i] !in branches[..i]
  }

  /** The first n Message types make a union. */
  ghost predicate Composable(members: seq<Member>, branches: seq<string>, n: nat)
    requires n <= |members| == |branches|
  {
    forall i | 0 <= i < n :: Joins(members, branches, i)
  }

  lemma {:induction false} ComposableMore(members: seq<Member>, branches: seq<string>, n: nat)
    requires n < |members| == |branches| && Composable(members, branches, n)
    ensures Composable(members, branches, n + 1) <==> Joins(members, branches, n)
    ensures Composable(members, branches, |members|) ==> Joins(members, branches, n)
  {
  }

  lemma {:induction false} HeldInAll(members: seq<Member>, n: nat, i: nat)
    requires i < n <= |members|
    ensures forall d | d in Held(members[i]) :: d in AllHeld(members, n)
  {
    if i < n - 1 { HeldInAll(members, n - 1, i); }
  }

  lemma {:induction false} AllHeldBySome(members: seq<Member>, n: nat, d: (string, Def))
    requires n <= |members| && d in AllHeld(members, n)
    ensures exists i :: 0 <= i < n && d in Held(members[i])
  {
    if d !in Held(members[n - 1]) { AllHeldBySome(members, n - 1, d); }
  }

  ghost predicate SomeDefines(members: seq<Member>, n: nat, name: string, x: string)
    requires n <= |members|
  {
    exists i :: 0 <= i < n && members[i].name == name && Defines(members[i], x)
  }

  /** The environment holds the definitions of the first n Message types, each credited to the
      names of the Message types that hold it. */
  ghost predicate Collected(members: seq<Member>, n: nat, defs: map<string, Entry>)
    requires n <= |members|
  {
    Kept(map[], defs, AllHeld(members, n)) &&
    forall x | x in defs :: Distinct(defs[x].definedBy) &&
      forall name :: name in defs[x].definedBy <==> SomeDefines(members, n, name, x)
  }

  lemma {:induction false} CollectedMore(members: seq<Member>, n: nat, d0: map<string, Entry>, d1: map<string, Entry>)
    requires n < |members| && Collected(members, n, d0)
    requires Grown(d0, d1, Held(members[n]), members[n].name)
    ensures Collected(members, n + 1, d1)
  {
    KeptTwice(map[], d0, d1, AllHeld(members, n), Held(members[n]));
    forall x | x in d1
      ensures Distinct(d1[x].definedBy)
      ensures forall name :: name in d1[x].definedBy <==> SomeDefines(members, n + 1, name, x)
    {
      CreditsMore(members, n, d0, x);
      assert d1[x].definedBy == Credited(CreditsOf(d0, x), x in NamesOf(Held(members[n])), members[n].name);
    }
  }

  lemma {:induction false} CreditsMore(members: seq<Member>, n: nat, d0: map<string, Entry>, x: string)
    requires n < |members| && Collected(members, n, d0)
    ensures var names := Credited(CreditsOf(d0, x), x in NamesOf(Held(members[n])), members[n].name);
      Distinct(names) && forall name :: name in names <==> SomeDefines(members, n + 1, name, x)
  {
    var had := CreditsOf(d0, x);
    var names := Credited(had, x in NamesOf(Held(members[n])), members[n].name);
    forall name ensures name in had <==> SomeDefines(members, n, name, x) {
      if SomeDefines(members, n, name, x) {
        var i :| 0 <= i < n && members[i].name == name && Defines(members[i], x);
        HeldInAll(members, n, i);
        var d :| d in Held(members[i]) && d.0 == x;
        assert d in AllHeld(members, n) && d.0 in d0;
      }
    }
    forall name ensures name in names <==> SomeDefines(members, n + 1, name, x) {
      if SomeDefines(members, n, name, x) {
        var i :| 0 <= i < n && members[i].name == name && Defines(members[i], x);
        assert 0 <= i < n + 1;
      }
      if SomeDefines(members, n + 1, name, x) && !SomeDefines(members, n, name, x) {
        var i :| 0 <= i < n + 1 && members[i].name == name && Defines(members[i], x);
        assert i == n;
      }
      if name == members[n].name && Defines(members[n], x) { assert SomeDefines(members, n + 1, name, x); }
    }
  }

  /** One turn of the loop: the record's full name, unless the Message type cannot join. */
  method Join(c: Composer, members: seq<Member>, i: nat, branches: seq<string>, ghost all: seq<string>)
    returns (full: Option<string>)
    requires i < |members| == |all| && all[i] == BranchOf(members[i]) && branches == all[..i]
    requires Collected(members, i, c.defs) && Agree(map[], AllHeld(members, i))
    modifies c
    ensures full.Some? <==> Joins(members, all, i)
    ensures full.Some? ==> full.value == all[i] && Collected(members, i + 1, c.defs)
  {
    var m := members[i];
    if !IsRecord(m.root) { return None; }
    c.member := m.name;
    ghost var before := c.defs;
    AgreeTwice(map[], before, AllHeld(members, i), Held(m));
    var name := c.Shallow(m.root, "");
    if name.None? { return None; }
    CollectedMore(members, i, before, c.defs);
    full := Some(name.value.s);
    assert name.value == ShallowOf(m.root, "") && full.value == BranchOf(m);
    if full.value in branches { full := None; }
  }

  /** The whole of the loop: it ends with the branches and the collected environment exactly
      when the Message types make a union. */
  method Collect(members: seq<Member>) returns (branches: Option<seq<string>>, defs: map<string, Entry>)
    ensures branches.Some? <==> Composable(members, Branches(members), |members|)
    ensures branches.Some? ==> branches.value == Branches(members) && Collected(members, |members|, defs)
  {
    branches, defs := CollectAs(members, Branches(members));
  }

  method CollectAs(members: seq<Member>, ghost all: seq<string>)
    returns (branches: Option<seq<string>>, defs: map<string, Entry>)
    requires |all| == |members| && forall i | 0 <= i < |all| :: all[i] == BranchOf(members[i])
    ensures branches.Some? <==> Composable(members, all, |members|)
    ensures branches.Some? ==> branches.value == all && Collected(members, |members|, defs)
  {
    var c := new Composer();
    var names: seq<string> := [];
    var i: nat := 0;
    defs := map[];
    AgreeNone(map[]);
    while i < |members|
      invariant i <= |members| && names == all[..i]
      invariant Composable(members, all, i)
      invariant Collected(members, i, c.defs) && Agree(map[], AllHeld(members, i))
    {
      ComposableMore(members, all, i);
      var full := Join(c, members, i, names, all);
      if full.None? { return None, c.defs; }
      TakeOneMore(all, i);
      names := names + [full.value];
      i := i + 1;
    }
    return Some(names), c.defs;
  }
}
