/** Avro's rule for names, as composer.define and qualify apply it (internal/wire/avrowire/union.go):
    what the full name of a declared type is, and what a name in a schema refers to. */
module FullNames {
  import opened JsonValues
  import opened Sorting
  import opened AvscShapes
  import opened UnionMembers
  import opened UnionGraph
  import opened UnionPlan

  // ----- The rule -----

  ghost predicate DotFirst(name: string) { name != "" && name[0] == '.' && '.' !in name[1..] }

  /** A name with a dot is full; another stands in the namespace beside it, or else in the enclosing
      one, or in none. A name whose one dot comes first is the name without it. */
  ghost predicate Names(name: string, namespace: string, enclosing: string, full: string) {
    if DotFirst(name) then full == name[1..]
    else if '.' in name then full == name
    else if namespace != "" then full == namespace + "." + name
    else if enclosing != "" then full == enclosing + "." + name
    else full == name
  }

  /** What stands before the last dot of a full name: the namespace its definition encloses. */
  ghost predicate SpaceBefore(full: string, space: string) {
    if '.' in full then exists short :: '.' !in short && full == space + "." + short else space == ""
  }

  function Namespace(m: Node): string { StrAt(m, "namespace").GetOr("") }

  /** The full names of the types a node declares. */
  ghost predicate Declares(node: Json, enclosing: string, x: string)
    decreases node
  {
    match node
    case Arr(l) => exists i :: 0 <= i < |l| && Declares(l[i], enclosing, x)
    case Obj(m) =>
      if IsNamed(m) then
        Names(DeclaredName(m), Namespace(m), enclosing, x) ||
        exists full, space, i ::
          Names(DeclaredName(m), Namespace(m), enclosing, full) && SpaceBefore(full, space) &&
          ListAt(m, "fields").Some? && 0 <= i < |m["fields"].items| &&
          m["fields"].items[i].Obj? && "type" in m["fields"].items[i].fields &&
          Declares(m["fields"].items[i].fields["type"], space, x)
      else if ContainerKey(m).Some? then
        ContainerKey(m).value in m && Declares(m[ContainerKey(m).value], enclosing, x)
      else Wraps(m) && Declares(m["type"], enclosing, x)
    case _ => false
  }

  // ----- A definition's full name -----

  /** The last dot of a text is where its last part begins. */
  lemma {:induction false} LastDot(space: string, short: string)
    requires '.' !in short
    ensures AfterLastDot(space + "." + short) == |space| + 1
  {
    LastDotAt(space + "." + short, |space|);
  }

  lemma {:induction false} LastDotAt(x: string, at: nat)
    requires at < |x| && x[at] == '.' && forall i | at < i < |x| :: x[i] != '.'
    ensures AfterLastDot(x) == at + 1
  {
    var i := AfterLastDot(x);
    assert forall j | i <= j < |x| :: x[j] == x[i..][j - i];
  }

  lemma {:induction false} DotParts(name: string)
    requires AfterLastDot(name) > 0
    ensures '.' in name && name == name[..AfterLastDot(name) - 1] + "." + name[AfterLastDot(name)..]
    ensures DotFirst(name) <==> AfterLastDot(name) == 1
  {
    var i := AfterLastDot(name);
    assert name[i - 1] == '.';
    assert forall j | 1 <= j < |name| :: name[j] == name[1..][j - 1];
  }

  lemma {:induction false} Qualified(short: string, ns: string)
    requires '.' !in short && !IsPrimitive(short)
    ensures Qualify(short, ns) == if ns == "" then short else ns + "." + short
  {
  }

  lemma {:induction false} OnlySpace(full: string, space: string)
    requires SpaceBefore(full, space)
    ensures '.' in full ==> AfterLastDot(full) == |space| + 1 && full[..|space|] == space
  {
    if '.' in full {
      var short :| '.' !in short && full == space + "." + short;
      LastDot(space, short);
    }
  }

  /** The full name of a definition is the one the rule gives it and no other. */
  lemma {:induction false} FullNameIs(m: Node, enclosing: string, full: string)
    requires !IsPrimitive(ShortName(m))
    ensures Names(DeclaredName(m), Namespace(m), enclosing, full) <==> full == FullOf(m, enclosing)
  {
    Qualified(ShortName(m), SpaceOf(m, enclosing));
    RuleIs(DeclaredName(m), Namespace(m), enclosing, ShortName(m), SpaceOf(m, enclosing), full);
  }

  lemma {:induction false} RuleIs(name: string, namespace: string, enclosing: string, short: string, ns: string,
                                  full: string)
    requires short == name[AfterLastDot(name)..]
    requires ns == if AfterLastDot(name) > 0 then name[..AfterLastDot(name) - 1]
                   else if namespace != "" then namespace else enclosing
    ensures Names(name, namespace, enclosing, full) <==> full == if ns == "" then short else ns + "." + short
  {
    if AfterLastDot(name) > 0 { DotParts(name); } else { assert name[0..] == name; }
  }

  /** The fields of a definition are read in the namespace before the last dot of its full name. */
  lemma {:induction false} SpaceIs(m: Node, enclosing: string, space: string)
    requires !IsPrimitive(ShortName(m))
    ensures SpaceBefore(FullOf(m, enclosing), space) <==> space == SpaceOf(m, enclosing)
  {
    var short, ns, full := ShortName(m), SpaceOf(m, enclosing), FullOf(m, enclosing);
    Qualified(short, ns);
    if ns != "" {
      assert full == ns + "." + short && '.' in full;
      LastDot(ns, short);
    }
    if SpaceBefore(full, space) { OnlySpace(full, space); }
  }

  /** A name in a schema refers to what a definition of that name, without a namespace of its own,
      defines there: a dotted one to itself, another to its name in the enclosing namespace. */
  lemma {:induction false} RefersByTheRule(name: string, ns: string, full: string)
    requires !IsPrimitive(name) && !DotFirst(name)
    ensures ShallowOf(Str(name), ns) == Str(full) <==> Names(name, "", ns, full)
  {
  }

  // ----- The definitions of a payload, and the plan -----

  /** The types collected from a node are those it declares by the rule. */
  lemma {:induction false} CollectedAsDeclared(node: Json, enclosing: string, x: string)
    requires Tidy(node)
    ensures x in NamesOf(DefSeq(node, enclosing)) <==> Declares(node, enclosing, x)
    decreases node
  {
    match node
    case Arr(l) =>
      forall i | 0 <= i < |l|
        ensures x in NamesOf(DefSeq(l[i], enclosing)) <==> Declares(l[i], enclosing, x)
      {
        CollectedAsDeclared(l[i], enclosing, x);
      }
      ListNames(l, |l|, enclosing, x);
      assert l[..|l|] == l;
    case Obj(m) =>
      if IsNamed(m) {
        DefinitionDeclares(m, enclosing, x);
      } else if ContainerKey(m).Some? {
        if ContainerKey(m).value in m { CollectedAsDeclared(m[ContainerKey(m).value], enclosing, x); }
      } else if Wraps(m) {
        CollectedAsDeclared(m["type"], enclosing, x);
      }
    case _ =>
  }

  lemma {:induction false} DefinitionDeclares(m: Node, enclosing: string, x: string)
    requires IsNamed(m) && Tidy(Obj(m))
    ensures x in NamesOf(DefSeq(Obj(m), enclosing)) <==> Declares(Obj(m), enclosing, x)
    decreases Obj(m), 0
  {
    var full, space := FullOf(m, enclosing), SpaceOf(m, enclosing);
    var fields := FieldsIn(m);
    forall i | 0 <= i < |fields| ensures FieldHolds(fields, i, space, x) <==> FieldDeclares(fields, i, space, x) {
      if fields[i].Obj? && "type" in fields[i].fields { CollectedAsDeclared(fields[i].fields["type"], space, x); }
    }
    forall f ensures Names(DeclaredName(m), Namespace(m), enclosing, f) <==> f == full {
      FullNameIs(m, enclosing, f);
    }
    forall s ensures SpaceBefore(full, s) <==> s == space { SpaceIs(m, enclosing, s); }
    NamedDeclares(m, enclosing, full, space, x);
    DefinitionNames(m, enclosing, x);
  }

  /** x is declared in the type of one of the fields. */
  ghost predicate FieldDeclares(fields: seq<Json>, i: nat, space: string, x: string)
    requires i < |fields|
  {
    fields[i].Obj? && "type" in fields[i].fields && Declares(fields[i].fields["type"], space, x)
  }

  ghost predicate FieldHolds(fields: seq<Json>, i: nat, space: string, x: string)
    requires i < |fields|
  {
    fields[i].Obj? && "type" in fields[i].fields && x in NamesOf(DefSeq(fields[i].fields["type"], space))
  }

  lemma {:induction false} NamedDeclares(m: Node, enclosing: string, full: string, space: string, x: string)
    requires IsNamed(m) && forall f :: Names(DeclaredName(m), Namespace(m), enclosing, f) <==> f == full
    requires forall s :: SpaceBefore(full, s) <==> s == space
    ensures Declares(Obj(m), enclosing, x) <==>
              x == full || exists i :: 0 <= i < |FieldsIn(m)| && FieldDeclares(FieldsIn(m), i, space, x)
  {
    var fields := FieldsIn(m);
    if i :| 0 <= i < |fields| && FieldDeclares(fields, i, space, x) {
      assert Names(DeclaredName(m), Namespace(m), enclosing, full) && SpaceBefore(full, space);
      assert m["fields"].items[i] == fields[i];
    }
    if Declares(Obj(m), enclosing, x) && x != full {
      var f, s, i :| Names(DeclaredName(m), Namespace(m), enclosing, f) && SpaceBefore(f, s) &&
                     ListAt(m, "fields").Some? && 0 <= i < |m["fields"].items| &&
                     m["fields"].items[i].Obj? && "type" in m["fields"].items[i].fields &&
                     Declares(m["fields"].items[i].fields["type"], s, x);
      assert FieldDeclares(fields, i, space, x);
    }
  }

  lemma {:induction false} DefinitionNames(m: Node, enclosing: string, x: string)
    requires IsNamed(m)
    ensures x in NamesOf(DefSeq(Obj(m), enclosing)) <==>
              x == FullOf(m, enclosing) ||
              exists i :: 0 <= i < |FieldsIn(m)| && FieldHolds(FieldsIn(m), i, SpaceOf(m, enclosing), x)
  {
    var fields, space := FieldsIn(m), SpaceOf(m, enclosing);
    NamesFirst((FullOf(m, enclosing), DefOf(m, enclosing)), FieldDefs(fields, space), x);
    FieldNamesAre(fields, |fields|, space, x);
    assert fields[..|fields|] == fields && FieldDefs([], space) == [];
  }

  lemma {:induction false} NamesFirst(d: (string, Def), held: seq<(string, Def)>, x: string)
    ensures x in NamesOf([d] + held) <==> x == d.0 || x in NamesOf(held)
  {
    NamesOfConcat([d], held);
    assert [d][0] in [d];
  }

  lemma {:induction false} ListNames(l: seq<Json>, n: nat, ns: string, x: string)
    requires n <= |l|
    ensures x in NamesOf(DefSeqList(l[..n], ns)) <==> exists i :: 0 <= i < n && x in NamesOf(DefSeq(l[i], ns))
  {
    if n > 0 {
      ListNames(l, n - 1, ns, x);
      assert l[..n][..n - 1] == l[..n - 1];
      NamesOfConcat(DefSeqList(l[..n - 1], ns), DefSeq(l[n - 1], ns));
    }
  }

  lemma {:induction false} FieldNamesAre(fields: seq<Json>, n: nat, ns: string, x: string)
    requires n <= |fields|
    ensures x in NamesOf(FieldDefs(fields[..n], ns)) <==> exists i :: 0 <= i < n && FieldHolds(fields, i, ns, x)
  {
    if n > 0 {
      FieldNamesAre(fields, n - 1, ns, x);
      OneFieldMore(fields, n, ns, x);
    }
  }

  lemma {:induction false} OneFieldMore(fields: seq<Json>, n: nat, ns: string, x: string)
    requires 0 < n <= |fields|
    ensures x in NamesOf(FieldDefs(fields[..n], ns)) <==>
              x in NamesOf(FieldDefs(fields[..n - 1], ns)) || FieldHolds(fields, n - 1, ns, x)
  {
    assert fields[..n][..n - 1] == fields[..n - 1];
    var f := fields[n - 1];
    NamesOfConcat(FieldDefs(fields[..n - 1], ns),
                  if f.Obj? && "type" in f.fields then DefSeq(f.fields["type"], ns) else []);
  }

  /** The branches of a plan are the full names its payloads declare, in order. */
  lemma {:induction false} PlannedByName(members: seq<Member>, plan: Plan)
    requires Parsed(members) && Plannable(members) && IsPlan(GraphOf(members), Branches(members), plan)
    ensures |plan.branches| == |members|
    ensures forall i | 0 <= i < |members| :: NamedByTheRule(members[i], plan.branches[i])
  {
    assert plan.branches == Branches(members);
    forall i | 0 <= i < |members| ensures Sane(members[i]) { ComposableSane(members, Branches(members), i); }
    BranchesNamed(members);
  }

  /** The types planned are the full names declared anywhere in the payloads. */
  lemma {:induction false} TypesByName(members: seq<Member>, x: string)
    requires Parsed(members) && Plannable(members)
    ensures x in Types(members) <==> exists i :: 0 <= i < |members| && Declares(members[i].root, "", x)
  {
    ComposableReady(members, Branches(members));
    TypesDeclared(members, x);
  }

  lemma {:induction false} BranchesNamed(members: seq<Member>)
    requires forall i | 0 <= i < |members| :: Sane(members[i])
    ensures forall i | 0 <= i < |members| :: NamedByTheRule(members[i], Branches(members)[i])
  {
    forall i | 0 <= i < |members| ensures NamedByTheRule(members[i], Branches(members)[i]) { BranchNamed(members[i]); }
  }

  /** A payload is an object, and its full name the one the rule gives it on its own. */
  ghost predicate NamedByTheRule(m: Member, full: string) {
    m.root.Obj? && Names(DeclaredName(m.root.fields), Namespace(m.root.fields), "", full)
  }

  lemma {:induction false} BranchNamed(m: Member)
    requires Sane(m)
    ensures NamedByTheRule(m, BranchOf(m))
  {
    FullNameIs(m.root.fields, "", BranchOf(m));
  }

  lemma {:induction false} TypesDeclared(members: seq<Member>, x: string)
    requires Ready(members, Branches(members), GraphOf(members))
    ensures x in Types(members) <==> exists i :: 0 <= i < |members| && Declares(members[i].root, "", x)
  {
    forall i | 0 <= i < |members| ensures Defines(members[i], x) <==> Declares(members[i].root, "", x) {
      assert Sane(members[i]);
      CollectedAsDeclared(members[i].root, "", x);
    }
    if i :| 0 <= i < |members| && Defines(members[i], x) {
      var d :| d in Held(members[i]) && d.0 == x;
    }
  }
}
