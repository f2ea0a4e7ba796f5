/** composer.shallow, with and define (internal/wire/avrowire/union.go): the named types of the
    Message types, collected into one environment while each schema becomes its shallow form. */
module UnionCollect {
  import opened JsonValues
  import opened AvscShapes

  /** A collected named type, and the Message types that define it. */
  datatype Entry = Entry(def: Def, definedBy: seq<string>)

  function Credit(names: seq<string>, member: string): seq<string> {
    if member in names then names else names + [member]
  }

  function CreditsOf(defs: map<string, Entry>, x: string): seq<string> {
    if x in defs then defs[x].definedBy else []
  }

  ghost predicate Fits(env: map<string, Def>, defs: map<string, Entry>, ds: seq<(string, Def)>) {
    (forall x | x in defs :: x in env && env[x] == defs[x].def) &&
    forall d | d in ds :: d.0 in env && env[d.0] == d.1
  }

  /** The definitions agree with each other and with those already collected: one environment
      holds them all. */
  ghost predicate Agree(defs: map<string, Entry>, ds: seq<(string, Def)>) {
    exists env :: Fits(env, defs, ds)
  }

  /** d1 holds the definitions of d0 and those of ds, and no more. */
  ghost predicate Kept(d0: map<string, Entry>, d1: map<string, Entry>, ds: seq<(string, Def)>) {
    d1.Keys == d0.Keys + NamesOf(ds) &&
    (forall x | x in d0 :: d1[x].def == d0[x].def) &&
    forall d | d in ds :: d.0 in d1 && d1[d.0].def == d.1
  }

  /** d1 is d0 with the definitions ds collected for a Message type. */
  ghost predicate Grown(d0: map<string, Entry>, d1: map<string, Entry>, ds: seq<(string, Def)>, member: string) {
    Kept(d0, d1, ds) &&
    forall x | x in d1 :: d1[x].definedBy == Credited(CreditsOf(d0, x), x in NamesOf(ds), member)
  }

  function Credited(names: seq<string>, defines: bool, member: string): seq<string> {
    if defines then Credit(names, member) else names
  }

  lemma {:induction false} KeptTwice(d0: map<string, Entry>, d1: map<string, Entry>, d2: map<string, Entry>,
                                     a: seq<(string, Def)>, b: seq<(string, Def)>)
    requires Kept(d0, d1, a) && Kept(d1, d2, b)
    ensures Kept(d0, d2, a + b)
  {
    NamesOfConcat(a, b);
    forall d | d in a + b ensures d.0 in d2 && d2[d.0].def == d.1 {
      if d in a { assert d.0 in d1; } else { assert d in b; }
    }
  }

  lemma {:induction false} GrownTwice(d0: map<string, Entry>, d1: map<string, Entry>, d2: map<string, Entry>,
                                      a: seq<(string, Def)>, b: seq<(string, Def)>, member: string)
    requires Grown(d0, d1, a, member) && Grown(d1, d2, b, member)
    ensures Grown(d0, d2, a + b, member)
  {
    KeptTwice(d0, d1, d2, a, b);
    NamesOfConcat(a, b);
    forall x | x in d2 ensures d2[x].definedBy == Credited(CreditsOf(d0, x), x in NamesOf(a + b), member) {
      CreditedTwice(CreditsOf(d0, x), x in NamesOf(a), x in NamesOf(b), member);
      if x in d1 { assert CreditsOf(d1, x) == d1[x].definedBy; } else { assert x !in d0; }
    }
  }

  lemma {:induction false} CreditedTwice(names: seq<string>, a: bool, b: bool, member: string)
    ensures Credited(Credited(names, a, member), b, member) == Credited(names, a || b, member)
  {
  }

  /** Collecting after collecting agrees exactly when collecting both does. */
  lemma {:induction false} AgreeTwice(d0: map<string, Entry>, d1: map<string, Entry>, a: seq<(string, Def)>,
                                      b: seq<(string, Def)>)
    requires Kept(d0, d1, a) && Agree(d0, a)
    ensures Agree(d1, b) <==> Agree(d0, a + b)
  {
    if Agree(d1, b) {
      var env :| Fits(env, d1, b);
      assert Fits(env, d0, a + b);
    }
    if Agree(d0, a + b) {
      var env :| Fits(env, d0, a + b);
      forall d | d in a + b ensures d.0 in env && env[d.0] == d.1 {}
      forall d | d in a ensures d in a + b {}
      forall d | d in b ensures d in a + b {}
      assert Fits(env, d1, b);
    }
  }

  lemma {:induction false} AgreeNone(defs: map<string, Entry>)
    ensures Agree(defs, [])
  {
    assert Fits(map x | x in defs :: defs[x].def, defs, []);
  }

  lemma {:induction false} AgreeWithin(defs: map<string, Entry>, a: seq<(string, Def)>, b: seq<(string, Def)>)
    requires Agree(defs, b) && forall d | d in a :: d in b
    ensures Agree(defs, a)
  {
    var env :| Fits(env, defs, b);
    assert Fits(env, defs, a);
  }

  lemma {:induction false} SameMembersSameGrowth(d0: map<string, Entry>, d1: map<string, Entry>,
                                                 a: seq<(string, Def)>, b: seq<(string, Def)>, member: string)
    requires Grown(d0, d1, a, member) && forall d :: d in a <==> d in b
    ensures Grown(d0, d1, b, member)
  {
    assert NamesOf(a) == NamesOf(b);
  }

  /** A record's own definition is collected after those of its fields. */
  lemma {:induction false} AgreeFirst(d0: map<string, Entry>, d1: map<string, Entry>, full: string, def: Def,
                                      held: seq<(string, Def)>, member: string)
    requires Agree(d0, held) && Grown(d0, d1, held, member)
    ensures Agree(d0, [(full, def)] + held) <==> full in d1 ==> d1[full].def == def
  {
    var all := [(full, def)] + held;
    assert forall d :: d in all <==> d == (full, def) || d in held;
    if Agree(d0, all) {
      var env :| Fits(env, d0, all);
      assert Fits(env, d1, held);
      assert (full, def) in all;
    }
    if full in d1 ==> d1[full].def == def {
      var env := (map x | x in d1 :: d1[x].def)[full := def];
      assert Fits(env, d0, held);
      assert Fits(env, d0, all);
    }
  }

  lemma {:induction false} GrownByOne(d0: map<string, Entry>, d1: map<string, Entry>, full: string, def: Def,
                                      member: string)
    requires full in d0 ==> d0[full].def == def
    requires d1 == d0[full := Entry(def, Credit(CreditsOf(d0, full), member))]
    ensures Grown(d0, d1, [(full, def)], member)
  {
    var one := [(full, def)];
    assert forall d :: d in one <==> d == (full, def);
    assert (full, def) in one;
    assert NamesOf(one) == {full};
  }

  lemma {:induction false} DefsOfPrefix(l: seq<Json>, n: nat, ns: string)
    requires n <= |l|
    ensures forall d | d in DefSeqList(l[..n], ns) :: d in DefSeqList(l, ns)
    decreases |l| - n
  {
    if n < |l| {
      DefsOfPrefix(l, n + 1, ns);
      assert l[..n + 1][..n] == l[..n];
    } else {
      assert l[..n] == l;
    }
  }

  lemma {:induction false} DefsOfSnoc(l: seq<Json>, i: nat, ns: string)
    requires i < |l|
    ensures DefSeqList(l[..i + 1], ns) == DefSeqList(l[..i], ns) + DefSeq(l[i], ns)
  {
    assert l[..i + 1][..i] == l[..i];
  }

  lemma {:induction false} FieldDefsOfPrefix(l: seq<Json>, n: nat, ns: string)
    requires n <= |l|
    ensures forall d | d in FieldDefs(l[..n], ns) :: d in FieldDefs(l, ns)
    decreases |l| - n
  {
    if n < |l| {
      FieldDefsOfPrefix(l, n + 1, ns);
      assert l[..n + 1][..n] == l[..n];
    } else {
      assert l[..n] == l;
    }
  }

  function HeldBy(f: Json, ns: string): seq<(string, Def)> {
    if f.Obj? && "type" in f.fields then DefSeq(f.fields["type"], ns) else []
  }

  predicate AllFieldsOk(l: seq<Json>) { forall i | 0 <= i < |l| :: FieldsOk(l[i]) }

  function ShallowList(l: seq<Json>, ns: string): seq<Json> {
    seq(|l|, i requires 0 <= i < |l| => ShallowOf(l[i], ns))
  }

  lemma {:induction false} ShallowSnoc(l: seq<Json>, i: nat, ns: string)
    requires i < |l|
    ensures ShallowList(l[..i + 1], ns) == ShallowList(l[..i], ns) + [ShallowOf(l[i], ns)]
    ensures AllFieldsOk(l[..i + 1]) <==> AllFieldsOk(l[..i]) && FieldsOk(l[i])
    ensures AllFieldsOk(l) ==> AllFieldsOk(l[..i + 1])
  {
  }

  lemma {:induction false} FieldDefsSnoc(fields: seq<Json>, i: nat, ns: string)
    requires i < |fields|
    ensures FieldDefs(fields[..i + 1], ns) == FieldDefs(fields[..i], ns) + HeldBy(fields[i], ns)
    ensures ShallowFields(fields[..i + 1], ns) == ShallowFields(fields[..i], ns) + [ShallowField(fields[i], ns)]
    ensures AllFieldOk(fields[..i + 1]) <==> AllFieldOk(fields[..i]) && FieldOk(fields[i])
    ensures AllFieldOk(fields) ==> AllFieldOk(fields[..i + 1])
  {
    assert fields[..i + 1][..i] == fields[..i];
  }

  class Composer {
    var defs: map<string, Entry>
    var member: string

    constructor ()
      ensures defs == map[]
    {
      defs, member := map[], "";
    }

    /** composer.shallow */
    method Shallow(node: Json, ns: string) returns (r: Option<Json>)
      modifies this`defs
      ensures r.Some? <==> FieldsOk(node) && Agree(old(defs), DefSeq(node, ns))
      ensures r.Some? ==> r.value == ShallowOf(node, ns) && Grown(old(defs), defs, DefSeq(node, ns), member)
      decreases node, 2
    {
      AgreeNone(defs);
      match node
      case Str(s) => r := Some(Str(Qualify(s, ns)));
      case Arr(l) => r := List(node, ns);
      case Obj(m) =>
        if IsNamed(m) {
          r := Define(node, ns);
        } else if ContainerKey(m).Some? {
          r := With(node, ContainerKey(m).value, ns);
        } else if Wraps(m) {
          r := Shallow(m["type"], ns);
        } else {
          r := Some(node);
        }
      case _ => r := Some(node);
    }

    method List(node: Json, ns: string) returns (r: Option<Json>)
      requires node.Arr?
      modifies this`defs
      ensures r.Some? <==> FieldsOk(node) && Agree(old(defs), DefSeq(node, ns))
      ensures r.Some? ==> r.value == ShallowOf(node, ns) && Grown(old(defs), defs, DefSeq(node, ns), member)
      decreases node, 1
    {
      var out: seq<Json> := [];
      var i: nat := 0;
      var l := node.items;
      AgreeNone(defs);
      while i < |l|
        invariant i <= |l| && |out| == i
        invariant out == ShallowList(l[..i], ns) && AllFieldsOk(l[..i])
        invariant Agree(old(defs), DefSeqList(l[..i], ns))
        invariant Grown(old(defs), defs, DefSeqList(l[..i], ns), member)
      {
        ghost var before := defs;
        ghost var had := DefSeqList(l[..i], ns);
        ghost var has := DefSeq(l[i], ns);
        DefsOfSnoc(l, i, ns);
        ShallowSnoc(l, i, ns);
        AgreeTwice(old(defs), before, had, has);
        DefsOfPrefix(l, i + 1, ns);
        if Agree(old(defs), DefSeqList(l, ns)) { AgreeWithin(old(defs), had + has, DefSeqList(l, ns)); }
        var s := Shallow(l[i], ns);
        if s.None? { return None; }
        assert Agree(old(defs), had + has);
        GrownTwice(old(defs), before, defs, had, has, member);
        out := out + [s.value];
        i := i + 1;
      }
      assert l[..i] == l;
      assert ShallowOf(node, ns) == Arr(ShallowList(l, ns));
      r := Some(Arr(out));
    }

    /** composer.with */
    method With(node: Json, key: string, ns: string) returns (r: Option<Json>)
      requires node.Obj? && !IsNamed(node.fields) && ContainerKey(node.fields) == Some(key)
      modifies this`defs
      ensures r.Some? <==> FieldsOk(node) && Agree(old(defs), DefSeq(node, ns))
      ensures r.Some? ==> r.value == ShallowOf(node, ns) && Grown(old(defs), defs, DefSeq(node, ns), member)
      decreases node, 1
    {
      var n := node.fields;
      AgreeNone(defs);
      if key in n {
        var s := Shallow(n[key], ns);
        if s.None? { return None; }
        r := Some(Obj(n[key := s.value]));
      } else {
        r := Some(Obj(n[key := Null]));
      }
    }

    /** The loop of composer.define over the record's fields. */
    method Fields(node: Json, ns: string) returns (r: Option<seq<Json>>)
      requires node.Arr?
      modifies this`defs
      ensures r.Some? <==> AllFieldOk(node.items) && Agree(old(defs), FieldDefs(node.items, ns))
      ensures r.Some? ==> r.value == ShallowFields(node.items, ns)
      ensures r.Some? ==> Grown(old(defs), defs, FieldDefs(node.items, ns), member)
      decreases node, 0
    {
      var fields := node.items;
      var out: seq<Json> := [];
      var i: nat := 0;
      AgreeNone(defs);
      while i < |fields|
        invariant i <= |fields| && |out| == i
        invariant out == ShallowFields(fields[..i], ns) && AllFieldOk(fields[..i])
        invariant Agree(old(defs), FieldDefs(fields[..i], ns))
        invariant Grown(old(defs), defs, FieldDefs(fields[..i], ns), member)
      {
        ghost var before := defs;
        ghost var had := FieldDefs(fields[..i], ns);
        ghost var has := HeldBy(fields[i], ns);
        FieldDefsSnoc(fields, i, ns);
        AgreeTwice(old(defs), before, had, has);
        FieldDefsOfPrefix(fields, i + 1, ns);
        if Agree(old(defs), FieldDefs(fields, ns)) { AgreeWithin(old(defs), had + has, FieldDefs(fields, ns)); }
        var s := Field(fields[i], ns);
        if s.None? { return None; }
        GrownTwice(old(defs), before, defs, had, has, member);
        out := out + [s.value];
        i := i + 1;
      }
      assert fields[..i] == fields;
      r := Some(out);
    }

    method Field(f: Json, ns: string) returns (r: Option<Json>)
      modifies this`defs
      ensures r.Some? <==> FieldOk(f) && Agree(old(defs), HeldBy(f, ns))
      ensures r.Some? ==> r.value == ShallowField(f, ns) && Grown(old(defs), defs, HeldBy(f, ns), member)
      decreases f, 0
    {
      AgreeNone(defs);
      if !f.Obj? { return None; }
      var s := Some(Null);
      if "type" in f.fields { s := Shallow(f.fields["type"], ns); }
      if s.None? { return None; }
      r := Some(Obj(f.fields["type" := s.value]));
    }

    /** composer.define */
    method Define(node: Json, enclosing: string) returns (r: Option<Json>)
      requires node.Obj? && IsNamed(node.fields)
      modifies this`defs
      ensures r.Some? <==> FieldsOk(node) && Agree(old(defs), DefSeq(node, enclosing))
      ensures r.Some? ==> r.value == ShallowOf(node, enclosing)
      ensures r.Some? ==> Grown(old(defs), defs, DefSeq(node, enclosing), member)
      decreases node, 1
    {
      var n := node.fields;
      var name := DeclaredName(n);
      var namespace := DeclaredSpace(n, enclosing);
      var i := AfterLastDot(name);
      if i > 0 { namespace := name[..i - 1]; }
      name := name[i..];
      var full := Qualify(name, namespace);
      var def := (n - {"namespace"})["name" := Str(name)];
      if namespace != "" { def := def["namespace" := Str(namespace)]; }
      ghost var held: seq<(string, Def)> := [];
      AgreeNone(defs);
      if ListAt(n, "fields").Some? {
        held := FieldDefs(n["fields"].items, namespace);
        assert DefSeq(node, enclosing) == [(full, DefOf(n, enclosing))] + held;
        if Agree(defs, DefSeq(node, enclosing)) { AgreeWithin(defs, held, DefSeq(node, enclosing)); }
        assert FieldsIn(n) == n["fields"].items;
        assert FieldsOk(node) <==> AllFieldOk(n["fields"].items);
        var out := Fields(n["fields"], namespace);
        if out.None? { return None; }
        def := def["fields" := Arr(out.value)];
      }
      r := Record(full, Def(namespace, def), old(defs), held);
      assert DefSeq(node, enclosing) == [(full, Def(namespace, def))] + held;
    }

    /** The end of composer.define: a first definition is kept, a later one must agree. */
    method Record(full: string, def: Def, ghost start: map<string, Entry>, ghost held: seq<(string, Def)>)
      returns (r: Option<Json>)
      requires Agree(start, held) && Grown(start, defs, held, member)
      modifies this`defs
      ensures r.Some? <==> Agree(start, [(full, def)] + held)
      ensures r.Some? ==> r.value == Str(full) && Grown(start, defs, [(full, def)] + held, member)
    {
      ghost var one := [(full, def)];
      ghost var before := defs;
      AgreeFirst(start, before, full, def, held, member);
      if full in defs {
        if defs[full].def != def { return None; }
        defs := defs[full := Entry(def, Credit(defs[full].definedBy, member))];
      } else {
        defs := defs[full := Entry(def, [member])];
        assert [member] == Credit([], member);
      }
      GrownByOne(before, defs, full, def, member);
      GrownTwice(start, before, defs, held, one, member);
      SameMembersSameGrowth(start, defs, held + one, one + held, member);
      r := Some(Str(full));
    }
  }
}
