/** Which named types a rendering must define: those reached from where it starts, through
    everything that is not a name registered elsewhere (internal/wire/avrowire/union.go). */
module UnionReach {
  import opened AvscShapes
  import opened ShallowForms

  type Env = map<string, Def>

  /** A rendering's view: the collected types, and those that stay names, registered elsewhere. */
  datatype Cx = Cx(env: Env, ext: set<string>)

  ghost predicate GoodEnv(env: Env) { forall x | x in env :: GoodDef(x, env[x]) }

  /** Every name a definition refers to is a primitive or another collected type. */
  ghost predicate NameClosed(env: Env) { forall x | x in env :: Known(env, DefOccurs(env[x])) }

  ghost predicate Known(env: Env, occ: set<string>) { forall y | y in occ :: IsPrimitive(y) || y in env }

  /** The types that must be defined where these names occur. */
  ghost function Need(cx: Cx, occ: set<string>): set<string> { (occ * cx.env.Keys) - cx.ext }

  ghost predicate Closed(cx: Cx, j: set<string>) {
    forall x | x in j && x in cx.env :: Need(cx, DefOccurs(cx.env[x])) <= j
  }

  /** A type without a namespace can only be named where there is none. */
  ghost predicate Spaced(cx: Cx, occ: set<string>, ns: string) {
    forall y | y in occ && y in cx.env :: cx.env[y].ns == "" ==> ns == ""
  }

  ghost predicate AllSpaced(cx: Cx) { forall x | x in cx.env :: Spaced(cx, DefOccurs(cx.env[x]), cx.env[x].ns) }

  /** Each definition is the collected one, new, and made once. */
  ghost predicate DefinesOnce(cx: Cx, ds: seq<(string, Def)>, e0: set<string>) {
    (forall i | 0 <= i < |ds| ::
       ds[i].0 in cx.env && cx.env[ds[i].0] == ds[i].1 && ds[i].0 !in e0 && ds[i].0 !in cx.ext) &&
    forall i, j | 0 <= i < j < |ds| :: ds[i].0 != ds[j].0
  }

  ghost predicate Served(cx: Cx, x: string, e1: set<string>)
    requires x in cx.env
  {
    Need(cx, DefOccurs(cx.env[x])) <= e1 && Spaced(cx, DefOccurs(cx.env[x]), cx.env[x].ns)
  }

  /** Rendering nodes whose names are occ, with e0 defined before, defines ds: the types
      needed, none twice, and none that is not reached. */
  ghost predicate Sound(cx: Cx, ds: seq<(string, Def)>, occ: set<string>, ns: string, e0: set<string>) {
    DefinesOnce(cx, ds, e0) && Spaced(cx, occ, ns) && Need(cx, occ) <= e0 + NamesOf(ds) &&
    (forall x | x in NamesOf(ds) :: x in cx.env && Served(cx, x, e0 + NamesOf(ds))) &&
    Least(cx, NamesOf(ds), occ, e0)
  }

  ghost predicate Least(cx: Cx, names: set<string>, occ: set<string>, e0: set<string>) {
    forall j | Closed(cx, j) && e0 <= j && Need(cx, occ) <= j :: names <= j
  }

  lemma {:induction false} SoundNothing(cx: Cx, occ: set<string>, ns: string, e0: set<string>)
    requires Spaced(cx, occ, ns) && Need(cx, occ) <= e0
    ensures Sound(cx, [], occ, ns, e0)
  {
  }

  lemma {:induction false} DefinesTwice(cx: Cx, a: seq<(string, Def)>, b: seq<(string, Def)>, e0: set<string>)
    requires DefinesOnce(cx, a, e0) && DefinesOnce(cx, b, e0 + NamesOf(a))
    ensures DefinesOnce(cx, a + b, e0)
  {
    assert forall i | 0 <= i < |a| :: a[i].0 in NamesOf(a);
  }

  lemma {:induction false} SoundTwice(cx: Cx, a: seq<(string, Def)>, b: seq<(string, Def)>, oa: set<string>,
                                      ob: set<string>, ns: string, e0: set<string>)
    requires Sound(cx, a, oa, ns, e0) && Sound(cx, b, ob, ns, e0 + NamesOf(a))
    ensures Sound(cx, a + b, oa + ob, ns, e0)
  {
    NamesOfConcat(a, b);
    DefinesTwice(cx, a, b, e0);
    forall j | Closed(cx, j) && e0 <= j && Need(cx, oa + ob) <= j ensures NamesOf(a) + NamesOf(b) <= j {
      assert Need(cx, oa) <= j && Need(cx, ob) <= j;
    }
  }

  /** A definition, once its fields are rendered. */
  lemma {:induction false} SoundDefinition(cx: Cx, x: string, ds: seq<(string, Def)>, ns: string, e0: set<string>)
    requires x in cx.env && x !in e0 && x !in cx.ext && (cx.env[x].ns == "" ==> ns == "")
    requires Sound(cx, ds, DefOccurs(cx.env[x]), cx.env[x].ns, e0 + {x})
    ensures Sound(cx, [(x, cx.env[x])] + ds, {x}, ns, e0)
  {
    var one := [(x, cx.env[x])];
    assert NamesOf(one) == {x} by { assert one[0] in one; }
    NamesOfConcat(one, ds);
    DefinesTwice(cx, one, ds, e0);
    assert e0 + {x} + NamesOf(ds) == e0 + NamesOf(one + ds);
    forall j | Closed(cx, j) && e0 <= j && Need(cx, {x}) <= j ensures NamesOf(one + ds) <= j {
      assert x in Need(cx, {x});
    }
  }
}
