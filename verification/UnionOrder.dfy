/** composer.dependencies and composer.order (internal/wire/avrowire/union.go): the registered
    types, each after those it refers to. */
module UnionOrder {
  import opened JsonValues
  import opened Sorting
  import opened AvscShapes
  import opened UnionReach
  import opened UnionRenderer

  /** The collected types and the names registered as subjects of their own. */
  datatype Graph = Graph(env: Env, registered: set<string>) {
    ghost function At(name: string): Cx { Cx(env, registered - {name}) }
  }

  /** names is what a rendering that starts at name must define: closed, and no larger than needed. */
  ghost predicate IsInline(cx: Cx, name: string, names: set<string>) {
    name in names && names <= cx.env.Keys && Closed(cx, names) &&
    forall j | Closed(cx, j) && name in j :: names <= j
  }

  /** The types defined inside the subject of a registered type, itself included. */
  ghost function Inline(cx: Cx, name: string): set<string> {
    set x | x in cx.env.Keys && forall j | Closed(cx, j) && name in j :: x in j
  }

  /** The registered types a registered type refers to, through the types inline in it. */
  ghost function Deps(g: Graph, name: string): set<string> { Outside(g.At(name), {}, Inline(g.At(name), name)) }

  lemma {:induction false} InlineIsInline(cx: Cx, name: string)
    requires name in cx.env
    ensures IsInline(cx, name, Inline(cx, name))
  {
    var names := Inline(cx, name);
    forall x, y | x in names && y in Need(cx, DefOccurs(cx.env[x])) ensures y in names {
      forall j | Closed(cx, j) && name in j ensures y in j { assert x in j; }
    }
  }

  lemma {:induction false} InlineUnique(cx: Cx, name: string, names: set<string>)
    requires IsInline(cx, name, names)
    ensures names == Inline(cx, name)
  {
  }

  /** Nothing registered elsewhere is inline. */
  lemma {:induction false} InlineStaysInside(cx: Cx, name: string)
    requires name in cx.env && name !in cx.ext
    ensures Inline(cx, name) !! cx.ext
  {
    var j := cx.env.Keys - cx.ext;
    assert Closed(cx, j);
  }

  // ----- dependencies -----

  /** Closed under looking through unregistered types. */
  ghost predicate LookedThrough(g: Graph, j: set<string>) {
    forall x | x in j && x in g.env && x !in g.registered :: DefOccurs(g.env[x]) * g.env.Keys <= j
  }

  ghost predicate LeastSeen(g: Graph, seen0: set<string>, occ: set<string>, seen1: set<string>) {
    forall j | LookedThrough(g, j) && seen0 <= j && occ * g.env.Keys <= j :: seen1 <= j
  }

  /** Looking at nodes whose names are occ took the state (seen0, deps0) to (seen1, deps1). */
  ghost predicate Looked(g: Graph, occ: set<string>, seen0: set<string>, deps0: seq<string>, seen1: set<string>,
                         deps1: seq<string>) {
    seen0 <= seen1 && occ * g.env.Keys <= seen1 && seen1 - seen0 <= g.env.Keys &&
    (forall x | x in seen1 - seen0 && x !in g.registered :: DefOccurs(g.env[x]) * g.env.Keys <= seen1) &&
    LeastSeen(g, seen0, occ, seen1) &&
    Elements(deps1) == Elements(deps0) + (seen1 - seen0) * g.registered &&
    (Distinct(deps0) && Elements(deps0) <= seen0 ==> Distinct(deps1))
  }

  lemma {:induction false} LookedNothing(g: Graph, occ: set<string>, seen: set<string>, deps: seq<string>)
    requires occ * g.env.Keys <= seen
    ensures Looked(g, occ, seen, deps, seen, deps)
  {
  }

  lemma {:induction false} LookedTwice(g: Graph, oa: set<string>, ob: set<string>, s0: set<string>, d0: seq<string>,
                                       s1: set<string>, d1: seq<string>, s2: set<string>, d2: seq<string>)
    requires Looked(g, oa, s0, d0, s1, d1) && Looked(g, ob, s1, d1, s2, d2)
    ensures Looked(g, oa + ob, s0, d0, s2, d2)
  {
    forall x | x in s2 - s0 && x !in g.registered ensures DefOccurs(g.env[x]) * g.env.Keys <= s2 {
      if x in s1 { assert x in s1 - s0; } else { assert x in s2 - s1; }
    }
    forall j | LookedThrough(g, j) && s0 <= j && (oa + ob) * g.env.Keys <= j ensures s2 <= j {
      assert oa * g.env.Keys <= j && ob * g.env.Keys <= j;
    }
    assert Elements(d2) == Elements(d0) + (s2 - s0) * g.registered;
  }

  lemma {:induction false} LookedRegistered(g: Graph, x: string, seen: set<string>, deps: seq<string>)
    requires x in g.env && x in g.registered && x !in seen
    ensures Looked(g, {x}, seen, deps, seen + {x}, deps + [x])
  {
    ElementsSnoc(deps, x);
    assert {x} * g.env.Keys == {x};
    assert forall d | d in deps :: d in Elements(deps);
  }

  lemma {:induction false} LookedThroughType(g: Graph, x: string, seen0: set<string>, deps0: seq<string>,
                                             seen1: set<string>, deps1: seq<string>)
    requires x in g.env && x !in g.registered && x !in seen0
    requires Looked(g, DefOccurs(g.env[x]), seen0 + {x}, deps0, seen1, deps1)
    ensures Looked(g, {x}, seen0, deps0, seen1, deps1)
  {
    forall j | LookedThrough(g, j) && seen0 <= j && {x} * g.env.Keys <= j ensures seen1 <= j {
      assert x in {x} * g.env.Keys;
    }
    assert (seen1 - (seen0 + {x})) * g.registered == (seen1 - seen0) * g.registered;
  }

  class Finder {
    const g: Graph
    var seen: set<string>
    var deps: seq<string>

    constructor (g: Graph, name: string)
      ensures this.g == g && seen == {name} && deps == []
    {
      this.g, seen, deps := g, {name}, [];
    }

    /** The inner function schema of composer.dependencies. */
    method Schema(node: Json)
      modifies this
      ensures Looked(g, Occurs(node), old(seen), old(deps), seen, deps)
      decreases g.env.Keys - seen, node, 1
    {
      match node
      case Str(n) =>
        if n in seen || n !in g.env {
          LookedNothing(g, {n}, seen, deps);
          return;
        }
        ghost var s0, d0 := seen, deps;
        seen := seen + {n};
        if n in g.registered {
          deps := deps + [n];
          LookedRegistered(g, n, s0, d0);
          return;
        }
        Definition(g.env[n]);
        LookedThroughType(g, n, s0, d0, seen, deps);
      case Arr(_) => List(node);
      case Obj(n) =>
        LookedNothing(g, {}, seen, deps);
        if "items" in n { Schema(n["items"]); }
        ghost var s1, d1 := seen, deps;
        ghost var oa := if "items" in n then Occurs(n["items"]) else {};
        LookedNothing(g, {}, seen, deps);
        if "values" in n { Schema(n["values"]); }
        LookedTwice(g, oa, if "values" in n then Occurs(n["values"]) else {}, old(seen), old(deps), s1, d1, seen, deps);
      case _ => LookedNothing(g, {}, seen, deps);
    }

    method List(node: Json)
      requires node.Arr?
      modifies this
      ensures Looked(g, Occurs(node), old(seen), old(deps), seen, deps)
      decreases g.env.Keys - seen, node, 0
    {
      var l := node.items;
      var i: nat := 0;
      LookedNothing(g, {}, seen, deps);
      while i < |l|
        invariant i <= |l| && old(seen) <= seen
        invariant Looked(g, UnionRender.OccursUpTo(l, i), old(seen), old(deps), seen, deps)
      {
        ghost var s1, d1 := seen, deps;
        Schema(l[i]);
        LookedTwice(g, UnionRender.OccursUpTo(l, i), Occurs(l[i]), old(seen), old(deps), s1, d1, seen, deps);
        i := i + 1;
      }
      UnionRender.OccursUpToAll(l, |l|);
      assert Occurs(node) == UnionRender.OccursUpTo(l, |l|);
    }

    /** The inner function def of composer.dependencies. */
    method Definition(d: Def)
      modifies this
      ensures Looked(g, DefOccurs(d), old(seen), old(deps), seen, deps)
      decreases g.env.Keys - seen, Obj(d.shallow), 0
    {
      var fields := FieldsIn(d.shallow);
      var i: nat := 0;
      LookedNothing(g, {}, seen, deps);
      while i < |fields|
        invariant i <= |fields| && old(seen) <= seen
        invariant Looked(g, UnionRender.FieldOccursUpTo(fields, i), old(seen), old(deps), seen, deps)
      {
        ghost var s1, d1 := seen, deps;
        LookedNothing(g, {}, seen, deps);
        if fields[i].Obj? && "type" in fields[i].fields { Schema(fields[i].fields["type"]); }
        LookedTwice(g, UnionRender.FieldOccursUpTo(fields, i), Occurs(FieldType(fields[i])),
                    old(seen), old(deps), s1, d1, seen, deps);
        i := i + 1;
      }
      UnionRender.FieldOccursUpToAll(fields, |fields|);
      assert DefOccurs(d) == UnionRender.FieldOccursUpTo(fields, |fields|);
    }
  }

  /** composer.dependencies */
  method Dependencies(g: Graph, name: string) returns (deps: seq<string>)
    requires name in g.env && name in g.registered
    ensures Distinct(deps) && Elements(deps) == Deps(g, name)
  {
    var f := new Finder(g, name);
    f.Definition(g.env[name]);
    deps := f.deps;
    LookedIsDeps(g, name, f.seen, deps);
  }

  lemma {:induction false} LookedIsDeps(g: Graph, name: string, seen: set<string>, deps: seq<string>)
    requires name in g.env && name in g.registered
    requires Looked(g, DefOccurs(g.env[name]), {name}, [], seen, deps)
    ensures Elements(deps) == Deps(g, name)
  {
    var inline := Inline(g.At(name), name);
    InlineIsInline(g.At(name), name);
    InlineStaysInside(g.At(name), name);
    SeenCoversInline(g, name, seen, deps);
    var all := inline + Deps(g, name);
    forall x | x in all && x in g.env && (x !in g.registered || x == name)
      ensures DefOccurs(g.env[x]) * g.env.Keys <= all
    {
      forall y | y in DefOccurs(g.env[x]) * g.env.Keys ensures y in all {
        if y !in g.registered - {name} { assert y in Need(g.At(name), DefOccurs(g.env[x])); }
      }
    }
    assert LookedThrough(g, all) && seen <= all;
  }

  lemma {:induction false} SeenCoversInline(g: Graph, name: string, seen: set<string>, deps: seq<string>)
    requires name in g.env && name in g.registered
    requires Looked(g, DefOccurs(g.env[name]), {name}, [], seen, deps)
    ensures Inline(g.At(name), name) <= seen && Deps(g, name) <= seen
  {
    var cx := g.At(name);
    var j := seen - cx.ext;
    forall x | x in j && x in g.env
      ensures Need(cx, DefOccurs(g.env[x])) <= j && DefOccurs(g.env[x]) * g.env.Keys <= seen
    {
      if x != name { assert x in seen - {name} && x !in g.registered; }
    }
    assert Closed(cx, j);
    forall x | x in Inline(cx, name) ensures x in j {}
  }

  // ----- order -----

  /** Each type after the types it refers to. */
  ghost predicate Ordered(g: Graph, order: seq<string>) {
    Distinct(order) &&
    forall i | 0 <= i < |order| :: order[i] in g.registered && Deps(g, order[i]) <= Elements(order[..i])
  }

  /** Each name refers to the next. */
  ghost predicate Chain(g: Graph, p: seq<string>) { forall i | 0 <= i < |p| - 1 :: p[i + 1] in Deps(g, p[i]) }

  /** Starting at first, references lead back to a type already passed. */
  ghost predicate LeadsIntoCycle(g: Graph, first: string) { exists p :: CyclicWalk(g, first, p) }

  ghost predicate CyclicWalk(g: Graph, first: string, p: seq<string>) {
    p != [] && p[0] == first && Chain(g, p) && !Distinct(p)
  }

  ghost predicate DepsClosed(g: Graph, j: set<string>) { forall x | x in j && x in g.registered :: Deps(g, x) <= j }

  ghost predicate AllIn(xs: seq<string>, ys: seq<string>) { forall x | x in xs :: x in ys }

  lemma {:induction false} AllInMore(xs: seq<string>, i: nat, ys: seq<string>, more: seq<string>)
    requires i < |xs| && AllIn(xs[..i], ys) && AllIn(ys, more) && xs[i] in more
    ensures AllIn(xs[..i + 1], more)
  {
    assert xs[..i + 1] == xs[..i] + [xs[i]];
  }

  /** Only what is reached is ordered. */
  ghost predicate LeastOrder(g: Graph, order0: seq<string>, from: set<string>, order1: seq<string>) {
    forall j | DepsClosed(g, j) && Elements(order0) <= j && from <= j :: Elements(order1) <= j
  }

  /** The first k branches have a part of the order to themselves, its beginning: what they reach. */
  ghost predicate InBranchOrder(g: Graph, branches: seq<string>, order: seq<string>) {
    forall k | 0 <= k <= |branches| :: exists n :: 0 <= n <= |order| && Reaches(g, branches[..k], order[..n])
  }

  /** The order holds the branches and only what they reach. */
  ghost predicate Reaches(g: Graph, branches: seq<string>, order: seq<string>) {
    AllIn(branches, order) && LeastOrder(g, [], Elements(branches), order)
  }

  lemma {:induction false} NothingReached(g: Graph)
    ensures InBranchOrder(g, [], [])
  {
    var none: seq<string> := [];
    assert none[..0] == none && Reaches(g, none, none);
  }

  lemma {:induction false} OneMoreBranch(g: Graph, branches: seq<string>, i: nat, order0: seq<string>,
                                         order1: seq<string>)
    requires i < |branches| && InBranchOrder(g, branches[..i], order0) && Reaches(g, branches[..i], order0)
    requires order0 <= order1 && branches[i] in order1 && LeastOrder(g, order0, {branches[i]}, order1)
    ensures InBranchOrder(g, branches[..i + 1], order1) && Reaches(g, branches[..i + 1], order1)
  {
    var more := branches[..i + 1];
    assert more == branches[..i] + [branches[i]];
    forall j | DepsClosed(g, j) && Elements(more) <= j ensures Elements(order1) <= j {
      assert forall x | x in branches[..i] :: x in more;
      assert branches[i] in more && Elements(order0) <= j;
    }
    forall k | 0 <= k <= i + 1 ensures exists n :: 0 <= n <= |order1| && Reaches(g, more[..k], order1[..n]) {
      if k <= i {
        assert branches[..i][..k] == more[..k];
        var n :| 0 <= n <= |order0| && Reaches(g, branches[..i][..k], order0[..n]);
        assert order1[..n] == order0[..n];
      } else {
        assert more[..k] == more && order1[..|order1|] == order1;
      }
    }
  }

  lemma {:induction false} OrderedMore(g: Graph, order: seq<string>, name: string)
    requires Ordered(g, order) && name in g.registered && name !in order && Deps(g, name) <= Elements(order)
    ensures Ordered(g, order + [name])
  {
    var more := order + [name];
    forall i | 0 <= i < |more| ensures more[i] in g.registered && Deps(g, more[i]) <= Elements(more[..i]) {
      assert more[..i] == order[..i];
      if i == |order| { assert order[..i] == order; }
    }
  }

  /** In a good order, references only lead to earlier types. */
  lemma {:induction false} ChainDescends(g: Graph, order: seq<string>, p: seq<string>, i: nat, j: nat)
    requires Ordered(g, order) && Chain(g, p) && i < j < |p| && p[i] in order
    ensures p[j] in order && IndexOf(order, p[j]) < IndexOf(order, p[i])
    decreases j - i
  {
    if j == i + 1 {
      var at := IndexOf(order, p[i]);
      assert p[j] in Elements(order[..at]);
    } else {
      ChainDescends(g, order, p, i, j - 1);
      ChainDescends(g, order, p, j - 1, j);
    }
  }

  lemma {:induction false} OrderedHasNoCycle(g: Graph, order: seq<string>, first: string)
    requires Ordered(g, order) && first in order
    ensures !LeadsIntoCycle(g, first)
  {
    forall p ensures !CyclicWalk(g, first, p) {
      if CyclicWalk(g, first, p) {
        var i, j :| 0 <= i < j < |p| && p[i] == p[j];
        if i > 0 { ChainDescends(g, order, p, 0, i); }
        ChainDescends(g, order, p, i, j);
      }
    }
  }

  class Orderer {
    const g: Graph
    var order: seq<string>
    var state: map<string, int>

    constructor (g: Graph)
      ensures this.g == g && order == [] && state == map[]
    {
      this.g, order, state := g, [], map[];
    }

    /** 2 marks the ordered types, 1 those on the path to the type being visited. */
    ghost predicate Valid(path: seq<string>)
      reads this
    {
      Ordered(g, order) && state.Keys <= g.registered && (forall x | x in state :: state[x] == 1 || state[x] == 2) &&
      (forall x :: x in order <==> x in state && state[x] == 2) &&
      forall x :: x in path <==> x in state && state[x] == 1
    }

    /** The inner function visit of composer.order. */
    method Visit(name: string, path: seq<string>) returns (ok: bool)
      requires g.registered <= g.env.Keys && name in g.registered && Valid(path) && Chain(g, path + [name])
      modifies this
      ensures old(state.Keys) <= state.Keys
      ensures ok ==> Valid(path) && name in order && AllIn(old(order), order)
      ensures ok ==> LeastOrder(g, old(order), {name}, order) && old(order) <= order
      ensures !ok ==> LeadsIntoCycle(g, (path + [name])[0])
      decreases g.registered - state.Keys
    {
      if name in state && state[name] == 2 { return true; }
      var onward := path + [name];
      if name in state && state[name] == 1 {
        var i :| 0 <= i < |path| && path[i] == name;
        assert onward[i] == onward[|path|];
        assert CyclicWalk(g, onward[0], onward);
        return false;
      }
      state := state[name := 1];
      var deps := Dependencies(g, name);
      var i: nat := 0;
      while i < |deps|
        invariant i <= |deps| && Valid(onward) && old(state.Keys) + {name} <= state.Keys
        invariant old(order) <= order && AllIn(old(order), order)
        invariant AllIn(deps[..i], order)
        invariant LeastOrder(g, old(order), {name}, order)
      {
        assert deps[i] in Elements(deps);
        ChainMore(g, onward, deps[i]);
        ghost var order1 := order;
        ok := Visit(deps[i], onward);
        if !ok { return false; }
        LeastMore(g, old(order), name, order1, deps[i], order);
        AllInMore(deps, i, order1, order);
        i := i + 1;
      }
      assert deps[..i] == deps;
      Finish(name, path, deps);
      ok := true;
    }

    method Finish(name: string, path: seq<string>, ghost deps: seq<string>)
      requires Valid(path + [name]) && name in g.registered && name !in path
      requires Elements(deps) == Deps(g, name) && AllIn(deps, order)
      modifies this
      ensures Valid(path) && order == old(order) + [name] && state == old(state)[name := 2]
    {
      assert name in path + [name] && name !in order;
      OrderedMore(g, order, name);
      assert forall x :: x in path + [name] <==> x in path || x == name;
      state := state[name := 2];
      order := order + [name];
    }
  }

  lemma {:induction false} ChainMore(g: Graph, p: seq<string>, next: string)
    requires p != [] && Chain(g, p) && next in Deps(g, p[|p| - 1])
    ensures Chain(g, p + [next])
  {
    var more := p + [next];
    forall i | 0 <= i < |more| - 1 ensures more[i + 1] in Deps(g, more[i]) {
      if i < |p| - 1 { assert p[i + 1] in Deps(g, p[i]); }
    }
  }

  lemma {:induction false} LeastMore(g: Graph, order0: seq<string>, name: string, order1: seq<string>, dep: string,
                                     order2: seq<string>)
    requires name in g.registered && dep in Deps(g, name)
    requires LeastOrder(g, order0, {name}, order1) && LeastOrder(g, order1, {dep}, order2)
    ensures LeastOrder(g, order0, {name}, order2)
  {
    forall j | DepsClosed(g, j) && Elements(order0) <= j && {name} <= j ensures Elements(order2) <= j {
      assert Elements(order1) <= j && dep in j;
    }
  }

  /** composer.order: it succeeds exactly when no branch's references lead into a cycle, and then
      orders what the branches reach, each type after the types it refers to. */
  method Order(g: Graph, branches: seq<string>) returns (order: Option<seq<string>>)
    requires g.registered <= g.env.Keys && Elements(branches) <= g.registered
    ensures order.None? <==> exists b | b in branches :: LeadsIntoCycle(g, b)
    ensures order.Some? ==> Ordered(g, order.value) && Elements(branches) <= Elements(order.value)
    ensures order.Some? ==> LeastOrder(g, [], Elements(branches), order.value)
    ensures order.Some? ==> InBranchOrder(g, branches, order.value)
  {
    var o := new Orderer(g);
    var i: nat := 0;
    NothingReached(g);
    assert branches[..0] == [];
    while i < |branches|
      invariant i <= |branches| && o.Valid([]) && o.g == g
      invariant Reaches(g, branches[..i], o.order) && InBranchOrder(g, branches[..i], o.order)
    {
      assert branches[i] in Elements(branches) && [] + [branches[i]] == [branches[i]];
      ghost var order1 := o.order;
      var ok := o.Visit(branches[i], []);
      if !ok { return None; }
      OneMoreBranch(g, branches, i, order1, o.order);
      i := i + 1;
    }
    assert branches[..i] == branches;
    forall b | b in branches ensures !LeadsIntoCycle(g, b) { OrderedHasNoCycle(g, o.order, b); }
    order := Some(o.order);
  }
}
