/** What an allOf merge holds under each keyword, over the whole fold (internal/generator/merge.go):
    which branch's value stands, and in what order the properties are declared. */
module AllOfKeywords {
  import opened JsonValues
  import opened Sorting
  import opened PropertyOrder
  import opened SchemaTypes
  import opened SchemaMerge
  import opened AllOfMeaning

  /** A keyword that has no rule of its own. */
  predicate Unruled(k: string) {
    !IsBound(k) && k != "required" && k != "properties" && k != "type" && k != "const" &&
    k != ORDER_KEYWORD && k != LITERAL_KEYWORD
  }

  ghost predicate Has(branches: seq<Json>, i: nat, k: string)
    requires i < |branches|
  {
    branches[i].Obj? && k in branches[i].fields
  }

  /** i is the last branch with the keyword. */
  ghost predicate LastWith(branches: seq<Json>, i: nat, k: string)
    requires i < |branches|
  {
    Has(branches, i, k) && forall j | i < j < |branches| :: !Has(branches, j, k)
  }

  /** The latter of two schemas has its way, the former only where the latter is silent. */
  lemma {:induction false} LatterStands(a: Node, b: Node, k: string)
    requires Merge(a, b).Some? && Unruled(k)
    ensures var m := Merge(a, b).value;
            (k in m <==> k in a || k in b) && (k in b ==> m[k] == b[k]) && (k in a && k !in b ==> m[k] == a[k])
  {
    MergedAt(a, b, k);
  }

  /** The fold's last turn. */
  lemma {:induction false} LastMerge(branches: seq<Json>)
    requires MergeAll(branches).Some? && branches != []
    ensures var n := |branches| - 1;
            && MergeAll(branches[..n]).Some? && branches[n].Obj?
            && MergeAll(branches) == Merge(MergeAll(branches[..n]).value, branches[n].fields)
  {
  }

  /** m holds under k what the last branch that has it holds, and nothing where none has it. */
  ghost predicate HoldsLast(m: Node, branches: seq<Json>, k: string) {
    (k in m <==> SomeHas(branches, k)) &&
    forall i | 0 <= i < |branches| && LastWith(branches, i, k) :: k in m && m[k] == branches[i].fields[k]
  }

  /** Under a keyword without a rule of its own the last branch that has it stands. */
  lemma {:induction false} LastBranchStands(branches: seq<Json>, k: string)
    requires MergeAll(branches).Some? && Unruled(k)
    ensures HoldsLast(MergeAll(branches).value, branches, k)
  {
    if branches != [] {
      var n := |branches| - 1;
      LastMerge(branches);
      var before := MergeAll(branches[..n]).value;
      LatterStands(before, branches[n].fields, k);
      LastBranchStands(branches[..n], k);
      HoldsFurther(before, MergeAll(branches).value, branches, k);
    }
  }

  lemma {:induction false} HoldsFurther(before: Node, m: Node, branches: seq<Json>, k: string)
    requires branches != [] && HoldsLast(before, branches[..|branches| - 1], k) && branches[|branches| - 1].Obj?
    requires var last := branches[|branches| - 1].fields;
             (k in m <==> k in before || k in last) && (k in last ==> m[k] == last[k]) &&
             (k in before && k !in last ==> m[k] == before[k])
    ensures HoldsLast(m, branches, k)
  {
    var init := branches[..|branches| - 1];
    SomeHasMore(branches, k);
    forall i | 0 <= i < |branches| && LastWith(branches, i, k) ensures k in m && m[k] == branches[i].fields[k] {
      if i < |init| { StillLast(branches, init, i, k); }
    }
  }

  ghost predicate SomeHas(branches: seq<Json>, k: string) { exists j :: 0 <= j < |branches| && Has(branches, j, k) }

  lemma {:induction false} SomeHasMore(branches: seq<Json>, k: string)
    requires branches != []
    ensures SomeHas(branches, k) <==>
              SomeHas(branches[..|branches| - 1], k) || Has(branches, |branches| - 1, k)
  {
    var init := branches[..|branches| - 1];
    SameBefore(branches, init, k);
    if j :| 0 <= j < |init| && Has(init, j, k) { assert Has(branches, j, k); }
    if j :| 0 <= j < |branches| && Has(branches, j, k) && j < |init| { assert Has(init, j, k); }
  }

  lemma {:induction false} SameBefore(branches: seq<Json>, init: seq<Json>, k: string)
    requires init <= branches
    ensures forall j | 0 <= j < |init| :: Has(init, j, k) == Has(branches, j, k)
    ensures forall j | 0 <= j < |init| :: HasTree(init, j, k) == HasTree(branches, j, k)
  {
  }

  lemma {:induction false} StillLast(branches: seq<Json>, init: seq<Json>, i: nat, k: string)
    requires init < branches && i < |init|
    ensures LastWith(branches, i, k) ==> LastWith(init, i, k) && !Has(branches, |branches| - 1, k)
    ensures LastTree(branches, i, k) ==> LastTree(init, i, k) && !HasTree(branches, |branches| - 1, k)
  {
    SameBefore(branches, init, k);
  }

  // ----- Ruled keywords of the wrong kind -----

  /** Bounds that are no numbers do not intersect: the latter stands. Required lists that are no
      lists do not unite: the former stands. */
  lemma {:induction false} OddKinds(a: Node, b: Node, k: string)
    requires Merge(a, b).Some? && k in a && k in b
    requires k != ORDER_KEYWORD
    ensures k in Merge(a, b).value
    ensures IsBound(k) && !(a[k].Num? && b[k].Num?) ==> Merge(a, b).value[k] == b[k]
    ensures k == "required" && !(a[k].Arr? && b[k].Arr?) ==> Merge(a, b).value[k] == a[k]
  {
    MergedAt(a, b, k);
  }

  // ----- Literal order trees -----

  ghost predicate HasTree(branches: seq<Json>, i: nat, k: string)
    requires i < |branches|
  {
    Has(branches, i, LITERAL_KEYWORD) && branches[i].fields[LITERAL_KEYWORD].Obj? &&
    k in branches[i].fields[LITERAL_KEYWORD].fields
  }

  ghost predicate LastTree(branches: seq<Json>, i: nat, k: string)
    requires i < |branches|
  {
    HasTree(branches, i, k) && forall j | i < j < |branches| :: !HasTree(branches, j, k)
  }

  function TreesOf(m: Node): Node { NodeAt(m, LITERAL_KEYWORD).GetOr(map[]) }

  lemma {:induction false} LatterTree(a: Node, b: Node)
    requires Merge(a, b).Some?
    ensures TreesOf(Merge(a, b).value) == TreesOf(a) + TreesOf(b)
  {
    MergedAt(a, b, LITERAL_KEYWORD);
    assert map[] + TreesOf(b) == TreesOf(b) && TreesOf(a) + map[] == TreesOf(a);
  }

  ghost predicate SomeTree(branches: seq<Json>, k: string) {
    exists j :: 0 <= j < |branches| && HasTree(branches, j, k)
  }

  ghost predicate HoldsLastTree(trees: Node, branches: seq<Json>, k: string) {
    (k in trees <==> SomeTree(branches, k)) &&
    forall i | 0 <= i < |branches| && LastTree(branches, i, k) ::
      k in trees && trees[k] == branches[i].fields[LITERAL_KEYWORD].fields[k]
  }

  /** Of the trees recorded for a literal, that of the last branch stands, as its literal does. */
  lemma {:induction false} LastTreeStands(branches: seq<Json>, k: string)
    requires MergeAll(branches).Some?
    ensures HoldsLastTree(TreesOf(MergeAll(branches).value), branches, k)
  {
    if branches != [] {
      var n := |branches| - 1;
      LastMerge(branches);
      var before := MergeAll(branches[..n]).value;
      LatterTree(before, branches[n].fields);
      LastTreeStands(branches[..n], k);
      TreesFurther(TreesOf(before), branches, k);
    }
  }

  lemma {:induction false} TreesFurther(before: Node, branches: seq<Json>, k: string)
    requires branches != [] && branches[|branches| - 1].Obj?
    requires HoldsLastTree(before, branches[..|branches| - 1], k)
    ensures HoldsLastTree(before + TreesOf(branches[|branches| - 1].fields), branches, k)
  {
    var init, n := branches[..|branches| - 1], |branches| - 1;
    SameBefore(branches, init, k);
    assert HasTree(branches, n, k) <==> k in TreesOf(branches[n].fields);
    if j :| 0 <= j < n && HasTree(init, j, k) { assert HasTree(branches, j, k); }
    if j :| 0 <= j < n && HasTree(branches, j, k) { assert HasTree(init, j, k); }
    forall i | 0 <= i < n && LastTree(branches, i, k)
      ensures k in before && before[k] == branches[i].fields[LITERAL_KEYWORD].fields[k] &&
              k !in TreesOf(branches[n].fields)
    {
      StillLast(branches, init, i, k);
    }
  }

  // ----- The order of the properties -----

  ghost function Order(m: Node): seq<string> { DeclaredOrder(m, PropsOf(m).Keys) }

  /** The names of a list of strings stand in the order they are first listed in, once each. */
  lemma {:induction false} UniqueInOrder(list: seq<Json>)
    ensures Distinct(UniqueNames(list)) && forall x :: x in UniqueNames(list) <==> Str(x) in list
    ensures forall p, q, i, j | 0 <= p < q < |UniqueNames(list)| && FirstAt(list, UniqueNames(list)[p], i)
              && FirstAt(list, UniqueNames(list)[q], j) :: i < j
  {
    UniqueNamesExact(list);
    if list != [] {
      var n := |list| - 1;
      var init, names := list[..n], UniqueNames(list);
      UniqueInOrder(init);
      forall p, q, i, j | 0 <= p < q < |names| && FirstAt(list, names[p], i) && FirstAt(list, names[q], j)
        ensures i < j
      {
        FirstInInit(list, names[p], i);
        FirstInInit(list, names[q], j);
        assert names[p] == UniqueNames(init)[p] && names[p] in UniqueNames(init);
      }
    }
  }

  lemma {:induction false} FirstInInit(list: seq<Json>, x: string, i: int)
    requires FirstAt(list, x, i)
    ensures i < |list| - 1 <==> Str(x) in list[..|list| - 1]
    ensures i < |list| - 1 ==> FirstAt(list[..|list| - 1], x, i)
  {
    var init := list[..|list| - 1];
    if i < |list| - 1 { assert init[i] == Str(x); }
    if Str(x) in init {
      var k :| 0 <= k < |init| && init[k] == Str(x);
      assert list[k] == Str(x);
    }
  }

  /** Names already listed once are listed as they are, before what is added. */
  lemma {:induction false} UniqueAgain(x: seq<Json>, y: seq<Json>)
    ensures UniqueNames(Strs(UniqueNames(x)) + y) == UniqueNames(x + y)
    decreases |y|
  {
    if y == [] {
      assert Strs(UniqueNames(x)) + y == Strs(UniqueNames(x)) && x + y == x;
      UniqueNamesExact(x);
      DistinctAreUnique(UniqueNames(x));
    } else {
      var n := |y| - 1;
      UniqueAgain(x, y[..n]);
      LastListed(x, y);
      LastListed(Strs(UniqueNames(x)), y);
    }
  }

  lemma {:induction false} LastListed(x: seq<Json>, y: seq<Json>)
    requires y != []
    ensures var before, last := UniqueNames(x + y[..|y| - 1]), y[|y| - 1];
            UniqueNames(x + y) == if last.Str? && last.s !in before then before + [last.s] else before
  {
    UniqueStep(x + y[..|y| - 1], y[|y| - 1]);
    assert x + y == (x + y[..|y| - 1]) + [y[|y| - 1]];
  }

  lemma {:induction false} DistinctAreUnique(names: seq<string>)
    requires Distinct(names)
    ensures UniqueNames(Strs(names)) == names
  {
    if names != [] {
      var n := |names| - 1;
      DistinctAreUnique(names[..n]);
      assert Strs(names) == Strs(names[..n]) + [Str(names[n])];
      UniqueStep(Strs(names[..n]), Str(names[n]));
      assert names == names[..n] + [names[n]];
    }
  }

  /** Recorded names that are all the properties, each once, are the order. */
  lemma {:induction false} AllRecorded(names: seq<string>, props: set<string>)
    requires Distinct(names) && Elements(names) == props
    ensures OrderBy(Strs(names), props) == names
  {
    PickedAll(names, props);
    assert props - Elements(names) == {};
  }

  lemma {:induction false} PickedAll(names: seq<string>, props: set<string>)
    requires Distinct(names) && Elements(names) <= props
    ensures Picked(Strs(names), props) == names
  {
    if names != [] {
      var n := |names| - 1;
      assert forall x | x in names[..n] :: x in Elements(names);
      assert names[n] in Elements(names) && names[n] !in names[..n];
      PickedAll(names[..n], props);
      assert Strs(names)[..n] == Strs(names[..n]);
      assert names == names[..n] + [names[n]];
    }
  }

  /** The properties of a merge are those of both. */
  lemma {:induction false} MergedProps(a: Node, b: Node)
    requires Merge(a, b).Some?
    ensures PropsOf(Merge(a, b).value).Keys == PropsOf(a).Keys + PropsOf(b).Keys
  {
    MergedAt(a, b, "properties");
    if "properties" in a && "properties" in b { assert MergeProps(PropsOf(a), PropsOf(b)).Some?; }
  }

  lemma {:induction false} OrderRecorded(a: Node, b: Node)
    requires Merge(a, b).Some? && (NodeAt(a, "properties").Some? || NodeAt(b, "properties").Some?)
    ensures Recorded(Merge(a, b).value) == Strs(UniqueNames(Strs(Order(a) + Order(b))))
  {
  }

  lemma {:induction false} MergedOrderIs(a: Node, b: Node)
    requires Merge(a, b).Some?
    ensures Order(Merge(a, b).value) == UniqueNames(Strs(Order(a) + Order(b)))
  {
    var m := Merge(a, b).value;
    MergedProps(a, b);
    OrderByShape(Recorded(a), PropsOf(a).Keys);
    OrderByShape(Recorded(b), PropsOf(b).Keys);
    OrdersTogether(Order(a), Order(b));
    if NodeAt(a, "properties").Some? || NodeAt(b, "properties").Some? {
      OrderRecorded(a, b);
      AllRecorded(UniqueNames(Strs(Order(a) + Order(b))), PropsOf(m).Keys);
    } else {
      NothingOrdered(m);
      NothingOrdered(a);
      NothingOrdered(b);
      assert UniqueNames(Strs([])) == [];
    }
  }

  lemma {:induction false} NothingOrdered(m: Node)
    requires PropsOf(m).Keys == {}
    ensures Order(m) == []
  {
    OrderByShape(Recorded(m), {});
    SomeElement(Order(m));
  }

  lemma {:induction false} SomeElement(names: seq<string>)
    ensures names == [] || Elements(names) != {}
  {
    if names != [] { assert names[0] in Elements(names); }
  }

  lemma {:induction false} OrdersTogether(x: seq<string>, y: seq<string>)
    ensures Distinct(UniqueNames(Strs(x + y))) && Elements(UniqueNames(Strs(x + y))) == Elements(x) + Elements(y)
  {
    var all := Strs(x + y);
    UniqueNamesExact(all);
    forall n ensures n in UniqueNames(all) <==> n in x || n in y {
      if n in x || n in y {
        assert n in x + y;
        var i :| 0 <= i < |x + y| && (x + y)[i] == n;
        assert all[i] == Str(n);
      }
    }
  }

  /** What the branches declare, one after the other. */
  ghost function Mentions(branches: seq<Json>): seq<string> {
    if branches == [] then [] else
      var last := branches[|branches| - 1];
      Mentions(branches[..|branches| - 1]) + if last.Obj? then Order(last.fields) else []
  }

  /** A merge declares the properties of its branches in branch order, each where the first branch
      that has it declares it. */
  lemma {:induction false} BranchOrderStands(branches: seq<Json>)
    requires MergeAll(branches).Some?
    ensures Order(MergeAll(branches).value) == UniqueNames(Strs(Mentions(branches)))
  {
    if branches == [] {
      NothingOrdered(map[]);
    } else {
      var n := |branches| - 1;
      LastMerge(branches);
      BranchOrderStands(branches[..n]);
      MergedOrderIs(MergeAll(branches[..n]).value, branches[n].fields);
      ListedFurther(Mentions(branches[..n]), Order(branches[n].fields));
    }
  }

  lemma {:induction false} ListedFurther(x: seq<string>, y: seq<string>)
    ensures UniqueNames(Strs(UniqueNames(Strs(x)) + y)) == UniqueNames(Strs(x + y))
  {
    UniqueAgain(Strs(x), Strs(y));
    assert Strs(UniqueNames(Strs(x)) + y) == Strs(UniqueNames(Strs(x))) + Strs(y);
    assert Strs(x + y) == Strs(x) + Strs(y);
  }

  // ----- The types left -----

  ghost predicate Precedes(xs: seq<string>, x: string, y: string) {
    exists p, q :: 0 <= p < q < |xs| && xs[p] == x && xs[q] == y
  }

  /** Types both allow stay in the order of the former's list. */
  lemma {:induction false} FormersOrder(a: seq<string>, b: seq<string>, i: nat, j: nat)
    requires Distinct(a) && i < j < |a| && a[i] in b && a[j] in b
    ensures Precedes(Common(a, b), a[i], a[j])
  {
    var n := |a| - 1;
    var init, both := a[..n], Common(a[..n], b);
    assert both <= Common(a, b);
    if j < n {
      FormersOrder(init, b, i, j);
      PrecedesStill(both, Common(a, b), a[i], a[j]);
    } else {
      assert init[i] == a[i] && a[i] in both;
      PrecedesLast(both, a[i], a[j]);
    }
  }

  lemma {:induction false} PrecedesStill(xs: seq<string>, ys: seq<string>, x: string, y: string)
    requires xs <= ys && Precedes(xs, x, y)
    ensures Precedes(ys, x, y)
  {
    var p, q :| 0 <= p < q < |xs| && xs[p] == x && xs[q] == y;
    assert ys[p] == x && ys[q] == y;
  }

  lemma {:induction false} PrecedesLast(xs: seq<string>, x: string, y: string)
    requires x in xs
    ensures Precedes(xs + [y], x, y)
  {
    var p :| 0 <= p < |xs| && xs[p] == x;
    assert (xs + [y])[p] == x && (xs + [y])[|xs|] == y;
  }
}
