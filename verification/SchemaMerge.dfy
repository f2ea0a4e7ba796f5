/** allOf merging (internal/generator/merge.go): schemas intersect keyword by keyword. */
module SchemaMerge {
  import opened JsonValues
  import opened Sorting
  import opened PropertyOrder
  import opened SchemaTypes

  /** The strings of a list, each once, in order of first occurrence. */
  ghost function UniqueNames(list: seq<Json>): seq<string> {
    if list == [] then [] else
      var before := UniqueNames(list[..|list| - 1]);
      var last := list[|list| - 1];
      if last.Str? && last.s !in before then before + [last.s] else before
  }

  lemma {:induction false} UniqueNamesExact(list: seq<Json>)
    ensures Distinct(UniqueNames(list))
    ensures forall x :: x in UniqueNames(list) <==> Str(x) in list
  {
    if list != [] {
      UniqueNamesExact(list[..|list| - 1]);
      assert list == list[..|list| - 1] + [list[|list| - 1]];
    }
  }

  /** The order a merge declares its properties in: a's, then those b adds. */
  ghost function MergedOrder(a: Node, b: Node): Json {
    Arr(Strs(UniqueNames(Strs(DeclaredOrder(a, PropsOf(a).Keys) + DeclaredOrder(b, PropsOf(b).Keys)))))
  }

  function PropsOf(s: Node): Node { NodeAt(s, "properties").GetOr(map[]) }

  predicate IsLower(k: string) { k == "minimum" || k == "exclusiveMinimum" }

  predicate IsUpper(k: string) { k == "maximum" || k == "exclusiveMaximum" }

  function MaxReal(x: real, y: real): real { if x < y then y else x }

  function MinReal(x: real, y: real): real { if x < y then x else y }

  /** mergeTwoSchemas: None when the schemas cannot be merged. */
  ghost function Merge(a: Node, b: Node): Option<Node>
    decreases Height(Obj(a)), 4
  {
    if exists k | k in b && k != ORDER_KEYWORD :: MergeKey(a, b, k).None? then None
    else Some(Ordered(a, b, Combined(a, b)))
  }

  ghost function Combined(a: Node, b: Node): Node
    requires forall k | k in b && k != ORDER_KEYWORD :: MergeKey(a, b, k).Some?
    decreases Height(Obj(a)), 3
  {
    map k | k in a.Keys + (b.Keys - {ORDER_KEYWORD}) ::
      if k in b && k != ORDER_KEYWORD then MergeKey(a, b, k).value else a[k]
  }

  /** The merge lists the properties in order when either schema declares any. */
  ghost function Ordered(a: Node, b: Node, out: Node): Node {
    if NodeAt(a, "properties").Some? || NodeAt(b, "properties").Some?
    then out[ORDER_KEYWORD := MergedOrder(a, b)] else out
  }

  /** What the merge holds under a key of b. */
  ghost function MergeKey(a: Node, b: Node, k: string): Option<Json>
    requires k in b
    decreases Height(Obj(a)), 2
  {
    if k !in a then
      if k == LITERAL_KEYWORD && !b[k].Obj? then None else Some(b[k])
    else if IsLower(k) then
      Some(if a[k].Num? && b[k].Num? then Num(MaxReal(a[k].n, b[k].n)) else b[k])
    else if IsUpper(k) then
      Some(if a[k].Num? && b[k].Num? then Num(MinReal(a[k].n, b[k].n)) else b[k])
    else if k == "required" then
      Some(if a[k].Arr? && b[k].Arr? then Arr(Strs(UniqueNames(a[k].items + b[k].items))) else a[k])
    else if k == "properties" then
      if a[k].Obj? && b[k].Obj? then
        HeightField(a, k);
        var m := MergeProps(a[k].fields, b[k].fields);
        if m.Some? then Some(Obj(m.value)) else None
      else None
    else if k == "type" then Intersect(a[k], b[k])
    else if k == "const" then if a[k] == b[k] then Some(a[k]) else None
    else if k == LITERAL_KEYWORD then
      if b[k].Obj? then Some(Obj((if a[k].Obj? then a[k].fields else map[]) + b[k].fields)) else None
    else Some(b[k])
  }

  /** mergeProperties where both schemas declare properties. */
  ghost function MergeProps(em: Node, vm: Node): Option<Node>
    decreases Height(Obj(em)), 2
  {
    if exists n | n in em && n in vm :: MergeProp(em, vm, n).None? then None else Some(CombinedProps(em, vm))
  }

  ghost function CombinedProps(em: Node, vm: Node): Node
    requires forall n | n in em && n in vm :: MergeProp(em, vm, n).Some?
    decreases Height(Obj(em)), 1
  {
    map n | n in em.Keys + vm.Keys ::
      if n in em && n in vm then Obj(MergeProp(em, vm, n).value) else if n in em then em[n] else vm[n]
  }

  ghost function MergeProp(em: Node, vm: Node, n: string): Option<Node>
    requires n in em && n in vm
    decreases Height(Obj(em)), 0
  {
    HeightField(em, n);
    if em[n].Obj? && vm[n].Obj? then Merge(em[n].fields, vm[n].fields) else None
  }

  /** mergeSchemas: the branches folded left to right from an empty schema. */
  ghost function MergeAll(branches: seq<Json>): Option<Node> {
    if branches == [] then Some(map[]) else
      var before := MergeAll(branches[..|branches| - 1]);
      var last := branches[|branches| - 1];
      if before.Some? && last.Obj? then Merge(before.value, last.fields) else None
  }

  // ----- A merge is never deeper than what it merges -----

  lemma HeightOfNames(names: seq<string>)
    ensures Height(Arr(Strs(names))) <= 1
  {
    HeightArrBound(Strs(names), 1);
  }

  lemma {:induction false} MergeKeyHeight(a: Node, b: Node, k: string, h: nat)
    requires k in b && MergeKey(a, b, k).Some?
    requires Height(Obj(a)) <= h && Height(Obj(b)) <= h
    ensures Height(MergeKey(a, b, k).value) < h
    decreases Height(Obj(a)), 2
  {
    HeightField(b, k);
    if k in a {
      HeightField(a, k);
      if k == "required" && a[k].Arr? && b[k].Arr? {
        HeightOfNames(UniqueNames(a[k].items + b[k].items));
      } else if k == "properties" {
        MergePropsHeight(a[k].fields, b[k].fields, h - 1);
      } else if k == "type" {
        IntersectHeight(a[k], b[k]);
      } else if k == LITERAL_KEYWORD {
        TreesHeight(if a[k].Obj? then a[k].fields else map[], b[k].fields, h - 1);
      }
    }
  }

  lemma {:induction false} IntersectHeight(a: Json, b: Json)
    requires Intersect(a, b).Some?
    ensures Height(Intersect(a, b).value) <= Height(a)
  {
    var both := Common(TypesOf(a).value, TypesOf(b).value);
    HeightOfNames(both);
    assert a.Str? ==> |both| <= 1;
  }

  lemma {:induction false} TreesHeight(a: Node, b: Node, h: nat)
    requires h >= 1 && (a == map[] || Height(Obj(a)) <= h) && Height(Obj(b)) <= h
    ensures Height(Obj(a + b)) <= h
  {
    var trees := a + b;
    forall j | j in trees ensures Height(trees[j]) < h {
      if j in b { HeightField(b, j); } else { HeightField(a, j); }
    }
    HeightObjBound(trees, h);
  }

  lemma {:induction false} MergePropsHeight(em: Node, vm: Node, h: nat)
    requires MergeProps(em, vm).Some?
    requires Height(Obj(em)) <= h && Height(Obj(vm)) <= h
    ensures Height(Obj(MergeProps(em, vm).value)) <= h
    decreases Height(Obj(em)), 1
  {
    var out := MergeProps(em, vm).value;
    forall n | n in out ensures Height(out[n]) < h {
      if n in em { HeightField(em, n); }
      if n in vm { HeightField(vm, n); }
      if n in em && n in vm {
        assert MergeProp(em, vm, n).Some?;
        MergeHeight(em[n].fields, vm[n].fields, h - 1);
      }
    }
    HeightObjBound(out, h);
  }

  lemma {:induction false} MergeHeight(a: Node, b: Node, h: nat)
    requires Merge(a, b).Some?
    requires Height(Obj(a)) <= h && Height(Obj(b)) <= h
    ensures Height(Obj(Merge(a, b).value)) <= h
    decreases Height(Obj(a)), 3
  {
    var out := Combined(a, b);
    forall k | k in out ensures Height(out[k]) < h {
      if k in b && k != ORDER_KEYWORD { MergeKeyHeight(a, b, k, h); } else { HeightField(a, k); }
    }
    OrderedHeight(a, b, out, h);
  }

  lemma {:induction false} OrderedHeight(a: Node, b: Node, out: Node, h: nat)
    requires Height(Obj(a)) <= h && Height(Obj(b)) <= h && forall k | k in out :: Height(out[k]) < h
    ensures Height(Obj(Ordered(a, b, out))) <= h
  {
    if NodeAt(a, "properties").Some? || NodeAt(b, "properties").Some? {
      HeightOfNames(UniqueNames(Strs(DeclaredOrder(a, PropsOf(a).Keys) + DeclaredOrder(b, PropsOf(b).Keys))));
      if NodeAt(a, "properties").Some? { HeightField(a, "properties"); } else { HeightField(b, "properties"); }
    }
    HeightObjBound(Ordered(a, b, out), h);
  }

  /** The merge of an allOf list is no deeper than the list, so strictly shallower than the
      schema that declares it. */
  lemma {:induction false} MergeAllHeight(branches: seq<Json>)
    requires MergeAll(branches).Some?
    ensures Height(Obj(MergeAll(branches).value)) <= Height(Arr(branches))
  {
    MergeAllBound(branches, Height(Arr(branches)), branches);
  }

  lemma {:induction false} MergeAllBound(branches: seq<Json>, h: nat, all: seq<Json>)
    requires MergeAll(branches).Some? && branches <= all && h == Height(Arr(all))
    ensures Height(Obj(MergeAll(branches).value)) <= h
  {
    var none: Node := map[];
    HeightObjBound(none, 1);
    if branches != [] {
      var n := |branches| - 1;
      MergeAllBound(branches[..n], h, all);
      HeightItem(all, n);
      MergeHeight(MergeAll(branches[..n]).value, branches[n].fields, h);
    }
  }

  lemma AllOfShrinks(s: Node)
    requires ListAt(s, "allOf").Some? && MergeAll(ListAt(s, "allOf").value).Some?
    ensures Height(Obj(MergeAll(ListAt(s, "allOf").value).value)) < Height(Obj(s))
  {
    MergeAllHeight(ListAt(s, "allOf").value);
    HeightField(s, "allOf");
  }

  // ----- The loops of merge.go -----

  lemma UniqueStep(list: seq<Json>, x: Json)
    ensures UniqueNames(list + [x]) ==
              if x.Str? && x.s !in UniqueNames(list) then UniqueNames(list) + [x.s] else UniqueNames(list)
  {
    assert (list + [x])[..|list|] == list;
  }

  method UnionRequired(ea: seq<Json>, va: seq<Json>) returns (r: seq<Json>)
    ensures r == Strs(UniqueNames(ea + va))
  {
    var out, seen := AddUnique(ea, [], {}, []);
    assert [] + ea == ea;
    out, seen := AddUnique(va, out, seen, ea);
    r := Strs(out);
  }

  lemma {:induction false} UniqueFurther(done: seq<Json>, list: seq<Json>, i: nat)
    requires i < |list|
    ensures var before := UniqueNames(done + list[..i]);
            UniqueNames(done + list[..i + 1]) ==
              if list[i].Str? && list[i].s !in before then before + [list[i].s] else before
  {
    UniqueStep(done + list[..i], list[i]);
    assert done + list[..i + 1] == (done + list[..i]) + [list[i]];
  }

  /** One pass of unionRequired over a list, after the names of done. */
  method AddUnique(list: seq<Json>, have: seq<string>, listed: set<string>, ghost done: seq<Json>)
    returns (out: seq<string>, seen: set<string>)
    requires have == UniqueNames(done) && listed == Elements(have)
    ensures out == UniqueNames(done + list) && seen == Elements(out)
  {
    out, seen := have, listed;
    assert done + list[..0] == done;
    for i := 0 to |list|
      invariant out == UniqueNames(done + list[..i]) && seen == Elements(out)
    {
      UniqueFurther(done, list, i);
      if list[i].Str? && list[i].s !in seen {
        ElementsSnoc(out, list[i].s);
        seen := seen + {list[i].s};
        out := out + [list[i].s];
      }
    }
    TakenWhole(done, list);
  }

  lemma {:induction false} TakenWhole(done: seq<Json>, list: seq<Json>)
    ensures done + list[..|list|] == done + list
  {
  }

  /** The merge after the keys of b outside todo, as mergeTwoSchemas builds it. */
  ghost predicate MergedSoFar(a: Node, b: Node, todo: set<string>, out: Node) {
    && out.Keys == a.Keys + (b.Keys - todo - {ORDER_KEYWORD})
    && (forall k | k in b && k !in todo && k != ORDER_KEYWORD ::
          MergeKey(a, b, k).Some? && out[k] == MergeKey(a, b, k).value)
    && (forall k | k in a && (k !in b || k in todo || k == ORDER_KEYWORD) :: out[k] == a[k])
  }

  lemma MergedWhole(a: Node, b: Node, out: Node)
    requires MergedSoFar(a, b, {}, out)
    ensures Merge(a, b) == Some(Ordered(a, b, out))
  {
    assert out == Combined(a, b);
  }

  method MergeTwoSchemas(a: Node, b: Node) returns (r: Option<Node>)
    ensures r == Merge(a, b)
    decreases Height(Obj(a)), 3
  {
    var out := a;
    var todo := b.Keys;
    while todo != {}
      invariant todo <= b.Keys && MergedSoFar(a, b, todo, out)
    {
      var k :| k in todo;
      todo := todo - {k};
      if k != ORDER_KEYWORD {
        var v := MergeOne(a, b, k);
        if v.None? { return None; }
        out := out[k := v.value];
      }
    }
    MergedWhole(a, b, out);
    if NodeAt(a, "properties").Some? || NodeAt(b, "properties").Some? {
      var names := MergeOrders(a, b);
      out := out[ORDER_KEYWORD := names];
    }
    r := Some(out);
  }

  method MergeOrders(a: Node, b: Node) returns (r: Json)
    ensures r == MergedOrder(a, b)
  {
    var da := ReadDeclaredOrder(a, PropsOf(a).Keys);
    var db := ReadDeclaredOrder(b, PropsOf(b).Keys);
    var names, _ := AddUnique(Strs(da + db), [], {}, []);
    assert [] + Strs(da + db) == Strs(da + db);
    r := Arr(Strs(names));
  }

  method MergeOne(a: Node, b: Node, k: string) returns (r: Option<Json>)
    requires k in b && k != ORDER_KEYWORD
    ensures r == MergeKey(a, b, k)
    decreases Height(Obj(a)), 2
  {
    if k !in a {
      r := if k == LITERAL_KEYWORD && !b[k].Obj? then None else Some(b[k]);
    } else if IsLower(k) {
      r := Some(if a[k].Num? && b[k].Num? then Num(MaxReal(a[k].n, b[k].n)) else b[k]);
    } else if IsUpper(k) {
      r := Some(if a[k].Num? && b[k].Num? then Num(MinReal(a[k].n, b[k].n)) else b[k]);
    } else if k == "required" {
      if a[k].Arr? && b[k].Arr? {
        var names := UnionRequired(a[k].items, b[k].items);
        r := Some(Arr(names));
      } else {
        r := Some(a[k]);
      }
    } else if k == "properties" {
      if !a[k].Obj? || !b[k].Obj? { return None; }
      HeightField(a, k);
      var m := MergeProperties(a[k].fields, b[k].fields);
      r := if m.Some? then Some(Obj(m.value)) else None;
    } else if k == "type" {
      r := IntersectTypes(a[k], b[k]);
    } else if k == "const" {
      r := if a[k] == b[k] then Some(a[k]) else None;
    } else if k == LITERAL_KEYWORD {
      r := if b[k].Obj? then Some(Obj((if a[k].Obj? then a[k].fields else map[]) + b[k].fields)) else None;
    } else {
      r := Some(b[k]);
    }
  }

  ghost predicate PropsSoFar(em: Node, vm: Node, todo: set<string>, out: Node) {
    && out.Keys == em.Keys + (vm.Keys - todo)
    && (forall n | n in em && n in vm && n !in todo ::
          MergeProp(em, vm, n).Some? && out[n] == Obj(MergeProp(em, vm, n).value))
    && (forall n | n in em && (n !in vm || n in todo) :: out[n] == em[n])
    && (forall n | n in vm && n !in em && n !in todo :: out[n] == vm[n])
  }

  lemma PropsWhole(em: Node, vm: Node, out: Node)
    requires PropsSoFar(em, vm, {}, out)
    ensures MergeProps(em, vm) == Some(out)
  {
    assert out == CombinedProps(em, vm);
  }

  method MergeProperties(em: Node, vm: Node) returns (r: Option<Node>)
    ensures r == MergeProps(em, vm)
    decreases Height(Obj(em)), 1
  {
    var out := em;
    var todo := vm.Keys;
    while todo != {}
      invariant todo <= vm.Keys && PropsSoFar(em, vm, todo, out)
    {
      var n :| n in todo;
      todo := todo - {n};
      if n in em {
        var m := MergeProperty(em, vm, n);
        if m.None? { return None; }
        out := out[n := Obj(m.value)];
      } else {
        out := out[n := vm[n]];
      }
    }
    PropsWhole(em, vm, out);
    r := Some(out);
  }

  /** A property that both schemas declare. */
  method MergeProperty(em: Node, vm: Node, n: string) returns (r: Option<Node>)
    requires n in em && n in vm
    ensures r == MergeProp(em, vm, n)
    decreases Height(Obj(em)), 0
  {
    if !em[n].Obj? || !vm[n].Obj? { return None; }
    HeightField(em, n);
    r := MergeTwoSchemas(em[n].fields, vm[n].fields);
  }

  lemma {:induction false} MergeAllPrefix(branches: seq<Json>, i: nat)
    requires i <= |branches| && MergeAll(branches[..i]).None?
    ensures MergeAll(branches).None?
  {
    if i == |branches| {
      assert branches[..i] == branches;
    } else {
      assert branches[..|branches| - 1][..i] == branches[..i];
      MergeAllPrefix(branches[..|branches| - 1], i);
    }
  }

  method MergeSchemas(branches: seq<Json>) returns (r: Option<Node>)
    ensures r == MergeAll(branches)
  {
    var merged: Node := map[];
    for i := 0 to |branches|
      invariant MergeAll(branches[..i]) == Some(merged)
    {
      assert branches[..i + 1][..i] == branches[..i];
      var m := None;
      if branches[i].Obj? { m := MergeTwoSchemas(merged, branches[i].fields); }
      assert m == MergeAll(branches[..i + 1]);
      if m.None? {
        MergeAllPrefix(branches, i + 1);
        return None;
      }
      merged := m.value;
    }
    assert branches[..|branches|] == branches;
    r := Some(merged);
  }
}
