/** What merging allOf branches means (internal/generator/merge.go), for the keywords of
    sections 6.1.1, 6.1.3, 6.2.2 to 6.2.5, 6.5.3 and 6.5.4 of JSON Schema Validation, draft-07. */
module AllOfMeaning {
  import opened JsonValues
  import opened PropertyOrder
  import opened SchemaTypes
  import opened SchemaMerge

  ghost predicate HasType(v: Json, t: string) {
    match v
    case Null => t == "null"
    case Bool(_) => t == "boolean"
    case Num(n) => t == "number" || (t == "integer" && n == n.Floor as real)
    case Str(_) => t == "string"
    case Arr(_) => t == "array"
    case Obj(_) => t == "object"
    case _ => false
  }

  ghost predicate AllowsType(m: Node, v: Json) {
    TypeList(m).Some? ==> exists t :: t in TypeList(m).value && HasType(v, t)
  }

  ghost predicate AllowsConst(m: Node, v: Json) { "const" in m ==> m["const"] == v }

  /** A number keeps one of the four bounds, where it is set. */
  ghost predicate KeepsBound(m: Node, k: string, v: Json)
    requires v.Num?
  {
    NumAt(m, k).Some? ==>
      (k == "minimum" ==> m[k].n <= v.n) && (k == "exclusiveMinimum" ==> m[k].n < v.n) &&
      (k == "maximum" ==> v.n <= m[k].n) && (k == "exclusiveMaximum" ==> v.n < m[k].n)
  }

  ghost predicate WithinBounds(m: Node, v: Json) {
    v.Num? ==>
      KeepsBound(m, "minimum", v) && KeepsBound(m, "exclusiveMinimum", v) &&
      KeepsBound(m, "maximum", v) && KeepsBound(m, "exclusiveMaximum", v)
  }

  ghost predicate HasRequired(m: Node, v: Json) {
    v.Obj? && ListAt(m, "required").Some? ==> forall x | Str(x) in m["required"].items :: x in v.fields
  }

  /** The value is valid under the schema. */
  ghost predicate Valid(s: Json, v: Json)
    decreases s, 1
  {
    match s
    case Bool(b) => b
    case Obj(m) =>
      AllowsType(m, v) && AllowsConst(m, v) && WithinBounds(m, v) && HasRequired(m, v) && ValidProperties(m, v)
    case _ => true
  }

  ghost predicate ValidProperties(m: Node, v: Json)
    decreases Obj(m), 0
  {
    NodeAt(m, "properties").Some? && v.Obj? ==>
      forall n | n in m["properties"].fields && n in v.fields :: Valid(m["properties"].fields[n], v.fields[n])
  }

  predicate IsBound(k: string) { IsLower(k) || IsUpper(k) }

  /** The keywords hold values of their kinds. */
  ghost predicate WellTyped(s: Json)
    decreases s
  {
    match s
    case Bool(_) => true
    case Obj(m) =>
      ("type" in m ==> TypesOf(m["type"]).Some?) && (forall k | k in m && IsBound(k) :: m[k].Num?) &&
      ("required" in m ==> m["required"].Arr?) &&
      ("properties" in m ==>
        m["properties"].Obj? && forall n | n in m["properties"].fields :: WellTyped(m["properties"].fields[n]))
    case _ => false
  }

  /** A merge's value under a keyword it does not order properties by. */
  lemma {:induction false} MergedAt(a: Node, b: Node, k: string)
    requires Merge(a, b).Some? && k != ORDER_KEYWORD
    ensures var m := Merge(a, b).value;
      (k in m <==> k in a || k in b) && (k in b ==> MergeKey(a, b, k) == Some(m[k])) &&
      (k in a && k !in b ==> m[k] == a[k])
  {
    if k in b { assert MergeKey(a, b, k).Some?; }
  }

  /** One schema takes numbers where the other takes integers: they share no type by name. */
  ghost predicate MixesNumbers(a: Node, b: Node) {
    TypeList(a).Some? && TypeList(b).Some? &&
    (NumberMeetsInteger(TypeList(a).value, TypeList(b).value) ||
     NumberMeetsInteger(TypeList(b).value, TypeList(a).value))
  }

  ghost predicate NumberMeetsInteger(ts: seq<string>, us: seq<string>) {
    "number" in ts && "number" !in us && "integer" in us && "integer" !in ts
  }

  /** A number is lost where one type says number and the other integer. */
  ghost predicate LosesType(a: Node, b: Node, v: Json) { MixesNumbers(a, b) && v.Num? }

  lemma {:induction false} MergedType(a: Node, b: Node, v: Json)
    requires WellTyped(Obj(a)) && WellTyped(Obj(b)) && Merge(a, b).Some?
    ensures "type" in Merge(a, b).value ==> TypesOf(Merge(a, b).value["type"]).Some?
    ensures AllowsType(Merge(a, b).value, v) <==> AllowsType(a, v) && AllowsType(b, v) && !LosesType(a, b, v)
  {
    MergedAt(a, b, "type");
    if "type" in a && "type" in b {
      IntersectExact(a["type"], b["type"]);
      MergedTypes(a, b, Merge(a, b).value, v);
    }
  }

  lemma {:induction false} MergedTypes(a: Node, b: Node, m: Node, v: Json)
    requires TypeList(a).Some? && TypeList(b).Some? && TypeList(m).Some?
    requires forall t :: t in TypeList(m).value <==> t in TypeList(a).value && t in TypeList(b).value
    ensures AllowsType(m, v) <==> AllowsType(a, v) && AllowsType(b, v) && !LosesType(a, b, v)
  {
    if AllowsType(a, v) && AllowsType(b, v) && !LosesType(a, b, v) {
      var t :| t in TypeList(a).value && HasType(v, t);
      var w :| w in TypeList(b).value && HasType(v, w);
      var x := if t in TypeList(b).value then t else w;
      assert x in TypeList(m).value && HasType(v, x);
    }
    if AllowsType(m, v) {
      var t :| t in TypeList(m).value && HasType(v, t);
    }
  }

  lemma {:induction false} MergedConst(a: Node, b: Node, v: Json)
    requires Merge(a, b).Some?
    ensures AllowsConst(Merge(a, b).value, v) <==> AllowsConst(a, v) && AllowsConst(b, v)
  {
    MergedAt(a, b, "const");
  }

  lemma {:induction false} MergedBound(a: Node, b: Node, k: string, v: Json)
    requires WellTyped(Obj(a)) && WellTyped(Obj(b)) && Merge(a, b).Some? && IsBound(k) && v.Num?
    ensures KeepsBound(Merge(a, b).value, k, v) <==> KeepsBound(a, k, v) && KeepsBound(b, k, v)
    ensures k in Merge(a, b).value ==> Merge(a, b).value[k].Num?
  {
    MergedAt(a, b, k);
  }

  lemma {:induction false} MergedBounds(a: Node, b: Node, v: Json)
    requires WellTyped(Obj(a)) && WellTyped(Obj(b)) && Merge(a, b).Some?
    ensures WithinBounds(Merge(a, b).value, v) <==> WithinBounds(a, v) && WithinBounds(b, v)
  {
    if v.Num? {
      MergedBound(a, b, "minimum", v);
      MergedBound(a, b, "exclusiveMinimum", v);
      MergedBound(a, b, "maximum", v);
      MergedBound(a, b, "exclusiveMaximum", v);
    }
  }

  lemma {:induction false} MergedRequired(a: Node, b: Node, v: Json)
    requires WellTyped(Obj(a)) && WellTyped(Obj(b)) && Merge(a, b).Some?
    ensures HasRequired(Merge(a, b).value, v) <==> HasRequired(a, v) && HasRequired(b, v)
    ensures "required" in Merge(a, b).value ==> Merge(a, b).value["required"].Arr?
  {
    MergedAt(a, b, "required");
    if "required" in a && "required" in b {
      var all := a["required"].items + b["required"].items;
      UniqueNamesExact(all);
      StrsHold(UniqueNames(all));
      assert forall x :: Str(x) in Merge(a, b).value["required"].items <==> Str(x) in all;
    }
  }

  lemma {:induction false} StrsHold(names: seq<string>)
    ensures forall x :: Str(x) in Strs(names) <==> x in names
  {
    forall x | x in names ensures Str(x) in Strs(names) {
      var i :| 0 <= i < |names| && names[i] == x;
      assert Strs(names)[i] == Str(x);
    }
  }

  /** Nowhere do the two schemas take numbers against integers. */
  ghost predicate Unmixed(a: Node, b: Node)
    decreases Height(Obj(a)), 1
  {
    if MixesNumbers(a, b) then false
    else if NodeAt(a, "properties").Some? && NodeAt(b, "properties").Some? then
      HeightField(a, "properties");
      UnmixedAll(a["properties"].fields, b["properties"].fields)
    else true
  }

  ghost predicate UnmixedAll(em: Node, vm: Node)
    decreases Height(Obj(em)), 0
  {
    forall n | n in em && n in vm :: UnmixedAt(em, vm, n)
  }

  ghost predicate UnmixedAt(em: Node, vm: Node, n: string)
    requires n in em && n in vm
    decreases Height(Obj(em)), 0, 0
  {
    HeightField(em, n);
    em[n].Obj? && vm[n].Obj? ==> Unmixed(em[n].fields, vm[n].fields)
  }

  /** A number that both schemas allow somewhere is lost in their merge. */
  ghost predicate Loses(a: Node, b: Node, v: Json)
    decreases Height(Obj(a)), 1
  {
    LosesType(a, b, v) || (v.Obj? && exists n :: n in v.fields && LosesUnder(a, b, n, v.fields[n]))
  }

  ghost predicate LosesUnder(a: Node, b: Node, n: string, w: Json)
    decreases Height(Obj(a)), 0
  {
    n in PropsOf(a) && n in PropsOf(b) && PropsOf(a)[n].Obj? && PropsOf(b)[n].Obj? &&
    (HeightField(a, "properties");
     HeightField(PropsOf(a), n);
     Loses(PropsOf(a)[n].fields, PropsOf(b)[n].fields, w))
  }

  /** What a merge's properties hold under a name. */
  lemma {:induction false} MergedPropertyAt(a: Node, b: Node, n: string)
    requires WellTyped(Obj(a)) && WellTyped(Obj(b)) && Merge(a, b).Some?
    ensures n in PropsOf(Merge(a, b).value) <==> n in PropsOf(a) || n in PropsOf(b)
    ensures "properties" in Merge(a, b).value ==> Merge(a, b).value["properties"].Obj?
    ensures n in PropsOf(a) && n in PropsOf(b) ==> MergeProp(PropsOf(a), PropsOf(b), n).Some?
    ensures n in PropsOf(a) && n in PropsOf(b) ==>
              PropsOf(Merge(a, b).value)[n] == Obj(MergeProp(PropsOf(a), PropsOf(b), n).value)
    ensures n in PropsOf(a) && n !in PropsOf(b) ==> PropsOf(Merge(a, b).value)[n] == PropsOf(a)[n]
    ensures n in PropsOf(b) && n !in PropsOf(a) ==> PropsOf(Merge(a, b).value)[n] == PropsOf(b)[n]
  {
    MergedAt(a, b, "properties");
    if "properties" in a && "properties" in b {
      assert MergeProps(PropsOf(a), PropsOf(b)).Some?;
      if n in PropsOf(a) && n in PropsOf(b) { assert MergeProp(PropsOf(a), PropsOf(b), n).Some?; }
    }
  }

  /** A value is valid under a merge exactly where it is valid under what was merged and the
      merge does not lose it. */
  lemma {:induction false} MergeMeansBoth(a: Node, b: Node, v: Json)
    requires WellTyped(Obj(a)) && WellTyped(Obj(b)) && Merge(a, b).Some?
    ensures Valid(Obj(Merge(a, b).value), v) <==> Valid(Obj(a), v) && Valid(Obj(b), v) && !Loses(a, b, v)
    decreases Height(Obj(a)), 1
  {
    MergedType(a, b, v);
    MergedConst(a, b, v);
    MergedBounds(a, b, v);
    MergedRequired(a, b, v);
    MergedProperties(a, b, v);
    ValidParts(a, v);
    ValidParts(b, v);
    ValidParts(Merge(a, b).value, v);
  }

  /** Schemas that nowhere take numbers against integers lose nothing. */
  lemma {:induction false} UnmixedLosesNothing(a: Node, b: Node, v: Json)
    requires Unmixed(a, b)
    ensures !Loses(a, b, v)
    decreases Height(Obj(a))
  {
    if v.Obj? {
      forall n | n in v.fields ensures !LosesUnder(a, b, n, v.fields[n]) {
        if n in PropsOf(a) && n in PropsOf(b) && PropsOf(a)[n].Obj? && PropsOf(b)[n].Obj? {
          HeightField(a, "properties");
          HeightField(PropsOf(a), n);
          UnmixedProperty(a, b, n);
          UnmixedLosesNothing(PropsOf(a)[n].fields, PropsOf(b)[n].fields, v.fields[n]);
        }
      }
    }
  }

  lemma {:induction false} ValidParts(m: Node, v: Json)
    ensures Valid(Obj(m), v) <==>
      AllowsType(m, v) && AllowsConst(m, v) && WithinBounds(m, v) && HasRequired(m, v) && ValidProperties(m, v)
  {
  }

  ghost predicate PropertyKept(m: Node, n: string, w: Json) { n in PropsOf(m) ==> Valid(PropsOf(m)[n], w) }

  lemma {:induction false} PropertyMeansBoth(a: Node, b: Node, n: string, w: Json)
    requires WellTyped(Obj(a)) && WellTyped(Obj(b)) && Merge(a, b).Some?
    ensures PropertyKept(Merge(a, b).value, n, w) <==>
              PropertyKept(a, n, w) && PropertyKept(b, n, w) && !LosesUnder(a, b, n, w)
    decreases Height(Obj(a)), 0, 0
  {
    MergedPropertyAt(a, b, n);
    if n in PropsOf(a) && n in PropsOf(b) {
      HeightField(a, "properties");
      HeightField(PropsOf(a), n);
      MergeMeansBoth(PropsOf(a)[n].fields, PropsOf(b)[n].fields, w);
    }
  }

  lemma {:induction false} UnmixedProperty(a: Node, b: Node, n: string)
    requires Unmixed(a, b) && n in PropsOf(a) && n in PropsOf(b)
    ensures UnmixedAt(PropsOf(a), PropsOf(b), n)
  {
    assert UnmixedAll(PropsOf(a), PropsOf(b));
  }

  /** The part of Loses below the top. */
  ghost predicate LosesProperty(a: Node, b: Node, v: Json) {
    v.Obj? && exists n :: n in v.fields && LosesUnder(a, b, n, v.fields[n])
  }

  lemma {:induction false} MergedProperties(a: Node, b: Node, v: Json)
    requires WellTyped(Obj(a)) && WellTyped(Obj(b)) && Merge(a, b).Some?
    ensures ValidProperties(Merge(a, b).value, v) <==>
              ValidProperties(a, v) && ValidProperties(b, v) && !LosesProperty(a, b, v)
    decreases Height(Obj(a)), 0
  {
    if v.Obj? {
      forall n | n in v.fields
        ensures PropertyKept(Merge(a, b).value, n, v.fields[n]) <==>
                  PropertyKept(a, n, v.fields[n]) && PropertyKept(b, n, v.fields[n]) &&
                  !LosesUnder(a, b, n, v.fields[n])
      {
        PropertyMeansBoth(a, b, n, v.fields[n]);
      }
      PropertiesOver(a, v);
      PropertiesOver(b, v);
      PropertiesOver(Merge(a, b).value, v);
    }
  }

  lemma {:induction false} PropertiesOver(m: Node, v: Json)
    requires v.Obj?
    ensures ValidProperties(m, v) <==> forall n | n in v.fields :: PropertyKept(m, n, v.fields[n])
  {
    if ValidProperties(m, v) {
      forall n | n in v.fields ensures PropertyKept(m, n, v.fields[n]) {}
    }
    if forall n | n in v.fields :: PropertyKept(m, n, v.fields[n]) {
      if NodeAt(m, "properties").Some? {
        forall n | n in m["properties"].fields && n in v.fields ensures Valid(m["properties"].fields[n], v.fields[n]) {
          assert PropertyKept(m, n, v.fields[n]);
        }
      }
    }
  }

  // ----- The whole list of branches -----

  lemma {:induction false} MergedWellTyped(a: Node, b: Node)
    requires WellTyped(Obj(a)) && WellTyped(Obj(b)) && Merge(a, b).Some?
    ensures WellTyped(Obj(Merge(a, b).value))
    decreases Height(Obj(a)), 1
  {
    MergedKinds(a, b);
    forall n | n in PropsOf(Merge(a, b).value)
      ensures WellTyped(PropsOf(Merge(a, b).value)[n])
    {
      MergedPropertyTyped(a, b, n);
    }
    KindsMakeWellTyped(Merge(a, b).value);
  }

  ghost predicate Kinds(m: Node) {
    ("type" in m ==> TypesOf(m["type"]).Some?) && (forall k | k in m && IsBound(k) :: m[k].Num?) &&
    ("required" in m ==> m["required"].Arr?) && ("properties" in m ==> m["properties"].Obj?)
  }

  lemma {:induction false} KindsMakeWellTyped(m: Node)
    requires Kinds(m) && forall n | n in PropsOf(m) :: WellTyped(PropsOf(m)[n])
    ensures WellTyped(Obj(m))
  {
    if "properties" in m { assert PropsOf(m) == m["properties"].fields; }
  }

  lemma {:induction false} MergedKinds(a: Node, b: Node)
    requires WellTyped(Obj(a)) && WellTyped(Obj(b)) && Merge(a, b).Some?
    ensures Kinds(Merge(a, b).value)
  {
    MergedType(a, b, Null);
    MergedRequired(a, b, Null);
    MergedPropertyAt(a, b, "");
    forall k | k in Merge(a, b).value && IsBound(k)
      ensures Merge(a, b).value[k].Num?
    {
      MergedBound(a, b, k, Num(0.0));
    }
  }

  lemma {:induction false} MergedPropertyTyped(a: Node, b: Node, n: string)
    requires WellTyped(Obj(a)) && WellTyped(Obj(b)) && Merge(a, b).Some? && n in PropsOf(Merge(a, b).value)
    ensures WellTyped(PropsOf(Merge(a, b).value)[n])
    decreases Height(Obj(a)), 0
  {
    MergedPropertyAt(a, b, n);
    if n in PropsOf(a) && n in PropsOf(b) {
      HeightField(a, "properties");
      HeightField(PropsOf(a), n);
      MergedWellTyped(PropsOf(a)[n].fields, PropsOf(b)[n].fields);
    }
  }

  /** A value valid under the merge of allOf's branches is valid under every branch. */
  lemma {:induction false} AllOfSound(branches: seq<Json>, v: Json)
    requires (forall i | 0 <= i < |branches| :: WellTyped(branches[i])) && MergeAll(branches).Some?
    requires Valid(Obj(MergeAll(branches).value), v)
    ensures forall i | 0 <= i < |branches| :: Valid(branches[i], v)
  {
    if branches != [] {
      var init, last := branches[..|branches| - 1], branches[|branches| - 1];
      AllWellTyped(init);
      MergeMeansBoth(MergeAll(init).value, last.fields, v);
      AllOfSound(init, v);
      forall i | 0 <= i < |branches| ensures Valid(branches[i], v) {
        if i < |init| { assert branches[i] == init[i]; }
      }
    }
  }

  lemma {:induction false} AllWellTyped(branches: seq<Json>)
    requires (forall i | 0 <= i < |branches| :: WellTyped(branches[i])) && MergeAll(branches).Some?
    ensures WellTyped(Obj(MergeAll(branches).value))
  {
    if branches != [] {
      AllWellTyped(branches[..|branches| - 1]);
      MergedWellTyped(MergeAll(branches[..|branches| - 1]).value, branches[|branches| - 1].fields);
    }
  }
}
