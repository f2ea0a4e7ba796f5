/** The type keyword (internal/generator/generator.go) and the intersection of two of them
    (internal/generator/merge.go). */
module SchemaTypes {
  import opened JsonValues
  import opened Sorting

  predicate JsonType(t: string) {
    t == "string" || t == "integer" || t == "number" || t == "boolean" ||
    t == "object" || t == "array" || t == "null"
  }

  /** A list of type names: non-empty, all known, each once. */
  ghost predicate IsTypeNames(list: seq<Json>) {
    list != [] && (forall i | 0 <= i < |list| :: list[i].Str? && JsonType(list[i].s)) && Distinct(list)
  }

  ghost function Names(list: seq<Json>): seq<string>
    requires forall i | 0 <= i < |list| :: list[i].Str?
  {
    seq(|list|, i requires 0 <= i < |list| => list[i].s)
  }

  /** The types a type keyword's value allows; None when it is no type name or list of them. */
  ghost function TypesOf(v: Json): Option<seq<string>> {
    match v
    case Str(t) => if JsonType(t) then Some([t]) else None
    case Arr(list) => if IsTypeNames(list) then Some(Names(list)) else None
    case _ => None
  }

  ghost function TypeList(s: Node): Option<seq<string>> {
    if "type" in s then TypesOf(s["type"]) else None
  }

  /** Every type list is non-empty, without repeats, and names known types only. */
  lemma TypesOfShape(v: Json)
    ensures TypesOf(v).Some? ==>
              TypesOf(v).value != [] && Distinct(TypesOf(v).value) &&
              forall t | t in TypesOf(v).value :: JsonType(t)
  {
    if v.Arr? && IsTypeNames(v.items) {
      var ts := Names(v.items);
      forall i, j | 0 <= i < j < |ts| ensures ts[i] != ts[j] { assert v.items[i] != v.items[j]; }
    }
  }

  /** typeList on the value under the type keyword. */
  method ReadTypes(v: Json) returns (r: Option<seq<string>>)
    ensures r == TypesOf(v)
  {
    match v
    case Str(t) => r := if JsonType(t) then Some([t]) else None;
    case Arr(list) =>
      if |list| == 0 { return None; }
      var types: seq<string> := [];
      for i := 0 to |list|
        invariant |types| == i
        invariant forall j | 0 <= j < i :: list[j] == Str(types[j]) && JsonType(types[j])
        invariant forall j, k | 0 <= j < k < i :: list[j] != list[k]
      {
        if !list[i].Str? || !JsonType(list[i].s) { return None; }
        if list[i].s in types {
          var j :| 0 <= j < i && types[j] == list[i].s;
          assert list[j] == list[i];
          return None;
        }
        types := types + [list[i].s];
      }
      assert types == Names(list);
      r := Some(types);
    case _ => r := None;
  }

  method ReadTypeList(s: Node) returns (r: Option<seq<string>>)
    ensures r == TypeList(s)
  {
    if "type" in s { r := ReadTypes(s["type"]); } else { r := None; }
  }

  // ----- intersectTypes -----

  ghost function Common(a: seq<string>, b: seq<string>): (r: seq<string>)
    ensures |r| <= |a| && forall t :: t in r <==> t in a && t in b
  {
    if a == [] then [] else
      var before := Common(a[..|a| - 1], b);
      assert a == a[..|a| - 1] + [a[|a| - 1]];
      if a[|a| - 1] in b then before + [a[|a| - 1]] else before
  }

  function Strs(names: seq<string>): seq<Json> {
    seq(|names|, i requires 0 <= i < |names| => Str(names[i]))
  }

  /** One name when one is left, a list otherwise, None when none is. */
  ghost function Intersect(a: Json, b: Json): Option<Json> {
    if TypesOf(a).None? || TypesOf(b).None? then None else
      var both := Common(TypesOf(a).value, TypesOf(b).value);
      if |both| == 0 then None
      else if |both| == 1 then Some(Str(both[0]))
      else Some(Arr(Strs(both)))
  }

  lemma {:induction false} CommonDistinct(a: seq<string>, b: seq<string>)
    requires Distinct(a)
    ensures Distinct(Common(a, b))
  {
    if a != [] {
      var init := a[..|a| - 1];
      CommonDistinct(init, b);
      assert forall t | t in Common(init, b) :: t in init;
      assert a[|a| - 1] !in init;
    }
  }

  /** What an intersection allows is what both keywords allow, and it refuses only when they
      share nothing. */
  lemma IntersectExact(a: Json, b: Json)
    requires TypesOf(a).Some? && TypesOf(b).Some?
    ensures Intersect(a, b).None? <==> forall t | t in TypesOf(a).value :: t !in TypesOf(b).value
    ensures Intersect(a, b).Some? ==>
              TypesOf(Intersect(a, b).value).Some? &&
              forall t :: t in TypesOf(Intersect(a, b).value).value
                      <==> t in TypesOf(a).value && t in TypesOf(b).value
  {
    var both := Common(TypesOf(a).value, TypesOf(b).value);
    TypesOfShape(a);
    CommonDistinct(TypesOf(a).value, TypesOf(b).value);
    if |both| == 0 {
      assert forall t | t in TypesOf(a).value :: t in TypesOf(b).value ==> t in both;
    } else {
      assert both[0] in both;
      if |both| > 1 {
        var list := Strs(both);
        assert IsTypeNames(list);
        assert Names(list) == both;
      }
    }
  }

  method IntersectTypes(a: Json, b: Json) returns (r: Option<Json>)
    ensures r == Intersect(a, b)
  {
    var ra := ReadTypes(a);
    if ra.None? { return None; }
    var rb := ReadTypes(b);
    if rb.None? { return None; }
    var both: seq<string> := [];
    for i := 0 to |ra.value|
      invariant both == Common(ra.value[..i], rb.value)
    {
      assert ra.value[..i + 1][..i] == ra.value[..i];
      if ra.value[i] in rb.value { both := both + [ra.value[i]]; }
    }
    assert ra.value[..|ra.value|] == ra.value;
    if |both| == 0 { r := None; }
    else if |both| == 1 { r := Some(Str(both[0])); }
    else { r := Some(Arr(Strs(both))); }
  }
}
