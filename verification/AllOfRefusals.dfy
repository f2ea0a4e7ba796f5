/** Where a refusal to merge allOf branches is right (internal/generator/merge.go): where no value
    is valid under both, which two schemas show without one. */
module AllOfRefusals {
  import opened JsonValues
  import opened SchemaTypes
  import opened SchemaMerge
  import opened AllOfMeaning

  // ----- Values valid under two schemas -----

  /** What a schema says of a property; nothing, where it does not name it. */
  ghost function PropAt(s: Json, n: string): Json {
    if s.Obj? && n in PropsOf(s.fields) then PropsOf(s.fields)[n] else Bool(true)
  }

  ghost predicate Admits(s: Json, t: string) { s.Obj? && TypeList(s.fields).Some? ==> t in TypeList(s.fields).value }

  ghost predicate BothAdmit(a: Json, b: Json, t: string) { Admits(a, t) && Admits(b, t) }

  ghost function RequiredBy(s: Json): set<string> {
    if s.Obj? && ListAt(s.fields, "required").Some? then
      var l := s.fields["required"].items;
      set i | 0 <= i < |l| && l[i].Str? :: l[i].s
    else {}
  }

  ghost function ConstOf(s: Json): Option<Json> {
    if s.Obj? && "const" in s.fields then Some(s.fields["const"]) else None
  }

  ghost predicate Fits(a: Json, b: Json, x: real) { FitsOne(a, x) && FitsOne(b, x) }

  ghost predicate FitsOne(s: Json, x: real) { s.Obj? ==> WithinBounds(s.fields, Num(x)) }

  ghost function Tightest(a: Option<real>, b: Option<real>, lower: bool): Option<real> {
    if a.None? then b else if b.None? then a
    else Some(if lower then MaxReal(a.value, b.value) else MinReal(a.value, b.value))
  }

  ghost function BoundOf(s: Json, k: string): Option<real> {
    if s.Obj? && NumAt(s.fields, k).Some? then Some(s.fields[k].n) else None
  }

  /** The highest of the lower bounds, and the lowest of the upper ones. */
  ghost function Lower(a: Json, b: Json): Option<real> {
    Tightest(Tightest(BoundOf(a, "minimum"), BoundOf(a, "exclusiveMinimum"), true),
             Tightest(BoundOf(b, "minimum"), BoundOf(b, "exclusiveMinimum"), true), true)
  }

  ghost function Upper(a: Json, b: Json): Option<real> {
    Tightest(Tightest(BoundOf(a, "maximum"), BoundOf(a, "exclusiveMaximum"), false),
             Tightest(BoundOf(b, "maximum"), BoundOf(b, "exclusiveMaximum"), false), false)
  }

  /** A number between the bounds, if there is one. */
  ghost function Middle(a: Json, b: Json): real {
    var lo, hi := Lower(a, b), Upper(a, b);
    if lo.None? && hi.None? then 0.0
    else if lo.None? then hi.value - 1.0
    else if hi.None? then lo.value + 1.0
    else (lo.value + hi.value) / 2.0
  }

  /** The two lowest integers there can be between the bounds. */
  ghost function Lowest(a: Json, b: Json): int {
    var lo, hi := Lower(a, b), Upper(a, b);
    if lo.Some? then lo.value.Floor else if hi.Some? then hi.value.Floor - 1 else 0
  }

  ghost predicate NumberFits(a: Json, b: Json) {
    if BothAdmit(a, b, "number") then Fits(a, b, Middle(a, b))
    else (Admits(a, "number") || Admits(a, "integer")) && (Admits(b, "number") || Admits(b, "integer")) &&
         (Fits(a, b, Lowest(a, b) as real) || Fits(a, b, (Lowest(a, b) + 1) as real))
  }

  ghost predicate SimpleFits(a: Json, b: Json) {
    BothAdmit(a, b, "null") || BothAdmit(a, b, "boolean") || BothAdmit(a, b, "string") || BothAdmit(a, b, "array")
  }

  lemma {:induction false} PropHeight(s: Json, n: string)
    ensures Height(PropAt(s, n)) <= Height(s)
    ensures s.Obj? ==> Height(PropAt(s, n)) < Height(s)
  {
    if s.Obj? && n in PropsOf(s.fields) {
      HeightField(s.fields, "properties");
      HeightField(PropsOf(s.fields), n);
    }
  }

  /** Some value is valid under both schemas, as the schemas show it: one they fix; one of a type
      that nothing else is said of; a number between the bounds; or an object of the properties
      they require. */
  ghost predicate Agreeable(a: Json, b: Json)
    decreases Height(a) + Height(b)
  {
    if a == Bool(false) || b == Bool(false) then false
    else if ConstOf(a).Some? then Valid(a, ConstOf(a).value) && Valid(b, ConstOf(a).value)
    else if ConstOf(b).Some? then Valid(a, ConstOf(b).value) && Valid(b, ConstOf(b).value)
    else SimpleFits(a, b) || NumberFits(a, b) ||
         (BothAdmit(a, b, "object") && forall n | n in RequiredBy(a) + RequiredBy(b) :: AgreeableAt(a, b, n))
  }

  ghost predicate AgreeableAt(a: Json, b: Json, n: string)
    requires a != Bool(false) && b != Bool(false)
    decreases Height(a) + Height(b), 0
  {
    PropHeight(a, n);
    PropHeight(b, n);
    if PropAt(a, n) == Bool(true) && PropAt(b, n) == Bool(true) then true
    else Agreeable(PropAt(a, n), PropAt(b, n))
  }

  // ----- Numbers between bounds -----

  ghost predicate AboveAll(s: Json, x: real) {
    && (BoundOf(s, "minimum").Some? ==> BoundOf(s, "minimum").value <= x)
    && (BoundOf(s, "exclusiveMinimum").Some? ==> BoundOf(s, "exclusiveMinimum").value < x)
  }

  ghost predicate BelowAll(s: Json, x: real) {
    && (BoundOf(s, "maximum").Some? ==> x <= BoundOf(s, "maximum").value)
    && (BoundOf(s, "exclusiveMaximum").Some? ==> x < BoundOf(s, "exclusiveMaximum").value)
  }

  lemma {:induction false} FitsParts(s: Json, x: real)
    ensures FitsOne(s, x) <==> AboveAll(s, x) && BelowAll(s, x)
  {
  }

  lemma {:induction false} AboveLower(a: Json, b: Json, x: real)
    ensures AboveAll(a, x) && AboveAll(b, x) && Lower(a, b).Some? ==> Lower(a, b).value <= x
    ensures (Lower(a, b).Some? ==> Lower(a, b).value < x) ==> AboveAll(a, x) && AboveAll(b, x)
  {
  }

  lemma {:induction false} BelowUpper(a: Json, b: Json, x: real)
    ensures BelowAll(a, x) && BelowAll(b, x) && Upper(a, b).Some? ==> x <= Upper(a, b).value
    ensures (Upper(a, b).Some? ==> x < Upper(a, b).value) ==> BelowAll(a, x) && BelowAll(b, x)
  {
  }

  /** Whatever lies strictly between the tightest bounds fits. */
  lemma {:induction false} BetweenFits(a: Json, b: Json, x: real)
    requires Lower(a, b).Some? ==> Lower(a, b).value < x
    requires Upper(a, b).Some? ==> x < Upper(a, b).value
    ensures Fits(a, b, x)
  {
    FitsParts(a, x);
    FitsParts(b, x);
    AboveLower(a, b, x);
    BelowUpper(a, b, x);
  }

  lemma {:induction false} FitsBetween(a: Json, b: Json, x: real)
    requires Fits(a, b, x)
    ensures Lower(a, b).Some? ==> Lower(a, b).value <= x
    ensures Upper(a, b).Some? ==> x <= Upper(a, b).value
  {
    FitsParts(a, x);
    FitsParts(b, x);
    AboveLower(a, b, x);
    BelowUpper(a, b, x);
  }

  /** If any number fits, the one in the middle does. */
  lemma {:induction false} MiddleFits(a: Json, b: Json, x: real)
    requires Fits(a, b, x)
    ensures Fits(a, b, Middle(a, b))
  {
    FitsBetween(a, b, x);
    var lo, hi := Lower(a, b), Upper(a, b);
    if lo.Some? && hi.Some? && lo.value == hi.value {
      assert Middle(a, b) == x;
    } else {
      BetweenFits(a, b, Middle(a, b));
    }
  }

  /** Of n and anything above the lower bounds that is no more than n, the second fits too. */
  lemma {:induction false} FitsBelow(a: Json, b: Json, x: real, y: real)
    requires Fits(a, b, x) && y <= x && (Lower(a, b).Some? ==> Lower(a, b).value < y)
    ensures Fits(a, b, y)
  {
    FitsParts(a, x);
    FitsParts(b, x);
    FitsParts(a, y);
    FitsParts(b, y);
    AboveLower(a, b, y);
  }

  /** If any integer fits, one of the two lowest does. */
  lemma {:induction false} LowestFits(a: Json, b: Json, n: int)
    requires Fits(a, b, n as real)
    ensures Fits(a, b, Lowest(a, b) as real) || Fits(a, b, (Lowest(a, b) + 1) as real)
  {
    FitsBetween(a, b, n as real);
    var lo, hi := Lower(a, b), Upper(a, b);
    if lo.Some? {
      assert lo.value.Floor <= n;
      if lo.value.Floor < n { FitsBelow(a, b, n as real, (lo.value.Floor + 1) as real); }
    } else if hi.Some? {
      BetweenFits(a, b, Lowest(a, b) as real);
    } else {
      BetweenFits(a, b, 0.0);
    }
  }

  // ----- The schemas show exactly whether they share a value -----

  lemma {:induction false} NumberShared(a: Json, b: Json, x: real)
    requires Valid(a, Num(x)) && Valid(b, Num(x))
    ensures NumberFits(a, b)
  {
    if BothAdmit(a, b, "number") {
      MiddleFits(a, b, x);
    } else {
      assert x == x.Floor as real;
      LowestFits(a, b, x.Floor);
    }
  }

  lemma {:induction false} PropShared(s: Json, v: Json, n: string)
    requires Valid(s, v) && v.Obj? && n in v.fields
    ensures Valid(PropAt(s, n), v.fields[n])
  {
  }

  lemma {:induction false} RequiredShared(s: Json, v: Json)
    requires Valid(s, v) && v.Obj?
    ensures RequiredBy(s) <= v.fields.Keys
  {
  }

  lemma {:induction false} TypeShared(s: Json, v: Json)
    requires Valid(s, v)
    ensures v.Obj? ==> Admits(s, "object")
    ensures v.Null? ==> Admits(s, "null")
    ensures v.Bool? ==> Admits(s, "boolean")
    ensures v.Str? ==> Admits(s, "string")
    ensures v.Arr? ==> Admits(s, "array")
    ensures v.Ord? || v.Native? ==> Admits(s, "null")
  {
  }

  lemma {:induction false} SharedAgree(a: Json, b: Json, v: Json)
    requires Valid(a, v) && Valid(b, v)
    ensures Agreeable(a, b)
    decreases Height(a) + Height(b), 2
  {
    if ConstOf(a).None? && ConstOf(b).None? {
      TypeShared(a, v);
      TypeShared(b, v);
      if v.Num? {
        NumberShared(a, b, v.n);
      } else if v.Obj? {
        ObjectShared(a, b, v.fields);
      } else {
        assert SimpleFits(a, b);
      }
    }
  }

  lemma {:induction false} ObjectShared(a: Json, b: Json, m: Node)
    requires Valid(a, Obj(m)) && Valid(b, Obj(m))
    ensures forall n | n in RequiredBy(a) + RequiredBy(b) :: AgreeableAt(a, b, n)
    decreases Height(a) + Height(b), 1
  {
    RequiredShared(a, Obj(m));
    RequiredShared(b, Obj(m));
    forall n | n in RequiredBy(a) + RequiredBy(b) ensures AgreeableAt(a, b, n) { SharedAgreeAt(a, b, m, n); }
  }

  lemma {:induction false} SharedAgreeAt(a: Json, b: Json, m: Node, n: string)
    requires Valid(a, Obj(m)) && Valid(b, Obj(m)) && n in m
    ensures AgreeableAt(a, b, n)
    decreases Height(a) + Height(b), 0
  {
    PropHeight(a, n);
    PropHeight(b, n);
    PropShared(a, Obj(m), n);
    PropShared(b, Obj(m), n);
    if PropAt(a, n) != Bool(true) || PropAt(b, n) != Bool(true) {
      SharedAgree(PropAt(a, n), PropAt(b, n), m[n]);
    }
  }

  lemma {:induction false} SimpleValid(s: Json, v: Json, t: string)
    requires s != Bool(false) && ConstOf(s).None? && Admits(s, t) && HasType(v, t) && !v.Num? && !v.Obj?
    ensures Valid(s, v)
  {
  }

  lemma {:induction false} NumberValid(s: Json, x: real)
    requires s != Bool(false) && ConstOf(s).None? && FitsOne(s, x)
    requires Admits(s, "number") || (Admits(s, "integer") && x == x.Floor as real)
    ensures Valid(s, Num(x))
  {
  }

  lemma {:induction false} ObjectValid(s: Json, m: Node)
    requires s != Bool(false) && ConstOf(s).None? && Admits(s, "object") && RequiredBy(s) <= m.Keys
    requires forall n | n in m :: Valid(PropAt(s, n), m[n])
    ensures Valid(s, Obj(m))
  {
    if s.Obj? {
      assert HasRequired(s.fields, Obj(m)) by {
        if ListAt(s.fields, "required").Some? {
          forall x | Str(x) in s.fields["required"].items ensures x in m { assert x in RequiredBy(s); }
        }
      }
      forall n | n in PropsOf(s.fields) && n in m ensures Valid(PropsOf(s.fields)[n], m[n]) {
        assert PropAt(s, n) == PropsOf(s.fields)[n];
      }
    }
  }

  lemma {:induction false} NumberAgreed(a: Json, b: Json) returns (x: real)
    requires a != Bool(false) && b != Bool(false) && ConstOf(a).None? && ConstOf(b).None? && NumberFits(a, b)
    ensures Valid(a, Num(x)) && Valid(b, Num(x))
  {
    if BothAdmit(a, b, "number") {
      x := Middle(a, b);
    } else {
      x := (if Fits(a, b, Lowest(a, b) as real) then Lowest(a, b) else Lowest(a, b) + 1) as real;
    }
    NumberValid(a, x);
    NumberValid(b, x);
  }

  lemma {:induction false} AgreeShared(a: Json, b: Json) returns (v: Json)
    requires Agreeable(a, b)
    ensures Valid(a, v) && Valid(b, v)
    decreases Height(a) + Height(b), 1
  {
    if ConstOf(a).Some? {
      v := ConstOf(a).value;
    } else if ConstOf(b).Some? {
      v := ConstOf(b).value;
    } else if SimpleFits(a, b) {
      var t := if BothAdmit(a, b, "null") then "null" else if BothAdmit(a, b, "boolean") then "boolean"
               else if BothAdmit(a, b, "string") then "string" else "array";
      v := if t == "null" then Null else if t == "boolean" then Bool(true)
           else if t == "string" then Str("") else Arr([]);
      SimpleValid(a, v, t);
      SimpleValid(b, v, t);
    } else if NumberFits(a, b) {
      var x := NumberAgreed(a, b);
      v := Num(x);
    } else {
      v := ObjectAgreed(a, b);
    }
  }

  /** An object of the required properties alone. */
  lemma {:induction false} ObjectAgreed(a: Json, b: Json) returns (v: Json)
    requires a != Bool(false) && b != Bool(false) && ConstOf(a).None? && ConstOf(b).None? && BothAdmit(a, b, "object")
    requires forall n | n in RequiredBy(a) + RequiredBy(b) :: AgreeableAt(a, b, n)
    ensures Valid(a, v) && Valid(b, v)
    decreases Height(a) + Height(b), 0
  {
    var names := RequiredBy(a) + RequiredBy(b);
    forall n | n in names ensures exists w :: SharedAt(a, b, n, w) {
      PropHeight(a, n);
      PropHeight(b, n);
      if PropAt(a, n) == Bool(true) && PropAt(b, n) == Bool(true) {
        assert SharedAt(a, b, n, Null);
      } else {
        var w := AgreeShared(PropAt(a, n), PropAt(b, n));
        assert SharedAt(a, b, n, w);
      }
    }
    var m := map n | n in names :: var w :| SharedAt(a, b, n, w); w;
    ObjectValid(a, m);
    ObjectValid(b, m);
    v := Obj(m);
  }

  ghost predicate SharedAt(a: Json, b: Json, n: string, w: Json) { Valid(PropAt(a, n), w) && Valid(PropAt(b, n), w) }

  ghost predicate ValidUnder(a: Json, b: Json, v: Json) { Valid(a, v) && Valid(b, v) }

  /** Some value is valid under both. */
  ghost predicate Compatible(a: Json, b: Json) { exists v :: ValidUnder(a, b, v) }

  /** Two schemas share a value exactly where they show it: so a refusal to merge them is right
      exactly where they are not agreeable. */
  lemma {:induction false} AgreeableExact(a: Json, b: Json)
    ensures Agreeable(a, b) <==> Compatible(a, b)
  {
    if Agreeable(a, b) {
      var v := AgreeShared(a, b);
      assert ValidUnder(a, b, v);
    }
    if Compatible(a, b) {
      var v :| ValidUnder(a, b, v);
      SharedAgree(a, b, v);
    }
  }

  // ----- Types -----

  /** Type lists that share no name are refused, and rightly so unless they set numbers against
      integers. */
  lemma {:induction false} TypeRefusalExact(a: Node, b: Node)
    requires "type" in a && "type" in b && TypeList(a).Some? && TypeList(b).Some?
    requires Intersect(a["type"], b["type"]).None?
    ensures (exists v :: AllowsType(a, v) && AllowsType(b, v)) <==> MixesNumbers(a, b)
  {
    IntersectExact(a["type"], b["type"]);
    if MixesNumbers(a, b) { ThreeAllowed(a, b); }
  }

  lemma {:induction false} ThreeAllowed(a: Node, b: Node)
    requires MixesNumbers(a, b)
    ensures AllowsType(a, Num(3.0)) && AllowsType(b, Num(3.0))
  {
    assert HasType(Num(3.0), "number") && HasType(Num(3.0), "integer");
  }

  /** The types of a merge are exactly those of both schemas, unless they set numbers against
      integers. */
  lemma {:induction false} MergedTypeExact(a: Node, b: Node)
    requires WellTyped(Obj(a)) && WellTyped(Obj(b)) && Merge(a, b).Some?
    ensures (forall v :: AllowsType(Merge(a, b).value, v) <==> AllowsType(a, v) && AllowsType(b, v)) <==>
              !MixesNumbers(a, b)
  {
    var m := Merge(a, b).value;
    forall v
      ensures AllowsType(m, v) ==> AllowsType(a, v) && AllowsType(b, v)
      ensures !MixesNumbers(a, b) && AllowsType(a, v) && AllowsType(b, v) ==> AllowsType(m, v)
    {
      MergedType(a, b, v);
    }
    if MixesNumbers(a, b) {
      ThreeAllowed(a, b);
      assert !AllowsType(m, Num(3.0)) by { MergedType(a, b, Num(3.0)); }
    }
  }

  // ----- Const values -----

  /** The schemas hold distinct const values at a path of properties. */
  ghost predicate ConstClash(a: Json, b: Json, path: seq<string>)
    decreases |path|
  {
    a.Obj? && b.Obj? &&
    if path == [] then ConstOf(a).Some? && ConstOf(b).Some? && ConstOf(a) != ConstOf(b)
    else ConstClash(PropAt(a, path[0]), PropAt(b, path[0]), path[1..])
  }

  ghost predicate HasAt(v: Json, path: seq<string>)
    decreases |path|
  {
    path == [] || (v.Obj? && path[0] in v.fields && HasAt(v.fields[path[0]], path[1..]))
  }

  /** Distinct const values are refused, and no value valid under both schemas holds anything
      where they are. */
  lemma {:induction false} ConstClashRefused(a: Json, b: Json, path: seq<string>, v: Json)
    requires ConstClash(a, b, path)
    ensures Merge(a.fields, b.fields).None?
    ensures Valid(a, v) && Valid(b, v) ==> !HasAt(v, path)
  {
    ClashRefused(a, b, path);
    if Valid(a, v) && Valid(b, v) && HasAt(v, path) { NothingAtClash(a, b, path, v); }
  }

  lemma {:induction false} NothingAtClash(a: Json, b: Json, path: seq<string>, v: Json)
    requires ConstClash(a, b, path) && Valid(a, v) && Valid(b, v)
    ensures !HasAt(v, path)
    decreases |path|
  {
    if path != [] && HasAt(v, path) {
      PropShared(a, v, path[0]);
      PropShared(b, v, path[0]);
      NothingAtClash(PropAt(a, path[0]), PropAt(b, path[0]), path[1..], v.fields[path[0]]);
    }
  }

  lemma {:induction false} ClashRefused(a: Json, b: Json, path: seq<string>)
    requires ConstClash(a, b, path)
    ensures Merge(a.fields, b.fields).None?
    decreases |path|
  {
    if path == [] {
      assert MergeKey(a.fields, b.fields, "const").None?;
    } else {
      var n := path[0];
      var em, vm := PropsOf(a.fields), PropsOf(b.fields);
      ClashRefused(PropAt(a, n), PropAt(b, n), path[1..]);
      assert MergeProp(em, vm, n).None?;
      assert MergeProps(em, vm).None?;
      assert MergeKey(a.fields, b.fields, "properties").None?;
    }
  }

  ghost predicate OnlyObjects(a: Json, b: Json) { !SimpleFits(a, b) && !NumberFits(a, b) }

  /** Every step of the path is a required property of what can only be an object. */
  ghost predicate Forced(a: Json, b: Json, path: seq<string>)
    decreases |path|
  {
    path == [] ||
    (path[0] in RequiredBy(a) + RequiredBy(b) && OnlyObjects(a, b) &&
     Forced(PropAt(a, path[0]), PropAt(b, path[0]), path[1..]))
  }

  lemma {:induction false} ForcedHas(a: Json, b: Json, path: seq<string>, v: Json)
    requires Forced(a, b, path) && Valid(a, v) && Valid(b, v)
    ensures HasAt(v, path)
    decreases |path|
  {
    if path != [] {
      TypeShared(a, v);
      TypeShared(b, v);
      if v.Num? { NumberShared(a, b, v.n); }
      RequiredShared(a, v);
      RequiredShared(b, v);
      PropShared(a, v, path[0]);
      PropShared(b, v, path[0]);
      ForcedHas(PropAt(a, path[0]), PropAt(b, path[0]), path[1..], v.fields[path[0]]);
    }
  }

  /** A refusal for distinct const values is right where their path is forced. */
  lemma {:induction false} ForcedClashIsRight(a: Json, b: Json, path: seq<string>, v: Json)
    requires ConstClash(a, b, path) && Forced(a, b, path)
    ensures Merge(a.fields, b.fields).None? && !(Valid(a, v) && Valid(b, v))
  {
    ConstClashRefused(a, b, path, v);
    if Valid(a, v) && Valid(b, v) { ForcedHas(a, b, path, v); }
  }

  /** Nothing but what stands at the path conflicts: above it both schemas take objects, fix no
      value, and agree on every other property either requires. */
  ghost predicate ElseAgree(a: Json, b: Json, path: seq<string>)
    decreases |path|
  {
    path == [] ||
    (a.Obj? && b.Obj? && ConstOf(a).None? && ConstOf(b).None? && BothAdmit(a, b, "object") &&
     (forall n | n in RequiredBy(a) + RequiredBy(b) && n != path[0] :: AgreeableAt(a, b, n)) &&
     ElseAgree(PropAt(a, path[0]), PropAt(b, path[0]), path[1..]))
  }

  /** Where nothing else conflicts, the refusal is right exactly where the path is forced. */
  lemma {:induction false} ClashRefusalExact(a: Json, b: Json, path: seq<string>)
    requires ConstClash(a, b, path) && ElseAgree(a, b, path)
    ensures Merge(a.fields, b.fields).None?
    ensures Compatible(a, b) <==> !Forced(a, b, path)
  {
    ClashRefused(a, b, path);
    AgreeableExact(a, b);
    ClashAgreeable(a, b, path);
  }

  lemma {:induction false} ClashAgreeable(a: Json, b: Json, path: seq<string>)
    requires ConstClash(a, b, path) && ElseAgree(a, b, path)
    ensures Agreeable(a, b) <==> !Forced(a, b, path)
    decreases |path|
  {
    if path == [] {
      assert !Valid(b, ConstOf(a).value);
    } else {
      var n := path[0];
      ClashAgreeable(PropAt(a, n), PropAt(b, n), path[1..]);
      assert AgreeableAt(a, b, n) <==> Agreeable(PropAt(a, n), PropAt(b, n));
      if n in RequiredBy(a) + RequiredBy(b) && Agreeable(a, b) && OnlyObjects(a, b) { assert AgreeableAt(a, b, n); }
    }
  }

  // ----- Two refusals that are wrong -----

  function Fixed(n: real): Node { map["const" := Num(n)] }

  function HoldsX(n: real): Node { map["properties" := Obj(map["x" := Obj(Fixed(n))])] }

  /** Distinct const values for a property that neither schema requires. */
  lemma {:induction false} OptionalClashRefused(a: Node, b: Node)
    requires a == HoldsX(1.0) && b == HoldsX(2.0)
    ensures WellTyped(Obj(a)) && WellTyped(Obj(b)) && Merge(a, b).None? && Compatible(Obj(a), Obj(b))
  {
    assert PropAt(Obj(a), "x") == Obj(Fixed(1.0)) && PropAt(Obj(b), "x") == Obj(Fixed(2.0));
    assert ConstClash(Obj(Fixed(1.0)), Obj(Fixed(2.0)), []) && ["x"][1..] == [];
    assert ElseAgree(Obj(Fixed(1.0)), Obj(Fixed(2.0)), []);
    assert "x" !in RequiredBy(Obj(a)) + RequiredBy(Obj(b));
    ClashRefusalExact(Obj(a), Obj(b), ["x"]);
    HoldsXTyped(1.0);
    HoldsXTyped(2.0);
  }

  lemma {:induction false} HoldsXTyped(n: real)
    ensures WellTyped(Obj(HoldsX(n)))
  {
    assert WellTyped(Obj(Fixed(n)));
  }

  /** Numbers against integers, though integers are numbers. */
  lemma {:induction false} NumberClashesWithInteger(a: Node, b: Node)
    requires a == map["type" := Str("number")] && b == map["type" := Str("integer")]
    ensures Merge(a, b).None? && MixesNumbers(a, b) && ValidUnder(Obj(a), Obj(b), Num(3.0))
  {
    NumberAndInteger();
    TypesMixed(a, b);
    TypesRefused(a, b);
    ThreeAllowed(a, b);
    OnlyType(a, Num(3.0));
    OnlyType(b, Num(3.0));
  }

  lemma {:induction false} OnlyType(m: Node, v: Json)
    requires m.Keys == {"type"} && AllowsType(m, v)
    ensures Valid(Obj(m), v)
  {
    assert "const" !in m && "required" !in m && "properties" !in m;
  }

  lemma {:induction false} TypesRefused(a: Node, b: Node)
    requires "type" in a && "type" in b && Intersect(a["type"], b["type"]).None?
    ensures Merge(a, b).None?
  {
    assert MergeKey(a, b, "type").None?;
  }

  lemma {:induction false} NumberAndInteger()
    ensures TypesOf(Str("number")) == Some(["number"]) && TypesOf(Str("integer")) == Some(["integer"])
    ensures Intersect(Str("number"), Str("integer")).None?
  {
    assert "number" !in ["integer"];
    IntersectExact(Str("number"), Str("integer"));
  }

  lemma {:induction false} TypesMixed(a: Node, b: Node)
    requires "type" in a && "type" in b
    requires TypesOf(a["type"]) == Some(["number"]) && TypesOf(b["type"]) == Some(["integer"])
    ensures MixesNumbers(a, b)
  {
    assert "number" in ["number"] && "integer" in ["integer"];
  }
}
