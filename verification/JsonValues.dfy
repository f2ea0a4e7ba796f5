/** Decoded JSON as the program holds it: Go's `any` after a JSON round trip, plus the
    ordered object of internal/ordered, whose keys keep their order. */
module JsonValues {

  datatype Option<+T> = None | Some(value: T) {
    function GetOr(default: T): T {
      match this
      case Some(v) => v
      case None => default
    }
  }

  datatype Json =
    | Null
    | Bool(b: bool)
    | Num(n: real)
    | Str(s: string)
    | Arr(items: seq<Json>)
    | Obj(fields: map<string, Json>)
    | Ord(keys: seq<string>, vals: seq<Json>)
    | Native(go: GoValue)

  /** The typed Go values the Avro value convention uses beside JSON's own. */
  datatype GoValue =
    | Int32(i: int)
    | Int64(i: int)
    | Float32(r: real)
    | Float64(r: real)
    | Bytes(bytes: seq<nat>)
    | FixedBytes(bytes: seq<nat>)
    | Instant(ticks: int)
    | Duration(ticks: int)
    | Rat(num: int, den: int)

  /** A JSON object read as a schema node: Go's map[string]any. */
  type Node = map<string, Json>

  /** The string under a key, when there is one. */
  function StrAt(m: Node, k: string): Option<string> {
    if k in m && m[k].Str? then Some(m[k].s) else None
  }

  function ListAt(m: Node, k: string): Option<seq<Json>> {
    if k in m && m[k].Arr? then Some(m[k].items) else None
  }

  function NodeAt(m: Node, k: string): Option<Node> {
    if k in m && m[k].Obj? then Some(m[k].fields) else None
  }

  function NumAt(m: Node, k: string): Option<real> {
    if k in m && m[k].Num? then Some(m[k].n) else None
  }

  // ----- Height: the termination measure of every walk over JSON -----

  ghost function MaxOf(s: set<nat>): (m: nat)
    ensures s == {} ==> m == 0
    ensures s != {} ==> m in s
    ensures forall x | x in s :: x <= m
  {
    if s == {} then 0
    else
      var x :| x in s;
      var rest := s - {x};
      var m := MaxOf(rest);
      assert s == rest + {x};
      if x <= m then m else x
  }

  ghost function Height(v: Json): nat {
    match v
    case Obj(m) => 1 + MaxOf(set k | k in m :: Height(m[k]))
    case Arr(s) => 1 + MaxOf(set i | 0 <= i < |s| :: Height(s[i]))
    case Ord(_, s) => 1 + MaxOf(set i | 0 <= i < |s| :: Height(s[i]))
    case _ => 0
  }

  lemma HeightField(m: Node, k: string)
    requires k in m
    ensures Height(m[k]) < Height(Obj(m))
  {
    var hs := set j | j in m :: Height(m[j]);
    assert Height(Obj(m)) == 1 + MaxOf(hs);
    assert Height(m[k]) in hs;
  }

  lemma HeightItem(s: seq<Json>, i: nat)
    requires i < |s|
    ensures Height(s[i]) < Height(Arr(s))
  {
    var hs := set j | 0 <= j < |s| :: Height(s[j]);
    assert Height(Arr(s)) == 1 + MaxOf(hs);
    assert Height(s[i]) in hs;
  }

  /** A bound on every field is a bound on the object. */
  lemma HeightObjBound(m: Node, h: nat)
    requires 1 <= h
    requires forall k | k in m :: Height(m[k]) < h
    ensures Height(Obj(m)) <= h
  {
    var hs := set k | k in m :: Height(m[k]);
    assert forall x | x in hs :: x < h;
  }

  lemma HeightArrBound(s: seq<Json>, h: nat)
    requires 1 <= h
    requires forall i | 0 <= i < |s| :: Height(s[i]) < h
    ensures Height(Arr(s)) <= h
  {
    var hs := set i | 0 <= i < |s| :: Height(s[i]);
    assert forall x | x in hs :: x < h;
  }
}
