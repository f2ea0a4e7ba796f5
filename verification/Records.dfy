/** Generated values as Go holds them: slices and objects on the heap, written in place.
    A ghost Tree says which objects a value is laid out in; Owns ties it to the heap, Proper
    says no two parts share an object, and View is the JSON it reads as. */
module Records {
  import opened JsonValues
  import opened Sorting
  import opened Paths

  /** Go's map[string]any. */
  class MapCell {
    var m: map<string, Val>
    constructor (m: map<string, Val>)
      ensures this.m == m
    {
      this.m := m;
    }
  }

  /** A value: a scalar, a []any, an ordered.Object whose copies share its values, or a map. */
  datatype Val =
    | Scalar(j: Json)
    | List(cells: array<Val>)
    | Object(keys: seq<string>, cells: array<Val>)
    | Dict(d: MapCell)

  datatype Tree =
    | TScalar(j: Json)
    | TList(cells: array<Val>, kids: seq<Tree>)
    | TObject(keys: seq<string>, cells: array<Val>, kids: seq<Tree>)
    | TDict(d: MapCell, entries: map<string, Tree>)

  /** A value together with the tree it is laid out as. */
  datatype Laid = Laid(v: Val, t: Tree)

  predicate IsScalar(j: Json) { !j.Arr? && !j.Obj? && !j.Ord? }

  ghost function KidObjs(kids: seq<Tree>): set<object>
    decreases kids, 0
  {
    set i, o | 0 <= i < |kids| && o in Objs(kids[i]) :: o
  }

  ghost function EntryObjs(t: Tree): set<object>
    requires t.TDict?
    decreases t, 0
  {
    set k, o | k in t.entries && o in Objs(t.entries[k]) :: o
  }

  /** The heap objects a tree is made of. */
  ghost function Objs(t: Tree): set<object>
    decreases t, 1
  {
    match t
    case TScalar(_) => {}
    case TList(c, kids) => {c} + KidObjs(kids)
    case TObject(_, c, kids) => {c} + KidObjs(kids)
    case TDict(d, _) => {d} + EntryObjs(t)
  }

  ghost predicate KidsApart(c: object, kids: seq<Tree>)
    decreases kids, 0
  {
    && (forall i | 0 <= i < |kids| :: Proper(kids[i]) && c !in Objs(kids[i]))
    && (forall i, j | 0 <= i < j < |kids| :: Objs(kids[i]) !! Objs(kids[j]))
  }

  ghost predicate EntriesApart(t: Tree)
    requires t.TDict?
    decreases t, 0
  {
    && (forall k | k in t.entries :: Proper(t.entries[k]) && t.d !in Objs(t.entries[k]))
    && (forall j, k | j in t.entries && k in t.entries && j != k :: Objs(t.entries[j]) !! Objs(t.entries[k]))
  }

  /** No object occurs twice. */
  ghost predicate Proper(t: Tree)
    decreases t, 1
  {
    match t
    case TScalar(j) => IsScalar(j)
    case TList(c, kids) => KidsApart(c, kids)
    case TObject(_, c, kids) => KidsApart(c, kids)
    case TDict(_, _) => EntriesApart(t)
  }

  ghost predicate CellsHold(c: array<Val>, kids: seq<Tree>)
    reads c, KidObjs(kids)
    decreases kids, 0
  {
    c.Length == |kids| && forall i | 0 <= i < |kids| :: Owns(c[i], kids[i])
  }

  ghost predicate EntriesHold(t: Tree)
    requires t.TDict?
    reads t.d, EntryObjs(t)
    decreases t, 0
  {
    t.d.m.Keys == t.entries.Keys && forall k | k in t.entries :: Owns(t.d.m[k], t.entries[k])
  }

  /** v is laid out on the heap as t. */
  ghost predicate Owns(v: Val, t: Tree)
    reads Objs(t)
    decreases t, 1
  {
    match t
    case TScalar(j) => v == Scalar(j)
    case TList(c, kids) => v == List(c) && CellsHold(c, kids)
    case TObject(keys, c, kids) => v == Object(keys, c) && CellsHold(c, kids)
    case TDict(d, _) => v == Dict(d) && EntriesHold(t)
  }

  /** A tree's objects exist, so a call that may not write them leaves the tree laid out. */
  lemma {:induction false} ObjsAllocated(t: Tree)
    ensures forall o | o in Objs(t) :: allocated(o)
    decreases t
  {
    match t
    case TScalar(_) =>
    case TList(c, kids) => KidsAllocated(kids);
    case TObject(_, c, kids) => KidsAllocated(kids);
    case TDict(d, entries) =>
      forall o | o in EntryObjs(t) ensures allocated(o) {
        var k :| k in entries && o in Objs(entries[k]);
        ObjsAllocated(entries[k]);
      }
  }

  lemma {:induction false} KidsAllocated(kids: seq<Tree>)
    ensures forall o | o in KidObjs(kids) :: allocated(o)
    decreases kids
  {
    forall o | o in KidObjs(kids) ensures allocated(o) {
      var i :| 0 <= i < |kids| && o in Objs(kids[i]);
      ObjsAllocated(kids[i]);
    }
  }

  ghost function View(t: Tree): Json {
    match t
    case TScalar(j) => j
    case TList(_, kids) => Arr(seq(|kids|, i requires 0 <= i < |kids| => View(kids[i])))
    case TObject(keys, _, kids) => Ord(keys, seq(|kids|, i requires 0 <= i < |kids| => View(kids[i])))
    case TDict(_, entries) => Obj(map k | k in entries :: View(entries[k]))
  }

  // ----- Reading along a path -----

  /** The subtree one step down. */
  ghost function Kid(t: Tree, step: Step): (r: Option<Tree>)
    ensures r.Some? ==> r.value < t
  {
    if step.index >= 0 then
      if t.TList? && step.index < |t.kids| then Some(t.kids[step.index]) else None
    else match t
      case TObject(keys, _, kids) =>
        var i := IndexOf(keys, step.field);
        if i < |keys| && i < |kids| then Some(kids[i]) else None
      case TDict(_, entries) => if step.field in entries then Some(entries[step.field]) else None
      case _ => None
  }

  ghost function PathTo(t: Tree, path: seq<Step>): Option<Tree> {
    if path == [] then Some(t)
    else if Kid(t, path[0]).None? then None
    else PathTo(Kid(t, path[0]).value, path[1..])
  }

  lemma KidOf(c: object, kids: seq<Tree>, i: nat)
    requires i < |kids|
    ensures Objs(kids[i]) <= KidObjs(kids)
    ensures KidsApart(c, kids) ==> Proper(kids[i])
  {
  }

  lemma EntryOf(t: Tree, k: string)
    requires t.TDict? && k in t.entries
    ensures Objs(t.entries[k]) <= EntryObjs(t)
    ensures EntriesApart(t) ==> Proper(t.entries[k])
  {
  }

  lemma KidInside(t: Tree, step: Step)
    requires Kid(t, step).Some?
    ensures Objs(Kid(t, step).value) <= Objs(t)
    ensures Proper(t) ==> Proper(Kid(t, step).value)
  {
    match t
    case TList(c, kids) => KidOf(c, kids, step.index);
    case TObject(keys, c, kids) => KidOf(c, kids, IndexOf(keys, step.field));
    case TDict(d, entries) => EntryOf(t, step.field);
  }

  /** Reading the tree reads the JSON it stands for. */
  lemma {:induction false} ViewAlong(t: Tree, path: seq<Step>)
    requires Proper(t)
    ensures PathTo(t, path).Some? <==> At(View(t), path).Some?
    ensures PathTo(t, path).Some? ==> View(PathTo(t, path).value) == At(View(t), path).value
    decreases |path|
  {
    if path != [] {
      KidViewed(t, path[0]);
      if Kid(t, path[0]).Some? {
        KidInside(t, path[0]);
        ViewAlong(Kid(t, path[0]).value, path[1..]);
      }
    }
  }

  /** One step into a tree reads the same step of its JSON. */
  lemma {:induction false} KidViewed(t: Tree, step: Step)
    requires Proper(t)
    ensures Kid(t, step).Some? <==> Child(View(t), step).Some?
    ensures Kid(t, step).Some? ==> View(Kid(t, step).value) == Child(View(t), step).value
  {
  }

  // ----- Replacing the subtree at the end of a path -----

  ghost function SetKid(t: Tree, step: Step, x: Tree): Tree
    requires Kid(t, step).Some?
  {
    match t
    case TList(c, kids) => TList(c, kids[step.index := x])
    case TObject(keys, c, kids) => TObject(keys, c, kids[IndexOf(keys, step.field) := x])
    case TDict(d, entries) => TDict(d, entries[step.field := x])
  }

  ghost function Graft(t: Tree, path: seq<Step>, x: Tree): Tree
    requires PathTo(t, path).Some?
    decreases |path|
  {
    if path == [] then x
    else SetKid(t, path[0], Graft(Kid(t, path[0]).value, path[1..], x))
  }

  /** x shares objects with the whole only where the part it replaces does. */
  ghost predicate FitsFor(x: Tree, whole: set<object>, part: Tree) {
    forall o | o in Objs(x) && o in whole :: o in Objs(part)
  }

  lemma KidsReplaced(c: object, kids: seq<Tree>, i: nat, x: Tree)
    requires i < |kids| && KidsApart(c, kids) && Proper(x) && FitsFor(x, {c} + KidObjs(kids), kids[i])
    ensures KidsApart(c, kids[i := x])
    ensures KidObjs(kids[i := x]) <= KidObjs(kids) + Objs(x)
  {
    var s := kids[i := x];
    forall j | 0 <= j < |s| && j != i ensures Objs(s[j]) !! Objs(x) {
      KidOf(c, kids, j);
      assert Objs(kids[j]) !! Objs(kids[i]);
    }
    forall j, k | 0 <= j < k < |s| ensures Objs(s[j]) !! Objs(s[k]) { }
  }

  lemma EntriesReplaced(t: Tree, i: string, x: Tree)
    requires t.TDict? && i in t.entries && EntriesApart(t) && Proper(x)
    requires FitsFor(x, {t.d} + EntryObjs(t), t.entries[i])
    ensures var u := TDict(t.d, t.entries[i := x]); EntriesApart(u) && EntryObjs(u) <= EntryObjs(t) + Objs(x)
  {
    var s := t.entries[i := x];
    forall j | j in s && j != i ensures Objs(s[j]) !! Objs(x) {
      EntryOf(t, j);
      assert Objs(t.entries[j]) !! Objs(t.entries[i]);
    }
    forall j, k | j in s && k in s && j != k ensures Objs(s[j]) !! Objs(s[k]) { }
  }

  lemma SetKidProper(t: Tree, step: Step, x: Tree)
    requires Kid(t, step).Some? && Proper(t) && Proper(x) && FitsFor(x, Objs(t), Kid(t, step).value)
    ensures Proper(SetKid(t, step, x))
    ensures Objs(SetKid(t, step, x)) <= Objs(t) + Objs(x)
    ensures Kid(SetKid(t, step, x), step) == Some(x)
  {
    match t
    case TList(c, kids) => KidsReplaced(c, kids, step.index, x);
    case TObject(keys, c, kids) => KidsReplaced(c, kids, IndexOf(keys, step.field), x);
    case TDict(d, entries) => EntriesReplaced(t, step.field, x);
  }

  /** A grafted tree is still proper, and reads as x at the path. */
  lemma {:induction false} GraftProper(t: Tree, path: seq<Step>, x: Tree)
    requires PathTo(t, path).Some? && Proper(t) && Proper(x) && Objs(x) !! Objs(t)
    ensures Proper(Graft(t, path, x)) && Objs(Graft(t, path, x)) <= Objs(t) + Objs(x)
    ensures PathTo(Graft(t, path, x), path) == Some(x)
    decreases |path|
  {
    if path != [] {
      var kid := Kid(t, path[0]).value;
      KidInside(t, path[0]);
      GraftProper(kid, path[1..], x);
      SetKidProper(t, path[0], Graft(kid, path[1..], x));
    }
  }

  /** Neither of two paths leads to or into the other. */
  ghost predicate Clear(p: seq<Step>, q: seq<Step>) { !(p <= q) && !(q <= p) }

  lemma OtherKid(t: Tree, p: Step, q: Step, x: Tree)
    requires Kid(t, p).Some?
    ensures Kid(t, q).Some? <==> Kid(SetKid(t, p, x), q).Some?
    ensures Kid(t, q).Some? ==> Kid(SetKid(t, p, x), q) == Kid(t, q) || Kid(SetKid(t, p, x), q) == Some(x)
    ensures Resolved(p) && Resolved(q) && p != q ==> Kid(SetKid(t, p, x), q) == Kid(t, q)
  {
  }

  /** The steps a walk resolves a path to: an index without a field, or a field. */
  ghost predicate Resolved(s: Step) { !s.token && if s.index >= 0 then s.field == "" else s.index == -1 }

  ghost predicate ResolvedPath(p: seq<Step>) { forall i | 0 <= i < |p| :: Resolved(p[i]) }

  lemma {:induction false} ClearTails(p: seq<Step>, q: seq<Step>)
    requires Clear(p, q) && p[0] == q[0]
    ensures Clear(p[1..], q[1..]) && (ResolvedPath(p) ==> ResolvedPath(p[1..]))
    ensures ResolvedPath(q) ==> ResolvedPath(q[1..])
  {
    assert p == [p[0]] + p[1..] && q == [q[0]] + q[1..];
  }

  /** Grafting changes nothing along a path clear of it. */
  lemma {:induction false} GraftElsewhere(t: Tree, p: seq<Step>, x: Tree, q: seq<Step>)
    requires PathTo(t, p).Some? && Clear(p, q) && ResolvedPath(p) && ResolvedPath(q)
    ensures PathTo(Graft(t, p, x), q) == PathTo(t, q)
    decreases |p|
  {
    var kid := Kid(t, p[0]).value;
    var sub := Graft(kid, p[1..], x);
    OtherKid(t, p[0], q[0], sub);
    if p[0] == q[0] {
      ClearTails(p, q);
      GraftElsewhere(kid, p[1..], x, q[1..]);
      assert Kid(SetKid(t, p[0], sub), p[0]) == Some(sub);
    }
  }

  // ----- Building records -----

  /** Values laid out side by side, sharing nothing. */
  ghost predicate Row(vals: seq<Val>, ts: seq<Tree>)
    reads KidObjs(ts)
  {
    |vals| == |ts| && forall i | 0 <= i < |ts| :: Owns(vals[i], ts[i])
  }

  ghost predicate RowApart(ts: seq<Tree>) {
    && (forall i | 0 <= i < |ts| :: Proper(ts[i]))
    && (forall i, j | 0 <= i < j < |ts| :: Objs(ts[i]) !! Objs(ts[j]))
  }

  lemma RowSnoc(vals: seq<Val>, ts: seq<Tree>, v: Val, t: Tree)
    requires Row(vals, ts) && RowApart(ts) && Owns(v, t) && Proper(t) && Objs(t) !! KidObjs(ts)
    ensures Row(vals + [v], ts + [t]) && RowApart(ts + [t]) && KidObjs(ts + [t]) == KidObjs(ts) + Objs(t)
  {
    var us := ts + [t];
    forall i | 0 <= i < |ts| ensures Objs(us[i]) !! Objs(t) { assert Objs(ts[i]) <= KidObjs(ts); }
    assert KidObjs(us) == KidObjs(ts) + Objs(t) by {
      assert us[|ts|] == t;
      forall i, o | 0 <= i < |ts| && o in Objs(ts[i]) ensures o in KidObjs(us) { assert us[i] == ts[i]; }
    }
  }

  method NewCells(vals: seq<Val>, ghost ts: seq<Tree>) returns (c: array<Val>)
    requires Row(vals, ts) && RowApart(ts)
    ensures fresh(c) && CellsHold(c, ts) && KidsApart(c, ts) && c !in KidObjs(ts)
  {
    KidsAllocated(ts);
    c := new Val[|vals|](i requires 0 <= i < |vals| => vals[i]);
    assert forall i | 0 <= i < |ts| :: Objs(ts[i]) <= KidObjs(ts);
    assert Row(vals, ts);
  }

  method NewList(vals: seq<Val>, ghost ts: seq<Tree>) returns (v: Val, ghost t: Tree)
    requires Row(vals, ts) && RowApart(ts)
    ensures t.TList? && t.kids == ts && Owns(v, t) && Proper(t)
    ensures Objs(t) == {t.cells} + KidObjs(ts) && fresh(t.cells)
  {
    var c := NewCells(vals, ts);
    v, t := List(c), TList(c, ts);
  }

  method NewObject(keys: seq<string>, vals: seq<Val>, ghost ts: seq<Tree>) returns (v: Val, ghost t: Tree)
    requires Row(vals, ts) && RowApart(ts)
    ensures t.TObject? && t.keys == keys && t.kids == ts && Owns(v, t) && Proper(t)
    ensures Objs(t) == {t.cells} + KidObjs(ts) && fresh(t.cells)
  {
    var c := NewCells(vals, ts);
    v, t := Object(keys, c), TObject(keys, c, ts);
  }

  // ----- Values kept under names, as the generators' maps keep them -----

  ghost function EntrySet(ts: map<string, Tree>): set<object> {
    set k, o | k in ts && o in Objs(ts[k]) :: o
  }

  ghost predicate Entries(vals: map<string, Val>, ts: map<string, Tree>)
    reads EntrySet(ts)
  {
    vals.Keys == ts.Keys && forall k | k in ts :: Owns(vals[k], ts[k])
  }

  ghost predicate EntriesDisjoint(ts: map<string, Tree>) {
    && (forall k | k in ts :: Proper(ts[k]))
    && (forall j, k | j in ts && k in ts && j != k :: Objs(ts[j]) !! Objs(ts[k]))
  }

  lemma EntriesAllocated(ts: map<string, Tree>)
    ensures forall o | o in EntrySet(ts) :: allocated(o)
  {
    forall o | o in EntrySet(ts) ensures allocated(o) {
      var k :| k in ts && o in Objs(ts[k]);
      ObjsAllocated(ts[k]);
    }
  }

  lemma EntryAdded(ts: map<string, Tree>, name: string, t: Tree)
    requires EntriesDisjoint(ts) && name !in ts && Proper(t) && Objs(t) !! EntrySet(ts)
    ensures EntriesDisjoint(ts[name := t]) && EntrySet(ts[name := t]) == EntrySet(ts) + Objs(t)
  {
    var us := ts[name := t];
    forall k | k in ts ensures us[k] == ts[k] && Objs(ts[k]) <= EntrySet(ts) { }
    forall o | o in Objs(t) ensures o in EntrySet(us) { assert us[name] == t; }
    forall o | o in EntrySet(ts) ensures o in EntrySet(us) {
      var k :| k in ts && o in Objs(ts[k]);
      assert us[k] == ts[k];
    }
  }

  lemma EntryOwned(vals: map<string, Val>, ts: map<string, Tree>, name: string, v: Val, t: Tree)
    requires Entries(vals, ts) && name !in ts && Owns(v, t)
    ensures Entries(vals[name := v], ts[name := t])
  {
    var ws, us := vals[name := v], ts[name := t];
    forall k | k in us ensures Owns(ws[k], us[k]) {
      if k != name { assert Owns(vals[k], ts[k]); }
    }
  }

  method NewDict(vals: map<string, Val>, ghost ts: map<string, Tree>) returns (v: Val, ghost t: Tree)
    requires Entries(vals, ts) && EntriesDisjoint(ts)
    ensures t.TDict? && t.entries == ts && Owns(v, t) && Proper(t)
    ensures forall o | o in Objs(t) :: o in EntrySet(ts) || fresh(o)
  {
    EntriesAllocated(ts);
    var d := new MapCell(vals);
    v, t := Dict(d), TDict(d, ts);
    assert forall k | k in ts :: Objs(ts[k]) <= EntrySet(ts);
    assert EntryObjs(t) == EntrySet(ts);
    assert Entries(vals, ts);
  }

  // ----- Trees read as values -----

  ghost function Views(ts: seq<Tree>): seq<Json> { seq(|ts|, i requires 0 <= i < |ts| => View(ts[i])) }

  lemma {:induction false} ViewsSnoc(ts: seq<Tree>, t: Tree)
    ensures Views(ts + [t]) == Views(ts) + [View(t)]
  {
  }

  lemma {:induction false} ListViewed(t: Tree, ts: seq<Tree>)
    requires t.TList? && t.kids == ts
    ensures View(t) == Arr(Views(ts))
  {
  }

  ghost function ViewsByName(ts: map<string, Tree>): map<string, Json> { map k | k in ts :: View(ts[k]) }

  lemma {:induction false} NoEntries()
    ensures ViewsByName(map[]) == map[] && EntrySet(map[]) == {} && Entries(map[], map[]) && EntriesDisjoint(map[])
  {
  }

  lemma {:induction false} ViewsWith(ts: map<string, Tree>, name: string, t: Tree)
    ensures ViewsByName(ts[name := t]) == ViewsByName(ts)[name := View(t)]
  {
  }

  lemma {:induction false} DictViewed(t: Tree, ts: map<string, Tree>)
    requires t.TDict? && t.entries == ts
    ensures View(t) == Obj(ViewsByName(ts))
  {
  }
}
