/** plant: writing one value into a record in place (internal/planting/path.go). */
module PlantOne {
  import opened JsonValues
  import opened Sorting
  import opened Paths
  import opened Records

  /** The subtree the last step of the path is taken from. */
  ghost function Holder(t: Tree, path: seq<Step>): (h: Tree)
    requires path != [] && PathTo(t, path).Some?
    ensures Kid(h, path[|path| - 1]).Some?
    decreases |path|
  {
    if |path| == 1 then t else Holder(Kid(t, path[0]).value, path[1..])
  }

  ghost function HolderObj(t: Tree, path: seq<Step>): object
    requires path != [] && PathTo(t, path).Some?
  {
    ContainerObj(Holder(t, path), path[|path| - 1])
  }

  ghost function ContainerObj(t: Tree, step: Step): object
    requires Kid(t, step).Some?
  {
    match t
    case TList(c, _) => c
    case TObject(_, c, _) => c
    case TDict(d, _) => d
  }

  /** w was stored in t's container under the step, and nothing else there changed. */
  twostate predicate Stored(t: Tree, step: Step, new w: Val)
    requires Kid(t, step).Some?
    reads ContainerObj(t, step)
  {
    match t
    case TList(c, _) => CellSet(c, step.index, w)
    case TObject(keys, c, _) => CellSet(c, IndexOf(keys, step.field), w)
    case TDict(d, _) => d.m == old(d.m)[step.field := w]
  }

  twostate predicate CellSet(c: array<Val>, i: int, new w: Val)
    reads c
  {
    0 <= i < c.Length && c[i] == w && forall j | 0 <= j < c.Length && j != i :: c[j] == old(c[j])
  }

  twostate predicate StoredAt(t: Tree, path: seq<Step>, new w: Val)
    requires path != [] && PathTo(t, path).Some?
    reads HolderObj(t, path)
  {
    Stored(Holder(t, path), path[|path| - 1], w)
  }

  twostate predicate OnlyChanged(objs: set<object>, new o: object)
    reads objs
  {
    forall p: object | p in objs && p != o :: unchanged(p)
  }

  lemma {:induction false} HolderInside(t: Tree, path: seq<Step>)
    requires path != [] && PathTo(t, path).Some?
    ensures HolderObj(t, path) in Objs(t)
    decreases |path|
  {
    if |path| > 1 {
      KidInside(t, path[0]);
      HolderInside(Kid(t, path[0]).value, path[1..]);
    }
  }

  /** Where one step of a record now holds x and the other steps hold what they held, the
      record is laid out with x under that step. */
  twostate lemma StepAfter(a: Laid, new step: Step, new x: Tree, new w: Val, new o: object)
    requires old(Owns(a.v, a.t)) && Proper(a.t) && Kid(a.t, step).Some?
    requires OnlyChanged(Objs(a.t), o) && (o == ContainerObj(a.t, step) || o in Objs(Kid(a.t, step).value))
    requires Stored(a.t, step, w) && Owns(w, x)
    ensures Owns(a.v, SetKid(a.t, step, x))
  {
    match a.t
    case TList(_, _) => ListAfter(a, step, x, w, o);
    case TObject(_, _, _) => ObjectAfter(a, step, x, w, o);
    case TDict(_, _) => DictAfter(a, step, x, w, o);
  }

  twostate lemma ListAfter(a: Laid, new step: Step, new x: Tree, new w: Val, new o: object)
    requires a.t.TList? && old(Owns(a.v, a.t)) && Proper(a.t) && Kid(a.t, step).Some?
    requires OnlyChanged(Objs(a.t), o) && (o == ContainerObj(a.t, step) || o in Objs(Kid(a.t, step).value))
    requires Stored(a.t, step, w) && Owns(w, x)
    ensures Owns(a.v, SetKid(a.t, step, x))
  {
    var c, kids := a.t.cells, a.t.kids;
    forall j | 0 <= j < |kids| && j != step.index ensures Owns(c[j], kids[j]) {
      KidOf(c, kids, j);
      assert Objs(kids[j]) !! Objs(kids[step.index]);
      assert old(Owns(c[j], kids[j]));
    }
  }

  twostate lemma ObjectAfter(a: Laid, new step: Step, new x: Tree, new w: Val, new o: object)
    requires a.t.TObject? && old(Owns(a.v, a.t)) && Proper(a.t) && Kid(a.t, step).Some?
    requires OnlyChanged(Objs(a.t), o) && (o == ContainerObj(a.t, step) || o in Objs(Kid(a.t, step).value))
    requires Stored(a.t, step, w) && Owns(w, x)
    ensures Owns(a.v, SetKid(a.t, step, x))
  {
    var c, kids := a.t.cells, a.t.kids;
    var i := IndexOf(a.t.keys, step.field);
    forall j | 0 <= j < |kids| && j != i ensures Owns(c[j], kids[j]) {
      KidOf(c, kids, j);
      assert Objs(kids[j]) !! Objs(kids[i]);
      assert old(Owns(c[j], kids[j]));
    }
  }

  twostate lemma DictAfter(a: Laid, new step: Step, new x: Tree, new w: Val, new o: object)
    requires a.t.TDict? && old(Owns(a.v, a.t)) && Proper(a.t) && Kid(a.t, step).Some?
    requires OnlyChanged(Objs(a.t), o) && (o == ContainerObj(a.t, step) || o in Objs(Kid(a.t, step).value))
    requires Stored(a.t, step, w) && Owns(w, x)
    ensures Owns(a.v, SetKid(a.t, step, x))
  {
    var d, entries := a.t.d, a.t.entries;
    forall j | j in entries && j != step.field ensures Owns(d.m[j], entries[j]) {
      EntryOf(a.t, j);
      assert Objs(entries[j]) !! Objs(entries[step.field]);
      assert old(Owns(d.m[j], entries[j]));
    }
  }

  /** The value under a step of a record, which the path goes on from. */
  ghost function Under(t: Tree, step: Step): Val
    requires Kid(t, step).Some? && HoldsKids(t)
    reads Objs(t)
  {
    match t
    case TList(c, _) => c[step.index]
    case TObject(keys, c, _) => c[IndexOf(keys, step.field)]
    case TDict(d, _) => d.m[step.field]
  }

  ghost predicate HoldsKids(t: Tree)
    reads Objs(t)
  {
    match t
    case TScalar(_) => true
    case TList(c, kids) => CellsHold(c, kids)
    case TObject(_, c, kids) => CellsHold(c, kids)
    case TDict(_, _) => EntriesHold(t)
  }

  /** A path of several steps ends where the rest of it does. */
  lemma {:induction false} SameHolder(t: Tree, path: seq<Step>)
    requires |path| > 1 && PathTo(t, path).Some?
    ensures var kid := Kid(t, path[0]).value;
            && PathTo(kid, path[1..]).Some? && Holder(kid, path[1..]) == Holder(t, path)
            && path[1..][|path[1..]| - 1] == path[|path| - 1] && HolderObj(kid, path[1..]) == HolderObj(t, path)
  {
  }

  /** Storing w at the end of a path lays the record out as the grafted tree. */
  twostate lemma {:induction false} Written(a: Laid, new path: seq<Step>, new x: Tree, new w: Val)
    requires path != [] && PathTo(a.t, path).Some? && Proper(a.t) && old(Owns(a.v, a.t)) && Owns(w, x)
    requires StoredAt(a.t, path, w) && OnlyChanged(Objs(a.t), HolderObj(a.t, path))
    ensures Owns(a.v, Graft(a.t, path, x))
    decreases |path|
  {
    var step := path[0];
    var kid := Kid(a.t, step).value;
    var o := HolderObj(a.t, path);
    KidInside(a.t, step);
    if |path| == 1 {
      StepAfter(a, step, x, w, o);
    } else {
      SameHolder(a.t, path);
      HolderInside(kid, path[1..]);
      UnderStays(a, step, o);
      var u := old(Under(a.t, step));
      Written(Laid(u, kid), path[1..], x, w);
      StepAfter(a, step, Graft(kid, path[1..], x), u, o);
    }
  }

  /** Where only what lies under a step was written to, the value under the step is the one it was. */
  twostate lemma {:induction false} UnderStays(a: Laid, new step: Step, new o: object)
    requires old(Owns(a.v, a.t)) && Proper(a.t) && Kid(a.t, step).Some?
    requires OnlyChanged(Objs(a.t), o) && o in Objs(Kid(a.t, step).value)
    ensures old(HoldsKids(a.t)) && old(Owns(Under(a.t, step), Kid(a.t, step).value))
    ensures old(allocated(Laid(Under(a.t, step), Kid(a.t, step).value)))
    ensures Stored(a.t, step, old(Under(a.t, step))) && OnlyChanged(Objs(Kid(a.t, step).value), o)
  {
    KidInside(a.t, step);
    ContainerOutside(a.t, step);
  }

  lemma ContainerOutside(t: Tree, step: Step)
    requires Kid(t, step).Some? && Proper(t)
    ensures ContainerObj(t, step) in Objs(t) && ContainerObj(t, step) !in Objs(Kid(t, step).value)
  {
  }

  /** child: one step into a record. */
  method ReadChild(current: Val, step: Step, ghost t: Tree) returns (r: Option<Val>)
    requires Owns(current, t) && Proper(t)
    ensures r.Some? <==> Kid(t, step).Some?
    ensures r.Some? ==> Owns(r.value, Kid(t, step).value)
  {
    if step.index >= 0 {
      if !current.List? || step.index >= current.cells.Length { return None; }
      return Some(current.cells[step.index]);
    }
    match current
    case Dict(d) => r := if step.field in d.m then Some(d.m[step.field]) else None;
    case Object(keys, cells) =>
      var i := IndexOf(keys, step.field);
      r := if i < |keys| && i < cells.Length then Some(cells[i]) else None;
    case _ => r := None;
  }

  /** The write itself: into the container that holds the last step. */
  method StoreLast(current: Val, step: Step, value: Val, ghost t: Tree) returns (ok: bool)
    requires Owns(current, t) && Proper(t)
    modifies if Kid(t, step).Some? then {ContainerObj(t, step)} else {}
    ensures ok <==> Kid(t, step).Some?
    ensures ok ==> Stored(t, step, value)
  {
    if step.index >= 0 {
      if !current.List? || step.index >= current.cells.Length { return false; }
      current.cells[step.index] := value;
      return true;
    }
    match current
    case Dict(d) =>
      if step.field !in d.m { return false; }
      d.m := d.m[step.field := value];
      ok := true;
    case Object(keys, cells) =>
      var i := IndexOf(keys, step.field);
      if i >= |keys| || i >= cells.Length { return false; }
      cells[i] := value;
      ok := true;
    case _ => ok := false;
  }

  /** The descent: the value the last step is taken from, or none where a step misses. */
  method FindHolder(into: Val, path: seq<Step>, ghost t: Tree) returns (r: Option<Val>, ghost h: Tree)
    requires path != [] && Owns(into, t) && Proper(t)
    ensures r.None? ==> PathTo(t, path).None?
    ensures r.Some? ==> Owns(r.value, h) && Proper(h) && Objs(h) <= Objs(t)
    ensures r.Some? ==> (PathTo(t, path).Some? <==> Kid(h, path[|path| - 1]).Some?)
    ensures PathTo(t, path).Some? ==> h == Holder(t, path)
  {
    var current := into;
    h := t;
    var n := |path| - 1;
    assert path[0..] == path;
    for i := 0 to n
      invariant Owns(current, h) && Proper(h) && Objs(h) <= Objs(t)
      invariant PathTo(t, path) == PathTo(h, path[i..])
      invariant PathTo(t, path).Some? ==> Holder(t, path) == Holder(h, path[i..])
    {
      var next := ReadChild(current, path[i], h);
      assert path[i..][1..] == path[i + 1..];
      if next.None? { return None, h; }
      KidInside(h, path[i]);
      h := Kid(h, path[i]).value;
      current := next.value;
    }
    assert path[n..] == [path[n]];
    r := Some(current);
  }

  /** The write at the end of path, found to be into h. */
  method StoreAt(into: Val, path: seq<Step>, current: Val, value: Val, ghost t: Tree, ghost h: Tree, ghost x: Tree)
    returns (ok: bool)
    requires path != [] && Owns(into, t) && Proper(t) && Owns(value, x) && Objs(x) !! Objs(t)
    requires Owns(current, h) && Proper(h) && Objs(h) <= Objs(t)
    requires PathTo(t, path).Some? <==> Kid(h, path[|path| - 1]).Some?
    requires PathTo(t, path).Some? ==> h == Holder(t, path)
    modifies Objs(t)
    ensures ok <==> PathTo(t, path).Some?
    ensures if ok then Owns(into, Graft(t, path, x)) else Owns(into, t)
  {
    ObjsAllocated(t);
    ObjsAllocated(x);
    if PathTo(t, path).Some? { HolderInside(t, path); }
    label Before:
    ok := StoreLast(current, path[|path| - 1], value, h);
    if ok { Written@Before(Laid(into, t), path, x, value); }
  }

  /** plant: writes value at the end of path, in place, whenever every step exists; the
      record then reads as value there and as before everywhere clear of the path. */
  method Plant(into: Val, path: seq<Step>, value: Val, ghost t: Tree, ghost x: Tree) returns (ok: bool)
    requires path != []
    requires Owns(into, t) && Proper(t) && Owns(value, x) && Proper(x) && Objs(x) !! Objs(t)
    modifies Objs(t)
    ensures ok <==> PathTo(t, path).Some?
    ensures ok ==> Owns(into, Graft(t, path, x)) && Proper(Graft(t, path, x))
    ensures ok ==> Objs(Graft(t, path, x)) <= Objs(t) + Objs(x)
    ensures !ok ==> Owns(into, t)
    ensures Owns(value, x)
  {
    ObjsAllocated(t);
    ObjsAllocated(x);
    var current, h := FindHolder(into, path, t);
    if current.None? { return false; }
    if PathTo(t, path).Some? { GraftProper(t, path, x); }
    ok := StoreAt(into, path, current.value, value, t, h, x);
  }
}
