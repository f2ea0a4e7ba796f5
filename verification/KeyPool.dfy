/** Key reuse (internal/keyplan/reuse.go): a ring of the Keys of the most recent Entities. */
module KeyPool {
  import opened JsonValues
  import opened Draws
  import opened Records
  import opened Plantings
  import opened Sources

  const MAX_ENTITIES: nat := 1000

  /** The ring read from its oldest entry on. */
  ghost function Window<T>(keys: seq<T>, oldest: nat): seq<T>
    requires oldest <= |keys|
  {
    keys[oldest..] + keys[..oldest]
  }

  /** The last entries of a history, as many as the ring holds. */
  ghost function Latest<T>(history: seq<T>): seq<T> {
    if |history| <= MAX_ENTITIES then history else history[|history| - MAX_ENTITIES..]
  }

  ghost predicate IsRing<T>(keys: seq<T>, oldest: nat, history: seq<T>) {
    && |keys| <= MAX_ENTITIES && (if |keys| < MAX_ENTITIES then oldest == 0 else oldest < MAX_ENTITIES)
    && Window(keys, oldest) == Latest(history)
  }

  /** The ring after one more Key. */
  function Pushed<T>(keys: seq<T>, oldest: nat, key: T): (seq<T>, nat)
    requires |keys| >= MAX_ENTITIES ==> oldest < |keys|
  {
    if |keys| < MAX_ENTITIES then (keys + [key], oldest)
    else (keys[oldest := key], (oldest + 1) % MAX_ENTITIES)
  }

  lemma {:induction false} RingFills<T>(keys: seq<T>, history: seq<T>, key: T)
    requires IsRing(keys, 0, history) && |keys| < MAX_ENTITIES
    ensures IsRing(keys + [key], 0, history + [key])
  {
    assert Window(keys, 0) == keys && |history| == |keys|;
    assert keys + [key] == Latest(history + [key]) && Window(keys + [key], 0) == keys + [key];
  }

  /** Overwriting the oldest entry and moving on drops it from the window and adds the newest. */
  lemma {:induction false} WindowTurns<T>(keys: seq<T>, oldest: nat, key: T)
    requires oldest < |keys|
    ensures Window(keys[oldest := key], (oldest + 1) % |keys|) == Window(keys, oldest)[1..] + [key]
  {
    if oldest + 1 == |keys| { LastTurns(keys, oldest, key); } else { InnerTurns(keys, oldest, key); }
  }

  lemma {:induction false} LastTurns<T>(keys: seq<T>, oldest: nat, key: T)
    requires oldest + 1 == |keys|
    ensures Window(keys[oldest := key], (oldest + 1) % |keys|) == Window(keys, oldest)[1..] + [key]
  {
    var ks := keys[oldest := key];
    assert Window(ks, 0) == ks == keys[..oldest] + [key];
    assert Window(keys, oldest) == [keys[oldest]] + keys[..oldest];
  }

  lemma {:induction false} InnerTurns<T>(keys: seq<T>, oldest: nat, key: T)
    requires oldest + 1 < |keys|
    ensures Window(keys[oldest := key], (oldest + 1) % |keys|) == Window(keys, oldest)[1..] + [key]
  {
    var ks := keys[oldest := key];
    assert (oldest + 1) % |keys| == oldest + 1;
    assert ks[oldest + 1..] == keys[oldest + 1..] && ks[..oldest + 1] == keys[..oldest] + [key];
    assert Window(keys, oldest)[1..] == keys[oldest + 1..] + keys[..oldest];
  }

  lemma {:induction false} PushKeepsRing<T>(keys: seq<T>, oldest: nat, history: seq<T>, key: T)
    requires IsRing(keys, oldest, history)
    ensures var (ks, o) := Pushed(keys, oldest, key); IsRing(ks, o, history + [key])
  {
    if |keys| < MAX_ENTITIES {
      RingFills(keys, history, key);
    } else {
      WindowTurns(keys, oldest, key);
      assert |Latest(history)| == MAX_ENTITIES;
      assert Latest(history + [key]) == Latest(history)[1..] + [key];
    }
  }

  class Pool {
    const source: Source
    const perKey: nat
    const picker: Synthesizer
    var keys: seq<Val>
    var oldest: nat
    ghost var trees: seq<Tree>
    // every fresh Key since the run began, in order
    ghost var history: seq<Laid>

    constructor (source: Source, perKey: nat, picker: Synthesizer)
      requires source.Ready() && perKey > 1
      ensures Valid() && fresh(this) && history == [] && trees == []
      ensures this.source == source && this.perKey == perKey && this.picker == picker
    {
      this.source, this.perKey, this.picker := source, perKey, picker;
      keys, oldest, trees, history := [], 0, [], [];
    }

    ghost function Entries(): (r: seq<Laid>)
      requires |trees| == |keys|
      reads this
      ensures |r| == |keys| && forall i | 0 <= i < |r| :: r[i] == Laid(keys[i], trees[i])
    {
      Zip(keys, trees)
    }

    /** The ring holds the last Keys drawn, each laid out in objects of its own. */
    ghost predicate Valid()
      reads this, KidObjs(trees)
    {
      && source.Ready() && perKey > 1
      && Row(keys, trees) && RowApart(trees)
      && (source.Parts() + {picker, this}) !! KidObjs(trees)
      && IsRing(Entries(), oldest, history)
    }

    /** Value: the Key of a recent Entity, or a fresh one that enters the ring. */
    method Value() returns (r: Option<Val>, ghost t: Tree)
      requires Valid()
      modifies this, picker, source.Parts()
      ensures Valid()
      ensures forall o | o in KidObjs(trees) :: o in old(KidObjs(trees)) || fresh(o)
      ensures r.None? ==> history == old(history) && !Answers(source.Of())
      ensures r.Some? ==> Owns(r.value, t) && Proper(t) && Laid(r.value, t) in Latest(history)
      ensures r.Some? ==> forall o | o in Objs(t) :: o in KidObjs(trees)
      ensures r.Some? ==> (history == old(history)
                           || (history == old(history) + [Laid(r.value, t)] && fresh(Objs(t))
                               && Generates(source.Of(), View(t))))
      ensures Reuses(|old(keys)|, old(picker.pos)) ==>
                r == Some(old(keys)[Below(picker.words(old(picker.pos) + 1), |old(keys)|)]) && history == old(history)
      ensures !Reuses(|old(keys)|, old(picker.pos)) && r.Some? ==> history == old(history) + [Laid(r.value, t)]
    {
      KidsAllocated(trees);
      var reuse := Decide();
      r, t := Take(reuse);
    }

    /** A Key of the ring, or a fresh one that enters it. */
    method Take(reuse: bool) returns (r: Option<Val>, ghost t: Tree)
      requires Valid() && (reuse ==> |keys| > 0)
      modifies this, picker, source.Parts()
      ensures Valid()
      ensures forall o | o in KidObjs(trees) :: o in old(KidObjs(trees)) || fresh(o)
      ensures r.None? ==> !reuse && history == old(history) && !Answers(source.Of())
      ensures r.Some? ==> Owns(r.value, t) && Proper(t) && Laid(r.value, t) in Latest(history)
      ensures r.Some? ==> forall o | o in Objs(t) :: o in KidObjs(trees)
      ensures reuse ==> history == old(history) && r == Some(old(keys[Below(picker.words(picker.pos), |keys|)]))
      ensures !reuse && r.Some? ==>
                history == old(history) + [Laid(r.value, t)] && fresh(Objs(t)) && Generates(source.Of(), View(t))
    {
      KidsAllocated(trees);
      if reuse {
        r, t := Recent();
        return;
      }
      r, t := Fresh();
    }

    /** A draw from a ring of n Keys reuses one: all but one in perKey do. */
    predicate Reuses(n: nat, pos: nat) { perKey > 0 && n > 0 && Below(picker.words(pos), perKey) != 0 }

    /** Whether this draw reuses a Key. */
    method Decide() returns (reuse: bool)
      requires Valid()
      modifies picker
      ensures Valid() && unchanged(this) && reuse == Reuses(|keys|, old(picker.pos))
      ensures reuse ==> picker.pos == old(picker.pos) + 1
    {
      KidsAllocated(trees);
      if |keys| == 0 { return false; }
      var d := picker.Pick(perKey);
      reuse := d != 0;
    }

    method Recent() returns (r: Option<Val>, ghost t: Tree)
      requires Valid() && |keys| > 0
      modifies picker
      ensures unchanged(this) && r == Some(old(keys[Below(picker.words(picker.pos), |keys|)]))
      ensures Valid() && r.Some? && Owns(r.value, t) && Proper(t) && Laid(r.value, t) in Latest(history)
      ensures Objs(t) <= KidObjs(trees)
    {
      KidsAllocated(trees);
      var j := picker.Pick(|keys|);
      r, t := Some(keys[j]), trees[j];
      InWindow(Entries(), oldest, j);
    }

    method Fresh() returns (r: Option<Val>, ghost t: Tree)
      requires Valid()
      modifies this, source.Parts()
      ensures Valid()
      ensures KidObjs(trees) <= old(KidObjs(trees)) + Objs(t) && fresh(Objs(t))
      ensures r.None? ==> history == old(history) && trees == old(trees) && !Answers(source.Of())
      ensures r.Some? ==> Owns(r.value, t) && Proper(t) && Laid(r.value, t) in Latest(history)
      ensures r.Some? ==> Objs(t) <= KidObjs(trees)
      ensures r.Some? ==> history == old(history) + [Laid(r.value, t)] && Generates(source.Of(), View(t))
    {
      r, t := Draw();
      if r.Some? { Push(r.value, t); }
    }

    /** A fresh Key, in objects that are neither the ring's nor its generator's. */
    method Draw() returns (r: Option<Val>, ghost t: Tree)
      requires Valid()
      modifies source.Parts()
      ensures Valid() && unchanged(this) && fresh(Objs(t)) && (r.None? ==> !Answers(source.Of()))
      ensures r.Some? ==> Owns(r.value, t) && Proper(t) && Generates(source.Of(), View(t))
      ensures Objs(t) !! KidObjs(trees) && Objs(t) !! (source.Parts() + {picker, this})
    {
      KidsAllocated(trees);
      label Before:
      r, t := source.Value();
      StaysValid@Before();
    }

    /** Drawing from the source leaves the ring alone. */
    twostate lemma StaysValid()
      requires old(Valid()) && unchanged(this)
      requires forall o: object | o in KidObjs(trees) :: old(allocated(o)) && unchanged(o)
      ensures Valid()
    {
    }

    method Push(key: Val, ghost t: Tree)
      requires Valid() && Owns(key, t) && Proper(t) && Objs(t) !! KidObjs(trees)
      requires Objs(t) !! (source.Parts() + {picker, this})
      modifies this
      ensures Valid() && history == old(history) + [Laid(key, t)] && Laid(key, t) in Latest(history)
      ensures KidObjs(trees) <= old(KidObjs(trees)) + Objs(t) && Objs(t) <= KidObjs(trees)
    {
      PushedRow(keys, trees, oldest, key, t);
      PushedRing(keys, trees, oldest, history, key, t);
      LatestHasNewest(history, Laid(key, t));
      ghost var ts := Pushed(trees, oldest, t).0;
      var ks, o := keys + [key], oldest;
      if |keys| >= MAX_ENTITIES { ks, o := keys[oldest := key], (oldest + 1) % MAX_ENTITIES; }
      assert (ks, o) == Pushed(keys, oldest, key);
      assert (source.Parts() + {picker, this}) !! KidObjs(ts);
      Move(ks, o, ts, history + [Laid(key, t)]);
    }

    /** The ring takes its new entries. */
    method Move(ks: seq<Val>, o: nat, ghost ts: seq<Tree>, ghost h: seq<Laid>)
      requires source.Ready() && perKey > 1 && Row(ks, ts) && RowApart(ts)
      requires (source.Parts() + {picker, this}) !! KidObjs(ts) && IsRing(Zip(ks, ts), o, h)
      modifies this
      ensures Valid() && keys == ks && trees == ts && history == h
    {
      keys, oldest, trees, history := ks, o, ts, h;
    }
  }

  lemma PushedRow(keys: seq<Val>, trees: seq<Tree>, oldest: nat, key: Val, t: Tree)
    requires Row(keys, trees) && RowApart(trees) && (|keys| >= MAX_ENTITIES ==> oldest < |keys|)
    requires Owns(key, t) && Proper(t) && Objs(t) !! KidObjs(trees)
    ensures var ks, ts := Pushed(keys, oldest, key).0, Pushed(trees, oldest, t).0;
            Row(ks, ts) && RowApart(ts) && KidObjs(ts) <= KidObjs(trees) + Objs(t) && Objs(t) <= KidObjs(ts)
  {
    if |keys| < MAX_ENTITIES { RowSnoc(keys, trees, key, t); } else { RowReplaced(keys, trees, oldest, key, t); }
  }

  lemma PushedRing(keys: seq<Val>, trees: seq<Tree>, oldest: nat, history: seq<Laid>, key: Val, t: Tree)
    requires |keys| == |trees| && IsRing(Zip(keys, trees), oldest, history)
    ensures var (ks, o) := Pushed(keys, oldest, key);
            var ts := Pushed(trees, oldest, t).0;
            |ks| == |ts| && IsRing(Zip(ks, ts), o, history + [Laid(key, t)])
  {
    PushKeepsRing(Zip(keys, trees), oldest, history, Laid(key, t));
    var ks, ts := Pushed(keys, oldest, key).0, Pushed(trees, oldest, t).0;
    assert Zip(ks, ts) == Pushed(Zip(keys, trees), oldest, Laid(key, t)).0;
  }

  ghost function Zip(keys: seq<Val>, trees: seq<Tree>): (r: seq<Laid>)
    requires |keys| == |trees|
    ensures |r| == |keys| && forall i | 0 <= i < |r| :: r[i] == Laid(keys[i], trees[i])
  {
    seq(|keys|, i requires 0 <= i < |keys| => Laid(keys[i], trees[i]))
  }

  lemma InWindow<T>(keys: seq<T>, oldest: nat, j: nat)
    requires oldest <= |keys| && j < |keys|
    ensures keys[j] in Window(keys, oldest)
  {
    if j < oldest { assert Window(keys, oldest)[|keys| - oldest + j] == keys[j]; }
    else { assert Window(keys, oldest)[j - oldest] == keys[j]; }
  }

  lemma LatestHasNewest<T>(history: seq<T>, x: T)
    ensures x in Latest(history + [x])
  {
    var h := Latest(history + [x]);
    assert h[|h| - 1] == x;
  }

  lemma RowReplaced(vals: seq<Val>, ts: seq<Tree>, i: nat, v: Val, t: Tree)
    requires Row(vals, ts) && RowApart(ts) && i < |ts| && Owns(v, t) && Proper(t) && Objs(t) !! KidObjs(ts)
    ensures Row(vals[i := v], ts[i := t]) && RowApart(ts[i := t])
    ensures KidObjs(ts[i := t]) <= KidObjs(ts) + Objs(t) && Objs(t) <= KidObjs(ts[i := t])
  {
    var us := ts[i := t];
    assert us[i] == t;
    forall j | 0 <= j < |ts| && j != i ensures Objs(us[j]) !! Objs(t) { assert Objs(ts[j]) <= KidObjs(ts); }
    forall j, k | 0 <= j < k < |us| ensures Objs(us[j]) !! Objs(us[k]) { }
    assert forall o | o in Objs(t) :: o in KidObjs(us);
  }
}
