/** Merging message traits whose documents hold references (internal/asyncapi/traits.go): following
    the references of a merge gives the patch of the documents with theirs followed. */
module TraitReferences {
  import opened JsonValues
  import opened SpecRefs
  import opened TraitMerge
  import opened TraitMeaning

  /** A document with its references followed, up to fuel of them one in another; lists are taken as
      they are. */
  ghost function Followed(d: Doc, v: Json, fuel: nat): Option<Json>
    decreases fuel, v
  {
    if !v.Obj? then Some(v)
    else if RefText(v.fields) != "" then
      var target := Follow(d, RefText(v.fields));
      if fuel == 0 || target.None? || !target.value.Obj? then None else Followed(d, target.value, fuel - 1)
    else if exists k :: k in v.fields && Followed(d, v.fields[k], fuel).None? then None
    else Some(Obj(map k | k in v.fields :: Followed(d, v.fields[k], fuel).value))
  }

  /** An object that is no reference, key by key. */
  lemma {:induction false} FollowedObject(d: Doc, m: Node, fuel: nat, out: Node)
    requires RefText(m) == "" && out.Keys == m.Keys
    requires forall k | k in m :: Followed(d, m[k], fuel) == Some(out[k])
    ensures Followed(d, Obj(m), fuel) == Some(Obj(out))
  {
    assert Followed(d, Obj(m), fuel).value.fields == out;
  }

  /** What an object that is no reference is followed to, key by key. */
  ghost predicate FollowsTo(d: Doc, m: Node, fuel: nat, out: Node) {
    RefText(m) == "" && out.Keys == m.Keys && forall k | k in m :: Followed(d, m[k], fuel) == Some(out[k])
  }

  lemma {:induction false} FollowedAt(d: Doc, m: Node, fuel: nat, w: Json)
    requires RefText(m) == "" && Followed(d, Obj(m), fuel) == Some(w)
    ensures w.Obj? && FollowsTo(d, m, fuel, w.fields)
  {
  }

  lemma {:induction false} FollowedMore(d: Doc, v: Json, fuel: nat, more: nat)
    requires Followed(d, v, fuel).Some? && fuel <= more
    ensures Followed(d, v, more) == Followed(d, v, fuel)
    decreases fuel, v
  {
    if v.Obj? {
      if RefText(v.fields) != "" {
        FollowedMore(d, Follow(d, RefText(v.fields)).value, fuel - 1, more - 1);
      } else {
        var w := Followed(d, v, fuel).value;
        FollowedAt(d, v.fields, fuel, w);
        forall k | k in v.fields ensures Followed(d, v.fields[k], more) == Some(w.fields[k]) {
          FollowedMore(d, v.fields[k], fuel, more);
        }
        FollowedObject(d, v.fields, more, w.fields);
      }
    }
  }

  /** An object is followed to an object. */
  lemma {:induction false} FollowedIsObject(d: Doc, m: Node, fuel: nat)
    requires Followed(d, Obj(m), fuel).Some?
    ensures Followed(d, Obj(m), fuel).value.Obj?
    decreases fuel
  {
    if RefText(m) != "" { FollowedIsObject(d, Follow(d, RefText(m)).value.fields, fuel - 1); }
  }

  /** The object at the end of a chain is followed to the same. */
  lemma {:induction false} FollowedEnd(d: Doc, m: Node, i: nat, fuel: nat, w: Json)
    requires i <= MAX_REF_CHAIN && ObjectOf(d, m, i).Some? && Followed(d, Obj(m), fuel) == Some(w)
    ensures RefText(ObjectOf(d, m, i).value) == "" && Followed(d, Obj(ObjectOf(d, m, i).value), fuel) == Some(w)
    decreases MAX_REF_CHAIN - i
  {
    if RefText(m) != "" {
      var target := Follow(d, RefText(m)).value;
      FollowedEnd(d, target.fields, i + 1, fuel - 1, w);
      FollowedMore(d, Obj(ObjectOf(d, m, i).value), fuel - 1, fuel);
    }
  }

  // ----- The patch of documents without nulls -----

  /** The side that wins laid over the other. */
  ghost function Laid(target: Json, patch: Json, wins: bool): Json {
    if wins then MergePatch(target, patch) else MergePatch(patch, target)
  }

  /** Laying a document without nulls over itself, or over what is no object, gives it back. */
  lemma {:induction false} LaidOver(under: Json, v: Json)
    requires NullFree(v) && (under == v || !under.Obj? || !v.Obj? || under.fields == map[])
    ensures MergePatch(under, v) == v
    decreases v
  {
    if v.Obj? {
      var out := MergePatch(under, v).fields;
      forall k ensures k in out <==> k in v.fields { PatchedAt(under, v, k); }
      forall k | k in v.fields ensures out[k] == v.fields[k] {
        PatchedAt(under, v, k);
        LaidOver(if under == v then v.fields[k] else Null, v.fields[k]);
      }
      assert out == v.fields;
    }
  }

  /** What a key of two objects laid one over the other holds. */
  ghost function LaidKey(t: Node, k: string, value: Json, wins: bool): Json {
    if k in t then Laid(t[k], value, wins) else value
  }

  lemma {:induction false} LaidAt(t: Node, p: Node, wins: bool, k: string)
    requires NullFree(Obj(t)) && NullFree(Obj(p))
    ensures Laid(Obj(t), Obj(p), wins).Obj?
    ensures var out := Laid(Obj(t), Obj(p), wins).fields;
      (k in out <==> k in t || k in p) && (k in p ==> out[k] == LaidKey(t, k, p[k], wins)) &&
      (k in t && k !in p ==> out[k] == t[k])
  {
    if wins { PatchedAt(Obj(t), Obj(p), k); } else { PatchedAt(Obj(p), Obj(t), k); }
    if k in p && k !in t { LaidOver(Null, p[k]); }
    if k in t && k !in p { LaidOver(Null, t[k]); }
  }

  // ----- Merging -----

  /** What is followed from a key's outcome is the followed sides laid one over the other. */
  ghost predicate LaidThrough(d: Doc, rt: Node, k: string, rv: Json, wins: bool, fuel: nat, o: Outcome) {
    o.Holds? && Followed(d, o.v, fuel) == Some(LaidKey(rt, k, rv, wins))
  }

  /** Following the references of a merge of two objects gives the winning side patched over the
      other, each with its references followed, as long as these hold no null. */
  lemma {:induction false} MergesThroughReferences(d: Doc, t: Node, patch: Node, wins: bool, depth: nat, fuel: nat,
                                                   rt: Json, rp: Json)
    requires depth <= MAX_MERGE_DEPTH && RefText(t) == "" && Merged(d, t, Obj(patch), wins, depth).Some?
    requires Followed(d, Obj(t), fuel) == Some(rt) && Followed(d, Obj(patch), fuel) == Some(rp)
    requires NullFree(rt) && NullFree(rp)
    ensures Followed(d, Merged(d, t, Obj(patch), wins, depth).value, fuel) == Some(Laid(rt, rp, wins))
    decreases MAX_MERGE_DEPTH - depth, 1
  {
    FollowedAt(d, t, fuel, rt);
    FollowedIsObject(d, patch, fuel);
    var p := PatchOf(d, t, patch).value;
    if t != map[] { FollowedEnd(d, patch, 0, fuel, rp); }
    if RefText(p) == "" {
      FollowedAt(d, p, fuel, rp);
      forall k | k in p
        ensures LaidThrough(d, rt.fields, k, rp.fields[k], wins, fuel, MergedKey(d, t, k, p[k], wins, depth))
      {
        KeyThroughReferences(d, t, k, p[k], wins, depth, fuel, rt.fields, rp.fields[k]);
      }
      ObjectThroughReferences(d, t, p, wins, depth, fuel, rt.fields, rp.fields);
    } else {
      ReferenceIntoNothing(d, p, wins, depth, fuel, rp);
      if wins { LaidOver(rt, rp); } else { NothingOver(rp); }
    }
  }

  lemma {:induction false} NothingOver(v: Json)
    requires v.Obj?
    ensures MergePatch(v, Obj(map[])) == v
  {
    forall k ensures k in MergePatch(v, Obj(map[])).fields <==> k in v.fields { PatchedAt(v, Obj(map[]), k); }
    assert MergePatch(v, Obj(map[])).fields == v.fields;
  }

  /** Where neither side is a reference, their merge is none. */
  lemma {:induction false} NoReferenceMerged(d: Doc, t: Node, p: Node, wins: bool, depth: nat, m: Node)
    requires depth < MAX_MERGE_DEPTH && MergedObject(d, t, p, wins, depth) == Some(Obj(m))
    requires RefText(t) == "" && RefText(p) == ""
    ensures RefText(m) == ""
  {
    if "$ref" in p && "$ref" in m && m["$ref"].Str? {
      TextMerged(d, t, "$ref", p["$ref"], wins, depth, MergedKey(d, t, "$ref", p["$ref"], wins, depth));
    }
  }

  lemma {:induction false} ObjectThroughReferences(d: Doc, t: Node, p: Node, wins: bool, depth: nat, fuel: nat,
                                                   rt: Node, rp: Node)
    requires depth < MAX_MERGE_DEPTH && MergedObject(d, t, p, wins, depth).Some?
    requires FollowsTo(d, t, fuel, rt) && FollowsTo(d, p, fuel, rp) && NullFree(Obj(rt)) && NullFree(Obj(rp))
    requires forall k | k in p :: LaidThrough(d, rt, k, rp[k], wins, fuel, MergedKey(d, t, k, p[k], wins, depth))
    ensures Followed(d, MergedObject(d, t, p, wins, depth).value, fuel) == Some(Laid(Obj(rt), Obj(rp), wins))
  {
    var m := MergedObject(d, t, p, wins, depth).value.fields;
    LaidAt(rt, rp, wins, "");
    var out := Laid(Obj(rt), Obj(rp), wins).fields;
    forall k
      ensures k in m <==> k in out
      ensures k in m ==> Followed(d, m[k], fuel) == Some(out[k])
    {
      LaidAt(rt, rp, wins, k);
      if k in p { assert LaidThrough(d, rt, k, rp[k], wins, fuel, MergedKey(d, t, k, p[k], wins, depth)); }
    }
    NoReferenceMerged(d, t, p, wins, depth, m);
    FollowedObject(d, m, fuel, out);
  }

  lemma {:induction false} MergedShape(d: Doc, t: Node, v: Json, wins: bool, depth: nat, r: Json)
    requires depth <= MAX_MERGE_DEPTH && Merged(d, t, v, wins, depth) == Some(r)
    ensures if v.Obj? then r.Obj? else r == v
  {
  }

  /** A text comes from one of the sides. */
  lemma {:induction false} TextMerged(d: Doc, t: Node, k: string, value: Json, wins: bool, depth: nat, o: Outcome)
    requires depth < MAX_MERGE_DEPTH && o == MergedKey(d, t, k, value, wins, depth) && o.Holds? && o.v.Str?
    ensures o.v == value || (k in t && o.v == t[k])
  {
    if k in t && t[k].Obj? && value.Obj? {
      var sub := ObjectOf(d, t[k].fields, 0);
      if sub.Some? && o == Whole(Merged(d, sub.value, value, wins, depth + 1)) {
        MergedShape(d, sub.value, value, wins, depth + 1, o.v);
      }
    } else if wins && value != Null {
      MergedShape(d, Sub(t, k), value, wins, depth + 1, o.v);
    }
  }

  lemma {:induction false} KeyThroughReferences(d: Doc, t: Node, k: string, value: Json, wins: bool, depth: nat,
                                                fuel: nat, rt: Node, rv: Json)
    requires depth < MAX_MERGE_DEPTH && !MergedKey(d, t, k, value, wins, depth).Fails?
    requires FollowsTo(d, t, fuel, rt) && Followed(d, value, fuel) == Some(rv)
    requires NullFree(Obj(rt)) && NullFree(rv) && rv != Null
    ensures LaidThrough(d, rt, k, rv, wins, fuel, MergedKey(d, t, k, value, wins, depth))
    decreases MAX_MERGE_DEPTH - depth, 0, 1
  {
    if k in t {
      assert Followed(d, t[k], fuel) == Some(rt[k]) && NullFree(rt[k]);
      if t[k].Obj? && value.Obj? {
        BothThroughReferences(d, t, k, value, wins, depth, fuel, rt, rv);
      } else {
        OneThroughReferences(d, t, k, value, wins, depth, fuel, rt, rv);
      }
    } else if wins {
      NothingThroughReferences(d, value, depth + 1, fuel, rt, k, rv);
    }
  }

  lemma {:induction false} BothThroughReferences(d: Doc, t: Node, k: string, value: Json, wins: bool, depth: nat,
                                                 fuel: nat, rt: Node, rv: Json)
    requires depth < MAX_MERGE_DEPTH && !MergedKey(d, t, k, value, wins, depth).Fails?
    requires k in t && k in rt && t[k].Obj? && value.Obj?
    requires Followed(d, t[k], fuel) == Some(rt[k]) && Followed(d, value, fuel) == Some(rv)
    requires NullFree(rt[k]) && NullFree(rv)
    ensures LaidThrough(d, rt, k, rv, wins, fuel, MergedKey(d, t, k, value, wins, depth))
    decreases MAX_MERGE_DEPTH - depth, 0, 0
  {
    if RefText(t[k].fields) != "" && RefText(t[k].fields) == RefText(value.fields) {
      LaidOver(rt[k], rt[k]);
    } else {
      var sub := ObjectOf(d, t[k].fields, 0).value;
      SubThroughReferences(d, t[k].fields, 0, sub, value.fields, wins, depth + 1, fuel, rt, k, rv);
    }
  }

  /** A key both sides declare, an object on one of them at most. */
  lemma {:induction false} OneThroughReferences(d: Doc, t: Node, k: string, value: Json, wins: bool, depth: nat,
                                                fuel: nat, rt: Node, rv: Json)
    requires depth < MAX_MERGE_DEPTH && !MergedKey(d, t, k, value, wins, depth).Fails?
    requires k in t && k in rt && !(t[k].Obj? && value.Obj?) && value != Null
    requires Followed(d, t[k], fuel) == Some(rt[k]) && Followed(d, value, fuel) == Some(rv)
    requires NullFree(rt[k]) && NullFree(rv)
    ensures LaidThrough(d, rt, k, rv, wins, fuel, MergedKey(d, t, k, value, wins, depth))
    decreases MAX_MERGE_DEPTH - depth, 0, 0
  {
    if !wins {
      LaidOver(rv, rt[k]);
    } else if value.Obj? {
      NothingThroughReferences(d, value, depth + 1, fuel, rt, k, rv);
    }
  }

  lemma {:induction false} SubThroughReferences(d: Doc, m: Node, i: nat, sub: Node, p: Node, wins: bool, depth: nat,
                                                fuel: nat, rt: Node, k: string, rv: Json)
    requires i <= MAX_REF_CHAIN && ObjectOf(d, m, i) == Some(sub) && depth <= MAX_MERGE_DEPTH
    requires !Whole(Merged(d, sub, Obj(p), wins, depth)).Fails? && k in rt
    requires Followed(d, Obj(m), fuel) == Some(rt[k]) && Followed(d, Obj(p), fuel) == Some(rv)
    requires NullFree(rt[k]) && NullFree(rv)
    ensures LaidThrough(d, rt, k, rv, wins, fuel, Whole(Merged(d, sub, Obj(p), wins, depth)))
    decreases MAX_MERGE_DEPTH - depth, 2
  {
    FollowedEnd(d, m, i, fuel, rt[k]);
    MergesThroughReferences(d, sub, p, wins, depth, fuel, rt[k], rv);
  }

  lemma {:induction false} NothingThroughReferences(d: Doc, value: Json, depth: nat, fuel: nat, rt: Node, k: string,
                                                    rv: Json)
    requires depth <= MAX_MERGE_DEPTH && !Whole(Merged(d, map[], value, true, depth)).Fails?
    requires Followed(d, value, fuel) == Some(rv) && NullFree(rv) && (k in rt && rt[k].Obj? ==> !rv.Obj?)
    ensures LaidThrough(d, rt, k, rv, true, fuel, Whole(Merged(d, map[], value, true, depth)))
    decreases MAX_MERGE_DEPTH - depth, 2
  {
    if value.Obj? {
      FollowedObject(d, map[], fuel, map[]);
      MergesThroughReferences(d, map[], value.fields, true, depth, fuel, Obj(map[]), rv);
      LaidOver(Obj(map[]), rv);
    }
    if k in rt { LaidOver(rt[k], rv); }
  }

  /** A reference copied into nothing stays the reference. */
  lemma {:induction false} ReferenceIntoNothing(d: Doc, p: Node, wins: bool, depth: nat, fuel: nat, rp: Json)
    requires depth < MAX_MERGE_DEPTH && RefText(p) != "" && MergedObject(d, map[], p, wins, depth).Some?
    requires Followed(d, Obj(p), fuel) == Some(rp)
    ensures Followed(d, MergedObject(d, map[], p, wins, depth).value, fuel) == Some(rp)
  {
    var m := MergedObject(d, map[], p, wins, depth).value.fields;
    assert m["$ref"] == p["$ref"] by {
      assert MergedKey(d, map[], "$ref", p["$ref"], wins, depth) == Holds(p["$ref"]);
    }
    assert RefText(m) == RefText(p);
  }
}
