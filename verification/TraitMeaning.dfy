/** Trait merging against JSON Merge Patch (internal/asyncapi/traits.go). */
module TraitMeaning {
  import opened JsonValues
  import opened SpecRefs
  import opened TraitMerge

  /** MergePatch of section 2 of RFC 7386. */
  ghost function MergePatch(target: Json, patch: Json): Json
    decreases patch
  {
    if !patch.Obj? then patch
    else
      var t := if target.Obj? then target.fields else map[];
      var p := patch.fields;
      Obj(map k | k in t.Keys + p.Keys && (k in p ==> p[k] != Null) ::
            if k in p then MergePatch(if k in t then t[k] else Null, p[k]) else t[k])
  }

  /** No object a merge can enter is a reference. */
  ghost predicate RefFree(v: Json)
    decreases v
  {
    v.Obj? ==> RefText(v.fields) == "" && forall k | k in v.fields :: RefFree(v.fields[k])
  }

  /** No key a merge can meet is null. */
  ghost predicate NullFree(v: Json)
    decreases v
  {
    v.Obj? ==> forall k | k in v.fields :: v.fields[k] != Null && NullFree(v.fields[k])
  }

  /** Objects nest at most n deep. */
  ghost predicate Shallow(v: Json, n: nat)
    decreases v
  {
    v.Obj? ==> n > 0 && forall k | k in v.fields :: Shallow(v.fields[k], n - 1)
  }

  /** A key of the patch, as the RFC applies it. */
  ghost predicate Applied(t: Node, k: string, value: Json, o: Outcome) {
    if value == Null then o == Leaves else o == Holds(MergePatch(if k in t then t[k] else Null, value))
  }

  /** On documents without references mergePatch is the RFC's algorithm, as long as the patch nests
      no deeper than the limit; and it fails exactly when it does. */
  lemma {:induction false} MergesAsRfc(d: Doc, t: Node, patch: Json, depth: nat)
    requires RefFree(Obj(t)) && RefFree(patch) && depth <= MAX_MERGE_DEPTH
    ensures Merged(d, t, patch, true, depth).Some? <==> Shallow(patch, MAX_MERGE_DEPTH - depth)
    ensures Shallow(patch, MAX_MERGE_DEPTH - depth) ==>
              Merged(d, t, patch, true, depth) == Some(MergePatch(Obj(t), patch))
    decreases MAX_MERGE_DEPTH - depth, 1
  {
    if patch.Obj? && depth < MAX_MERGE_DEPTH {
      var p := patch.fields;
      var left := MAX_MERGE_DEPTH - depth;
      forall k | k in p
        ensures Shallow(p[k], left - 1) ==> Applied(t, k, p[k], MergedKey(d, t, k, p[k], true, depth))
        ensures MergedKey(d, t, k, p[k], true, depth).Fails? <==> !Shallow(p[k], left - 1)
      {
        KeyAsRfc(d, t, k, p[k], depth);
      }
      if Shallow(patch, left) { ObjectAsRfc(d, t, p, depth); }
    }
  }

  lemma {:induction false} KeyAsRfc(d: Doc, t: Node, k: string, value: Json, depth: nat)
    requires RefFree(Obj(t)) && RefFree(value) && depth < MAX_MERGE_DEPTH
    ensures Shallow(value, MAX_MERGE_DEPTH - depth - 1) ==> Applied(t, k, value, MergedKey(d, t, k, value, true, depth))
    ensures MergedKey(d, t, k, value, true, depth).Fails? <==> !Shallow(value, MAX_MERGE_DEPTH - depth - 1)
    decreases MAX_MERGE_DEPTH - depth, 0
  {
    if value != Null {
      var sub := Sub(t, k);
      assert RefFree(Obj(sub)) by { if k in t && t[k].Obj? { assert RefFree(t[k]); } }
      MergesAsRfc(d, sub, value, depth + 1);
      TargetIsObject(if k in t then t[k] else Null, value);
    }
  }

  /** A target that is no object is an empty one. */
  lemma {:induction false} TargetIsObject(target: Json, patch: Json)
    ensures MergePatch(target, patch) == MergePatch(Obj(if target.Obj? then target.fields else map[]), patch)
  {
  }

  lemma {:induction false} ObjectAsRfc(d: Doc, t: Node, p: Node, depth: nat)
    requires depth < MAX_MERGE_DEPTH
    requires forall k | k in p :: Applied(t, k, p[k], MergedKey(d, t, k, p[k], true, depth))
    ensures MergedObject(d, t, p, true, depth) == Some(MergePatch(Obj(t), Obj(p)))
  {
    var out := MergePatch(Obj(t), Obj(p)).fields;
    forall k | k in p ensures Shows(out, k, MergedKey(d, t, k, p[k], true, depth)) {
      assert Applied(t, k, p[k], MergedKey(d, t, k, p[k], true, depth));
    }
    MergedObjectIs(d, t, p, true, depth, out);
  }

  // ----- Laws of the patch -----

  lemma {:induction false} PatchedAt(target: Json, patch: Json, k: string)
    requires patch.Obj?
    ensures var t := if target.Obj? then target.fields else map[];
      var out := MergePatch(target, patch).fields; var p := patch.fields;
      (k in out <==> (k in p && p[k] != Null) || (k in t && k !in p)) &&
      (k in p && p[k] != Null ==> out[k] == MergePatch(if k in t then t[k] else Null, p[k])) &&
      (k in t && k !in p ==> out[k] == t[k])
  {
  }

  /** Applying a patch twice changes nothing more. */
  lemma {:induction false} PatchIdempotent(target: Json, patch: Json)
    ensures MergePatch(MergePatch(target, patch), patch) == MergePatch(target, patch)
    decreases patch
  {
    if patch.Obj? {
      var once := MergePatch(target, patch);
      var twice := MergePatch(once, patch);
      forall k ensures k in once.fields <==> k in twice.fields {
        PatchedAt(target, patch, k);
        PatchedAt(once, patch, k);
      }
      forall k | k in once.fields ensures once.fields[k] == twice.fields[k] {
        PatchedAt(target, patch, k);
        PatchedAt(once, patch, k);
        if k in patch.fields {
          PatchIdempotent(if target.Obj? && k in target.fields then target.fields[k] else Null, patch.fields[k]);
        }
      }
      assert once.fields == twice.fields;
    }
  }

  /** Merging documents without references leaves none. */
  lemma {:induction false} StaysRefFree(target: Json, patch: Json)
    requires RefFree(target) && RefFree(patch)
    ensures RefFree(MergePatch(target, patch))
    decreases patch
  {
    if patch.Obj? {
      var out := MergePatch(target, patch);
      forall k | k in out.fields ensures RefFree(out.fields[k]) {
        PatchedAt(target, patch, k);
        if k in patch.fields {
          StaysRefFree(if target.Obj? && k in target.fields then target.fields[k] else Null, patch.fields[k]);
        }
      }
      PatchedAt(target, patch, "$ref");
      StaysNoRef(target, patch);
    }
  }

  lemma {:induction false} StaysNoRef(target: Json, patch: Json)
    requires RefFree(target) && RefFree(patch) && patch.Obj?
    ensures RefText(MergePatch(target, patch).fields) == ""
  {
    PatchedAt(target, patch, "$ref");
    if "$ref" in patch.fields && patch.fields["$ref"] != Null && !patch.fields["$ref"].Obj? {
      assert MergePatch(target, patch).fields["$ref"] == patch.fields["$ref"];
    }
  }

  /** Merging the same patch a second time changes nothing more. */
  lemma {:induction false} MergeIdempotent(d: Doc, t: Node, patch: Json, depth: nat, once: Option<Json>)
    requires RefFree(Obj(t)) && RefFree(patch) && patch.Obj?
    requires depth <= MAX_MERGE_DEPTH && Shallow(patch, MAX_MERGE_DEPTH - depth)
    requires once == Merged(d, t, patch, true, depth)
    ensures once.Some? && once.value.Obj? && Merged(d, once.value.fields, patch, true, depth) == once
  {
    MergesAsRfc(d, t, patch, depth);
    StaysRefFree(Obj(t), patch);
    MergesAsRfc(d, once.value.fields, patch, depth);
    PatchIdempotent(Obj(t), patch);
  }

  /** A patch without nulls, applied to nothing, is itself. */
  lemma {:induction false} PatchOfNothing(target: Json, patch: Json)
    requires NullFree(patch) && !target.Obj?
    ensures MergePatch(target, patch) == patch
    decreases patch
  {
    if patch.Obj? {
      var out := MergePatch(target, patch).fields;
      forall k | k in patch.fields ensures k in out && out[k] == patch.fields[k] {
        PatchedAt(target, patch, k);
        PatchOfNothing(Null, patch.fields[k]);
      }
      assert out == patch.fields;
    }
  }

  // ----- The target wins -----

  /** Whatever the documents, underlay keeps every value of the target that is no object, and
      removes nothing. */
  lemma {:induction false} UnderlayKeeps(d: Doc, t: Node, patch: Node, depth: nat, k: string)
    requires depth < MAX_MERGE_DEPTH && Merged(d, t, Obj(patch), false, depth).Some? && k in t
    ensures var out := Merged(d, t, Obj(patch), false, depth).value;
      out.Obj? && k in out.fields && (!t[k].Obj? ==> out.fields[k] == t[k])
  {
    var p := PatchOf(d, t, patch).value;
    if k in p { assert !MergedKey(d, t, k, p[k], false, depth).Leaves?; }
  }

  /** Underlay at a key, on documents without references or nulls. */
  lemma {:induction false} UnderlaidKey(d: Doc, t: Node, k: string, value: Json, depth: nat)
    requires RefFree(Obj(t)) && NullFree(Obj(t)) && RefFree(value) && NullFree(value) && value != Null
    requires depth < MAX_MERGE_DEPTH
    requires !MergedKey(d, t, k, value, false, depth).Fails?
    ensures MergedKey(d, t, k, value, false, depth) == Holds(if k in t then MergePatch(value, t[k]) else value)
    decreases MAX_MERGE_DEPTH - depth, 0
  {
    if k in t {
      if t[k].Obj? && value.Obj? {
        UnderlayIsPatch(d, t[k].fields, value.fields, depth + 1);
      } else if t[k].Obj? {
        PatchOfNothing(value, t[k]);
      }
    }
  }

  /** On documents without references or nulls, laying the patch under the target is patching the
      patch with the target. */
  lemma {:induction false} UnderlayIsPatch(d: Doc, t: Node, p: Node, depth: nat)
    requires RefFree(Obj(t)) && NullFree(Obj(t)) && RefFree(Obj(p)) && NullFree(Obj(p)) && depth <= MAX_MERGE_DEPTH
    requires Merged(d, t, Obj(p), false, depth).Some?
    ensures Merged(d, t, Obj(p), false, depth) == Some(MergePatch(Obj(p), Obj(t)))
    decreases MAX_MERGE_DEPTH - depth, 1
  {
    var out := MergePatch(Obj(p), Obj(t)).fields;
    forall k | k in p ensures Shows(out, k, MergedKey(d, t, k, p[k], false, depth)) {
      UnderlaidKey(d, t, k, p[k], depth);
      PatchedAt(Obj(p), Obj(t), k);
    }
    forall k | k !in p ensures (k in out <==> k in t) && (k in t ==> out[k] == t[k]) {
      PatchedAt(Obj(p), Obj(t), k);
      if k in t { PatchOfNothing(Null, t[k]); }
    }
    MergedObjectIs(d, t, p, false, depth, out);
  }

  /** Underlay within the depth limit does not fail. */
  lemma {:induction false} UnderlaySucceeds(d: Doc, t: Node, p: Node, depth: nat)
    requires RefFree(Obj(t)) && RefFree(Obj(p)) && depth <= MAX_MERGE_DEPTH && Shallow(Obj(p), MAX_MERGE_DEPTH - depth)
    ensures Merged(d, t, Obj(p), false, depth).Some?
    decreases MAX_MERGE_DEPTH - depth
  {
    forall k | k in p ensures !MergedKey(d, t, k, p[k], false, depth).Fails? {
      if k in t && t[k].Obj? && p[k].Obj? { UnderlaySucceeds(d, t[k].fields, p[k].fields, depth + 1); }
    }
  }
}
