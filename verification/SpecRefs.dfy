/** Internal references of a spec (internal/asyncapi/document.go): a $ref is a JSON Pointer in
    a URI fragment, sections 3, 4 and 6 of RFC 6901. Strings are their bytes. */
module SpecRefs {
  import opened JsonValues
  import opened PointerTokens
  import opened KeyPaths
  import opened Sorting

  /** A decoded spec, and the order each of its objects is written in. */
  datatype Doc = Doc(raw: Node, orders: map<Json, seq<string>>)

  predicate IsRef(v: Json) { v.Obj? && StrAt(v.fields, "$ref").Some? }

  function RefOf(v: Json): string
    requires IsRef(v)
  {
    v.fields["$ref"].s
  }

  // ----- url.PathUnescape -----

  function HexValue(c: char): Option<nat> {
    if '0' <= c <= '9' then Some(c as int - '0' as int)
    else if 'a' <= c <= 'f' then Some(c as int - 'a' as int + 10)
    else if 'A' <= c <= 'F' then Some(c as int - 'A' as int + 10)
    else None
  }

  function PathUnescape(s: string): Option<string> {
    if s == "" then Some("")
    else if s[0] == '%' then
      if |s| < 3 || HexValue(s[1]).None? || HexValue(s[2]).None? then None else
        var rest := PathUnescape(s[3..]);
        if rest.None? then None else Some([(HexValue(s[1]).value * 16 + HexValue(s[2]).value) as char] + rest.value)
    else
      var rest := PathUnescape(s[1..]);
      if rest.None? then None else Some([s[0]] + rest.value)
  }

  // ----- Pointers -----

  /** strings.Split at every '/'. */
  function Split(s: string): (parts: seq<string>)
    ensures parts != []
  {
    if s == "" then [""]
    else if s[0] == '/' then [""] + Split(s[1..])
    else
      var rest := Split(s[1..]);
      [[s[0]] + rest[0]] + rest[1..]
  }

  lemma {:induction false} SplitWord(s: string)
    requires '/' !in s
    ensures Split(s) == [s]
  {
    if s != "" {
      SplitWord(s[1..]);
      assert [s[0]] + s[1..] == s;
    }
  }

  /** One token of a pointer: a key, or an index of a list. */
  function TokenStep(v: Json, token: string): Option<Json> {
    match v
    case Obj(n) => if token in n then Some(n[token]) else None
    case Arr(l) =>
      var i := Atoi(token);
      if i.Some? && 0 <= i.value < |l| then Some(l[i.value]) else None
    case _ => None
  }

  function Walk(v: Json, tokens: seq<string>): Option<Json> {
    if tokens == [] then Some(v) else
      var next := TokenStep(v, UnescapeToken(tokens[0]));
      if next.None? then None else Walk(next.value, tokens[1..])
  }

  /** What a reference's unescaped pointer text leads to. */
  function Target(d: Doc, name: string): Option<Json> { Walk(Obj(d.raw), Split(name)) }

  /** The unescaped pointer text of an internal reference; other references have none. */
  function Internal(ref: string): Option<string> {
    if HasPrefix(ref, "#/") then PathUnescape(ref[2..]) else None
  }

  function Follow(d: Doc, ref: string): Option<Json> {
    if Internal(ref).Some? then Target(d, Internal(ref).value) else None
  }

  lemma {:induction false} UnescapeSlash(s: string)
    ensures PathUnescape("/" + s).Some? <==> PathUnescape(s).Some?
    ensures PathUnescape(s).Some? ==> PathUnescape("/" + s).value == "/" + PathUnescape(s).value
  {
    assert ("/" + s)[1..] == s;
  }

  lemma {:induction false} WalkSteps(v: Json, tokens: seq<string>, i: nat, at: Json)
    requires i < |tokens| && Walk(v, tokens[..i]) == Some(at)
    ensures Walk(v, tokens[..i + 1]) == TokenStep(at, UnescapeToken(tokens[i]))
    ensures TokenStep(at, UnescapeToken(tokens[i])).None? ==> Walk(v, tokens).None?
    decreases i
  {
    if i == 0 {
      assert tokens[..0] == [] && tokens[..1][1..] == [];
    } else {
      var next := TokenStep(v, UnescapeToken(tokens[0]));
      assert tokens[..i][1..] == tokens[1..][..i - 1] && tokens[..i + 1][1..] == tokens[1..][..i];
      WalkSteps(next.value, tokens[1..], i - 1, at);
    }
  }

  /** Document.pointer */
  method Pointer(d: Doc, ref: string) returns (r: Option<Json>)
    ensures r == Follow(d, ref)
  {
    if !HasPrefix(ref, "#/") { return None; }
    var fragment := PathUnescape(ref[1..]);
    assert ref[1..] == "/" + ref[2..];
    UnescapeSlash(ref[2..]);
    if fragment.None? { return None; }
    assert fragment.value[1..] == Internal(ref).value;
    var tokens := Split(fragment.value[1..]);
    var current := Obj(d.raw);
    var i: nat := 0;
    assert tokens[..0] == [];
    while i < |tokens|
      invariant i <= |tokens| && Walk(Obj(d.raw), tokens[..i]) == Some(current)
    {
      WalkSteps(Obj(d.raw), tokens, i, current);
      var next := TokenStep(current, UnescapeToken(tokens[i]));
      if next.None? { return None; }
      current := next.value;
      i := i + 1;
    }
    assert tokens[..i] == tokens;
    r := Some(current);
  }

  // ----- The references in a value -----

  function Refs(v: Json): set<string>
    decreases v
  {
    match v
    case Obj(n) =>
      (if StrAt(n, "$ref").Some? then {n["$ref"].s} else {}) + (set k, x | k in n && x in Refs(n[k]) :: x)
    case Arr(l) => set i, x | 0 <= i < |l| && x in Refs(l[i]) :: x
    case _ => {}
  }

  lemma {:induction false} StepRefs(v: Json, token: string)
    requires TokenStep(v, token).Some?
    ensures Refs(TokenStep(v, token).value) <= Refs(v)
  {
  }

  lemma {:induction false} WalkRefs(v: Json, tokens: seq<string>)
    requires Walk(v, tokens).Some?
    ensures Refs(Walk(v, tokens).value) <= Refs(v)
  {
    if tokens != [] {
      StepRefs(v, UnescapeToken(tokens[0]));
      WalkRefs(TokenStep(v, UnescapeToken(tokens[0])).value, tokens[1..]);
    }
  }

  // ----- The references a copy meets -----

  /** The references in a value that a copy of it meets; what stands beside a "$ref" is not copied. */
  function Heads(v: Json): set<string>
    decreases v
  {
    match v
    case Obj(n) =>
      if StrAt(n, "$ref").Some? then {n["$ref"].s} else set k, x | k in n && x in Heads(n[k]) :: x
    case Arr(l) => set i, x | 0 <= i < |l| && x in Heads(l[i]) :: x
    case _ => {}
  }

  /** References that lead on from one to the next, the first of them in v. */
  ghost predicate IsChain(d: Doc, v: Json, chain: seq<string>) {
    && (chain != [] ==> chain[0] in Heads(v))
    && forall i | 0 < i < |chain| :: LeadsTo(d, chain[i - 1], chain[i])
  }

  ghost predicate LeadsTo(d: Doc, ref: string, next: string) {
    Follow(d, ref).Some? && next in Heads(Follow(d, ref).value)
  }

  /** Every reference reached from v through others can be followed. */
  ghost predicate Followable(d: Doc, v: Json) {
    forall chain | IsChain(d, v, chain) && chain != [] :: Follow(d, chain[|chain| - 1]).Some?
  }

  lemma {:induction false} FollowableInside(d: Doc, v: Json, child: Json)
    requires Followable(d, v) && Heads(child) <= Heads(v)
    ensures Followable(d, child)
  {
    forall chain | IsChain(d, child, chain) && chain != [] ensures Follow(d, chain[|chain| - 1]).Some? {
      assert IsChain(d, v, chain);
    }
  }

  lemma {:induction false} FollowableField(d: Doc, n: Node, k: string)
    requires k in n && StrAt(n, "$ref").None?
    ensures Followable(d, Obj(n)) ==> Followable(d, n[k])
  {
    if Followable(d, Obj(n)) { FollowableInside(d, Obj(n), n[k]); }
  }

  lemma {:induction false} FollowableItem(d: Doc, l: seq<Json>, i: nat)
    requires i < |l|
    ensures Followable(d, Arr(l)) ==> Followable(d, l[i])
  {
    if Followable(d, Arr(l)) { FollowableInside(d, Arr(l), l[i]); }
  }

  lemma {:induction false} FollowableOn(d: Doc, v: Json, ref: string)
    requires Followable(d, v) && ref in Heads(v)
    ensures Follow(d, ref).Some? && Followable(d, Follow(d, ref).value)
  {
    assert IsChain(d, v, [ref]) && [ref][|[ref]| - 1] == ref;
    forall chain | IsChain(d, Follow(d, ref).value, chain) && chain != [] ensures Follow(d, chain[|chain| - 1]).Some? {
      var longer := [ref] + chain;
      assert IsChain(d, v, longer) by {
        forall i | 0 < i < |longer| ensures LeadsTo(d, longer[i - 1], longer[i]) {
          if i > 1 { assert LeadsTo(d, chain[i - 2], chain[i - 1]); }
        }
      }
      assert longer[|longer| - 1] == chain[|chain| - 1];
    }
  }

  /** A chain need not pass a reference twice. */
  lemma {:induction false} SimpleChain(d: Doc, v: Json, chain: seq<string>) returns (simple: seq<string>)
    requires IsChain(d, v, chain) && chain != []
    ensures IsChain(d, v, simple) && simple != [] && Distinct(simple) && simple[|simple| - 1] == chain[|chain| - 1]
    decreases |chain|
  {
    if Distinct(chain) {
      simple := chain;
    } else {
      var i, j :| 0 <= i < j < |chain| && chain[i] == chain[j];
      var cut := chain[..i] + chain[j..];
      assert IsChain(d, v, cut) by {
        forall k | 0 < k < |cut| ensures LeadsTo(d, cut[k - 1], cut[k]) {
          if k <= i {
            assert LeadsTo(d, chain[k - 1], chain[k]);
          } else {
            assert LeadsTo(d, chain[k - i + j - 1], chain[k - i + j]);
          }
        }
      }
      simple := SimpleChain(d, v, cut);
    }
  }

  lemma {:induction false} HeadsAreRefs(v: Json)
    ensures Heads(v) <= Refs(v)
    decreases v
  {
    match v
    case Obj(n) => forall k | k in n ensures Heads(n[k]) <= Refs(n[k]) { HeadsAreRefs(n[k]); }
    case Arr(l) => forall i | 0 <= i < |l| ensures Heads(l[i]) <= Refs(l[i]) { HeadsAreRefs(l[i]); }
    case _ =>
  }

  // ----- Objects whose "$ref" is a reference to a text -----

  /** Where a value leads through references, at most fuel of them. */
  function Landing(d: Doc, v: Json, fuel: nat): Option<Json>
    decreases fuel
  {
    if !IsRef(v) then Some(v)
    else if fuel == 0 || Follow(d, RefOf(v)).None? then None
    else Landing(d, Follow(d, RefOf(v)).value, fuel - 1)
  }

  ghost predicate LandsOn(d: Doc, v: Json, text: string) { exists fuel: nat :: Landing(d, v, fuel) == Some(Str(text)) }

  /** An object that is no reference itself, but holds under "$ref" a reference to a text. */
  ghost predicate HoldsText(d: Doc, v: Json, text: string) {
    v.Obj? && !IsRef(v) && "$ref" in v.fields && LandsOn(d, v.fields["$ref"], text)
  }

  lemma {:induction false} LandsOnward(d: Doc, v: Json, text: string)
    requires IsRef(v)
    ensures LandsOn(d, v, text) <==> Follow(d, RefOf(v)).Some? && LandsOn(d, Follow(d, RefOf(v)).value, text)
  {
    if LandsOn(d, v, text) {
      var f: nat :| Landing(d, v, f) == Some(Str(text));
      assert Landing(d, Follow(d, RefOf(v)).value, f - 1) == Some(Str(text));
    }
    if Follow(d, RefOf(v)).Some? && LandsOn(d, Follow(d, RefOf(v)).value, text) {
      var f: nat :| Landing(d, Follow(d, RefOf(v)).value, f) == Some(Str(text));
      assert Landing(d, v, f + 1) == Some(Str(text));
    }
  }

  lemma {:induction false} LandsAtOnce(d: Doc, v: Json, text: string)
    requires !IsRef(v)
    ensures LandsOn(d, v, text) <==> v == Str(text)
  {
    assert Landing(d, v, 0) == Some(v);
  }
}
