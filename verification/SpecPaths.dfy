/** What following a reference comes to over documents (internal/asyncapi/document.go): the keys
    a pointer is written from, one after the other from the root of the spec. */
module SpecPaths {
  import opened JsonValues
  import opened PointerTokens
  import opened KeyPaths
  import opened SpecRefs

  // ----- Splitting and joining at '/' -----

  function Slashed(parts: seq<string>): string
    requires parts != []
  {
    if |parts| == 1 then parts[0] else parts[0] + "/" + Slashed(parts[1..])
  }

  predicate SlashFree(parts: seq<string>) { forall i | 0 <= i < |parts| :: '/' !in parts[i] }

  lemma {:induction false} SplitFirst(word: string, s: string)
    requires '/' !in word
    ensures Split(word + "/" + s) == [word] + Split(s)
  {
    var t := word + "/" + s;
    if word == "" {
      assert t[0] == '/' && t[1..] == s;
    } else {
      assert t[0] == word[0] && t[1..] == word[1..] + "/" + s;
      SplitFirst(word[1..], s);
      assert [word[0]] + word[1..] == word;
    }
  }

  /** Parts free of '/' come back from their join. */
  lemma {:induction false} SplitOfJoin(parts: seq<string>)
    requires parts != [] && SlashFree(parts)
    ensures Split(Slashed(parts)) == parts
  {
    if |parts| == 1 {
      SplitWord(parts[0]);
    } else {
      SplitFirst(parts[0], Slashed(parts[1..]));
      SplitOfJoin(parts[1..]);
    }
  }

  /** Whatever is split joins again, and no part holds a '/'. */
  lemma {:induction false} JoinOfSplit(s: string)
    ensures Slashed(Split(s)) == s && SlashFree(Split(s))
  {
    if s != "" {
      var rest := Split(s[1..]);
      JoinOfSplit(s[1..]);
      if s[0] == '/' {
        assert ([""] + rest)[1..] == rest;
        assert s == "" + "/" + s[1..];
      } else {
        var parts := [[s[0]] + rest[0]] + rest[1..];
        assert parts[1..] == rest[1..] && s == [s[0]] + s[1..];
        assert Slashed(parts) == [s[0]] + Slashed(rest);
      }
    }
  }

  // ----- Percent encoding -----

  predicate Bytes(s: string) { forall i | 0 <= i < |s| :: (s[i] as int) < 256 }

  function HexDigit(n: nat, lower: bool): char
    requires n < 16
  {
    if n < 10 then '0' + n as char else (if lower then 'a' else 'A') + (n - 10) as char
  }

  /** A text in a fragment: the characters to keep as they are, every other one as "%XX",
      in digits of either case. */
  function PercentEncoded(s: string, keep: set<char>, lower: bool): string
    requires Bytes(s)
  {
    if s == "" then ""
    else (if s[0] in keep then [s[0]] else ['%', HexDigit(s[0] as int / 16, lower), HexDigit(s[0] as int % 16, lower)])
         + PercentEncoded(s[1..], keep, lower)
  }

  /** Decoding gives back every text however much of it was encoded. */
  lemma {:induction false} PercentRoundTrip(s: string, keep: set<char>, lower: bool)
    requires Bytes(s) && '%' !in keep
    ensures PathUnescape(PercentEncoded(s, keep, lower)) == Some(s)
  {
    if s != "" {
      var e := PercentEncoded(s[1..], keep, lower);
      PercentRoundTrip(s[1..], keep, lower);
      assert s == [s[0]] + s[1..];
      if s[0] in keep {
        assert ([s[0]] + e)[1..] == e;
      } else {
        PercentPair(s[0], e, lower);
      }
    }
  }

  lemma {:induction false} PercentPair(c: char, e: string, lower: bool)
    requires (c as int) < 256 && PathUnescape(e).Some?
    ensures PathUnescape(['%', HexDigit(c as int / 16, lower), HexDigit(c as int % 16, lower)] + e) ==
              Some([c] + PathUnescape(e).value)
  {
    var hi, lo := c as int / 16, c as int % 16;
    var t := ['%', HexDigit(hi, lower), HexDigit(lo, lower)];
    assert (t + e)[1] == t[1] && (t + e)[2] == t[2] && (t + e)[3..] == e;
    HexReads(hi, lower);
    HexReads(lo, lower);
    assert (hi * 16 + lo) as char == c;
  }

  lemma {:induction false} HexReads(n: nat, lower: bool)
    requires n < 16
    ensures HexValue(HexDigit(n, lower)) == Some(n)
  {
  }

  predicate BadEscape(s: string, i: nat)
    requires i < |s|
  {
    s[i] == '%' && (i + 2 >= |s| || HexValue(s[i + 1]).None? || HexValue(s[i + 2]).None?)
  }

  /** Decoding fails exactly where some '%' is not followed by two hexadecimal digits. */
  lemma {:induction false} UnescapeFails(s: string)
    ensures PathUnescape(s).None? <==> exists i :: 0 <= i < |s| && BadEscape(s, i)
  {
    if s != "" {
      var n := if s[0] == '%' && !BadEscape(s, 0) then 3 else 1;
      if !BadEscape(s, 0) {
        UnescapeFails(s[n..]);
        forall i | n <= i < |s| ensures BadEscape(s, i) <==> BadEscape(s[n..], i - n) {}
        assert forall i | 0 <= i < n :: !BadEscape(s, i);
        if i :| 0 <= i < |s[n..]| && BadEscape(s[n..], i) { assert BadEscape(s, i + n); }
      }
    }
  }

  // ----- Following a reference -----

  /** w stands under a key of an object, or at an index of a list. */
  ghost predicate Under(v: Json, key: string, w: Json) {
    (v.Obj? && key in v.fields && v.fields[key] == w) ||
    (v.Arr? && exists i :: 0 <= i < |v.items| && Atoi(key) == Some(i) && v.items[i] == w)
  }

  /** One comes from v to w key by key. */
  ghost predicate Leads(v: Json, keys: seq<string>, w: Json) {
    if keys == [] then v == w else exists next :: Under(v, keys[0], next) && Leads(next, keys[1..], w)
  }

  /** The pointer text to keys, without its first '/'. */
  function PointerText(keys: seq<string>): string
    requires keys != []
  {
    Slashed(seq(|keys|, i requires 0 <= i < |keys| => EscapeToken(keys[i])))
  }

  lemma {:induction false} EscapedSlashFree(s: string)
    ensures '/' !in EscapeToken(s)
  {
    if s != "" {
      EscapeCons(s[0], s[1..]);
      assert s == [s[0]] + s[1..];
      EscapedSlashFree(s[1..]);
    }
  }

  lemma {:induction false} UnderIsStep(v: Json, key: string, w: Json)
    ensures Under(v, key, w) <==> TokenStep(v, key) == Some(w)
  {
  }

  lemma {:induction false} LeadsIsWalk(v: Json, keys: seq<string>, tokens: seq<string>, w: Json)
    requires |tokens| == |keys| && forall i | 0 <= i < |keys| :: UnescapeToken(tokens[i]) == keys[i]
    ensures Leads(v, keys, w) <==> Walk(v, tokens) == Some(w)
    decreases |keys|
  {
    if keys != [] {
      var next := TokenStep(v, keys[0]);
      if next.Some? {
        UnderIsStep(v, keys[0], next.value);
        LeadsIsWalk(next.value, keys[1..], tokens[1..], w);
      }
      if Leads(v, keys, w) {
        var n :| Under(v, keys[0], n) && Leads(n, keys[1..], w);
        UnderIsStep(v, keys[0], n);
      }
    }
  }

  /** A reference written from keys, escaped, joined by '/' and percent-encoded or not, leads
      exactly where those keys lead from the root of the spec, and nowhere where they do not. */
  lemma {:induction false} FollowsTheKeys(d: Doc, keys: seq<string>, fragment: string, w: Json)
    requires keys != [] && PathUnescape(fragment) == Some(PointerText(keys))
    ensures Follow(d, "#/" + fragment) == Some(w) <==> Leads(Obj(d.raw), keys, w)
    ensures Follow(d, "#/" + fragment).None? <==> forall v :: !Leads(Obj(d.raw), keys, v)
  {
    var tokens := seq(|keys|, i requires 0 <= i < |keys| => EscapeToken(keys[i]));
    forall i | 0 <= i < |keys| ensures '/' !in tokens[i] && UnescapeToken(tokens[i]) == keys[i] {
      EscapedSlashFree(keys[i]);
      TokenRoundTrip(keys[i]);
    }
    SplitOfJoin(tokens);
    assert ("#/" + fragment)[2..] == fragment && ("#/" + fragment)[..2] == "#/";
    assert Follow(d, "#/" + fragment) == Walk(Obj(d.raw), tokens);
    forall v ensures Follow(d, "#/" + fragment) == Some(v) <==> Leads(Obj(d.raw), keys, v) {
      LeadsIsWalk(Obj(d.raw), keys, tokens, v);
    }
    var found := Follow(d, "#/" + fragment);
    if found.Some? { assert Leads(Obj(d.raw), keys, found.value); }
  }

  /** So for keys without '%', written as they are. */
  lemma {:induction false} FollowsPlainKeys(d: Doc, keys: seq<string>, w: Json)
    requires keys != [] && '%' !in PointerText(keys)
    ensures Follow(d, "#/" + PointerText(keys)) == Some(w) <==> Leads(Obj(d.raw), keys, w)
  {
    NothingEncoded(PointerText(keys));
    FollowsTheKeys(d, keys, PointerText(keys), w);
  }

  lemma {:induction false} NothingEncoded(s: string)
    requires '%' !in s
    ensures PathUnescape(s) == Some(s)
  {
    if s != "" {
      NothingEncoded(s[1..]);
      assert s == [s[0]] + s[1..];
    }
  }

  /** An item of a list stands under its index as decimals print it. */
  lemma {:induction false} UnderItsIndex(l: seq<Json>, i: nat)
    requires i < |l| && i <= MAX_INT
    ensures Under(Arr(l), Itoa(i), l[i])
  {
    AtoiItoa(i);
  }
}
