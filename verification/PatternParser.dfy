/** The parser and generator of internal/synth/pattern.go. */
module PatternParser {
  import opened JsonValues
  import opened KeyPaths
  import opened Draws
  import opened PatternAst
  import opened PatternReplay
  import opened PatternParse
  import opened PatternGrammar
  import opened PatternPrint

  function After(parts: seq<Rx>, rest: Option<(seq<Rx>, string)>): Option<(seq<Rx>, string)> {
    if rest.None? then None else Some((parts + rest.value.0, rest.value.1))
  }

  lemma {:induction false} AfterNothing(parts: seq<Rx>, rest: Option<(seq<Rx>, string)>, s: string)
    ensures After([], rest) == rest && After(parts, Some(([], s))) == Some((parts, s))
  {
    if rest.Some? { assert [] + rest.value.0 == rest.value.0; }
    assert parts + [] == parts;
  }

  lemma {:induction false} AfterMore(parts: seq<Rx>, p: Rx, rest: Option<(seq<Rx>, string)>)
    ensures After(parts, After([p], rest)) == After(parts + [p], rest)
  {
    if rest.Some? { assert parts + ([p] + rest.value.0) == parts + [p] + rest.value.0; }
  }

  lemma {:induction false} CompileMore(parts: seq<Rx>, p: Rx)
    ensures CompileAll(parts + [p]) == CompileAll(parts) + [Compile(p)]
  {
    assert (parts + [p])[..|parts|] == parts;
  }

  lemma {:induction false} OneChoice(c: Rx)
    ensures CompileAll([c]) == [Compile(c)]
  {
    assert [c] == [] + [c] && CompileAll([]) == [];
    CompileMore([], c);
  }

  lemma {:induction false} ChosenCompiles(choices: seq<Rx>)
    requires choices != []
    ensures Compile(Chosen(choices)) ==
              if |CompileAll(choices)| == 1 then CompileAll(choices)[0] else Alt(CompileAll(choices))
  {
    if |choices| == 1 { CompileAllAt(choices, 0); }
  }

  lemma {:induction false} ConcatStep(s: string)
    requires !Stops(s)
    ensures ConcatOf(s) == if PieceOf(s).None? then None else After([PieceOf(s).value.0], ConcatOf(PieceOf(s).value.1))
  {
  }

  lemma {:induction false} MoreStep(s: string)
    requires At(s, '|')
    ensures MoreOf(s) ==
              if ConcatOf(s[1..]).None? then None
              else After([Concat(ConcatOf(s[1..]).value.0)], MoreOf(ConcatOf(s[1..]).value.1))
  {
  }

  /** What is left of a text after its first characters, and what is left after those of that. */
  lemma {:induction false} Onward(s: string, i: nat, j: nat)
    requires i + j <= |s|
    ensures s[i..][j..] == s[i + j..]
  {
  }

  /** The digits at start end at i. */
  lemma {:induction false} DigitsEnd(s: string, start: nat, i: nat)
    requires start <= i <= |s| && (i < |s| ==> !IsDigit(s[i])) && forall j | start <= j < i :: IsDigit(s[j])
    ensures DigitSpan(s[start..]) == i - start && s[start..i] == s[start..][..i - start]
    decreases i - start
  {
    if start < i {
      Onward(s, start, 1);
      DigitsEnd(s, start + 1, i);
    }
  }

  /** A pattern's bytes: no UTF-8 text has the byte 255. */
  predicate IsPattern(s: string) { forall i | 0 <= i < |s| :: (s[i] as int) < 255 }

  lemma {:induction false} BracesAfter(s: string, ds: string, rest: string)
    requires |ds| == DigitSpan(s) && ds == s[..|ds|] && rest == s[|ds|..]
    ensures AllDigits(ds) && BracesOf(s) == if ds == "" then None else TailOf(Count(ds), rest)
  {
  }

  lemma {:induction false} CountedCompiles(atom: Rx, q: Option<(nat, nat, string)>)
    ensures Counted(atom, q).Some? <==> q.Some?
    ensures q.Some? ==> Compile(Counted(atom, q).value.0) == Quant(Compile(atom), q.value.0, q.value.1)
    ensures q.Some? ==> Counted(atom, q).value.1 == q.value.2
  {
  }

  class Parser {
    const pattern: string
    var i: nat

    constructor (pattern: string)
      ensures this.pattern == pattern && i == 0
    {
      this.pattern, i := pattern, 0;
    }

    function Rest(): string
      reads this
      requires i <= |pattern|
    {
      pattern[i..]
    }

    /** What a method of the parser does: it fails where the text cannot be read, and otherwise
        yields the compiled tree and stands at the text that is left. */
    ghost predicate Reads(r: Option<Re>, spec: Option<(Rx, string)>)
      reads this
    {
      i <= |pattern| && (r.Some? <==> spec.Some?) &&
      (r.Some? ==> r.value == Compile(spec.value.0) && Rest() == spec.value.1)
    }

    /** parseAlternation */
    method ParseAlternation() returns (r: Option<Re>)
      requires i <= |pattern| && IsPattern(pattern)
      modifies this
      ensures Reads(r, AltOf(old(Rest())))
      decreases |pattern| - i, 4
    {
      var first := ParseConcat();
      if first.None? { return None; }
      ghost var c := Concat(ConcatOf(old(Rest())).value.0);
      ghost var more := MoreOf(Rest());
      var branches := ParseBranches(Seq(first.value), c);
      if branches.None? { return None; }
      ChosenCompiles([c] + more.value.0);
      r := Some(if |branches.value| == 1 then branches.value[0] else Alt(branches.value));
    }

    /** The loop of parseAlternation over its further branches. */
    method ParseBranches(first: Re, ghost c: Rx) returns (r: Option<seq<Re>>)
      requires i <= |pattern| && IsPattern(pattern) && first == Compile(c)
      modifies this
      ensures i <= |pattern| && (r.Some? <==> MoreOf(old(Rest())).Some?)
      ensures r.Some? ==> r.value == CompileAll([c] + MoreOf(old(Rest())).value.0)
      ensures r.Some? ==> Rest() == MoreOf(old(Rest())).value.1
      decreases |pattern| - i, 3
    {
      var branches := [first];
      ghost var all := After([c], MoreOf(Rest()));
      ghost var start := i;
      ghost var found := [c];
      OneChoice(c);
      while i < |pattern| && pattern[i] == '|'
        invariant start <= i <= |pattern| && branches == CompileAll(found) && More(found, all)
        decreases |pattern| - i
      {
        MoreStep(Rest());
        Onward(pattern, i, 1);
        ghost var s := Rest();
        i := i + 1;
        assert Rest() == s[1..];
        var items := ParseConcat();
        if items.None? { return None; }
        ghost var next := Concat(ConcatOf(s[1..]).value.0);
        AfterMore(found, next, MoreOf(Rest()));
        CompileMore(found, next);
        branches := branches + [Seq(items.value)];
        found := found + [next];
      }
      AfterNothing(found, all, Rest());
      r := Some(branches);
    }

    ghost predicate More(found: seq<Rx>, more: Option<(seq<Rx>, string)>)
      reads this
    {
      i <= |pattern| && more == After(found, MoreOf(Rest()))
    }

    /** parseConcat */
    method ParseConcat() returns (r: Option<seq<Re>>)
      requires i <= |pattern| && IsPattern(pattern)
      modifies this
      ensures i <= |pattern| && (r.Some? <==> ConcatOf(old(Rest())).Some?)
      ensures r.Some? ==> r.value == CompileAll(ConcatOf(old(Rest())).value.0)
      ensures r.Some? ==> Rest() == ConcatOf(old(Rest())).value.1
      decreases |pattern| - i, 2
    {
      var items: seq<Re> := [];
      ghost var parts: seq<Rx> := [];
      ghost var whole := ConcatOf(Rest());
      ghost var start := i;
      AfterNothing([], whole, "");
      while i < |pattern| && pattern[i] != '|' && pattern[i] != ')'
        invariant start <= i <= |pattern| && items == CompileAll(parts) && whole == After(parts, ConcatOf(Rest()))
        decreases |pattern| - i
      {
        ConcatStep(Rest());
        ghost var s := Rest();
        var atom := ParsePiece();
        if atom.None? { return None; }
        AfterMore(parts, PieceOf(s).value.0, ConcatOf(Rest()));
        CompileMore(parts, PieceOf(s).value.0);
        items := items + [atom.value];
        parts := parts + [PieceOf(s).value.0];
      }
      assert Stops(Rest());
      AfterNothing(parts, None, Rest());
      r := Some(items);
    }

    /** The body of parseConcat's loop: an atom and the quantifier after it. */
    method ParsePiece() returns (r: Option<Re>)
      requires i < |pattern| && IsPattern(pattern)
      modifies this
      ensures Reads(r, PieceOf(old(Rest())))
      decreases |pattern| - i, 1
    {
      r := ParseAtom();
      if r.None? { return None; }
      r := ParseQuantified(r.value, AtomOf(old(Rest())).value.0);
    }

    /** The quantifier after an atom. */
    method ParseQuantified(node: Re, ghost atom: Rx) returns (r: Option<Re>)
      requires i <= |pattern| && node == Compile(atom)
      modifies this
      ensures Reads(r, QuantOf(atom, old(Rest())))
    {
      if i >= |pattern| { return Some(node); }
      Onward(pattern, i, 1);
      if pattern[i] == '{' { r := ParseCounted(node, atom); } else { r := ParseSign(node, atom); }
    }

    /** A quantifier of one character, if any. */
    method ParseSign(node: Re, ghost atom: Rx) returns (r: Option<Re>)
      requires i < |pattern| && node == Compile(atom) && pattern[i] != '{'
      modifies this
      ensures Reads(r, QuantOf(atom, old(Rest())))
    {
      r := Some(node);
      Onward(pattern, i, 1);
      match pattern[i]
      case '*' =>
        i := i + 1;
        r := Some(Quant(node, 0, MAX_REPEAT));
      case '+' =>
        i := i + 1;
        r := Some(Quant(node, 1, MAX_REPEAT));
      case '?' =>
        i := i + 1;
        r := Some(Quant(node, 0, 1));
      case _ =>
    }

    /** A quantifier in braces. */
    method ParseCounted(node: Re, ghost atom: Rx) returns (r: Option<Re>)
      requires i < |pattern| && node == Compile(atom) && pattern[i] == '{'
      modifies this
      ensures Reads(r, Counted(atom, BracesOf(old(pattern[i + 1..]))))
    {
      ghost var counts := BracesOf(pattern[i + 1..]);
      var q := ParseQuant();
      CountedCompiles(atom, counts);
      if q.None? { return None; }
      r := Some(Quant(node, q.value.0, q.value.1));
    }

    /** parseAtom */
    method ParseAtom() returns (r: Option<Re>)
      requires i < |pattern| && IsPattern(pattern)
      modifies this
      ensures Reads(r, AtomOf(old(Rest())))
      decreases |pattern| - i, 0
    {
      var ch := pattern[i];
      Onward(pattern, i, 1);
      if ch == '^' || ch == '$' {
        i := i + 1;
        r := Some(Empty);
      } else if ch == '.' {
        r := None;
      } else if ch == '\\' {
        r := ParseEscape();
      } else if ch == '[' {
        r := ParseClass();
      } else if ch == '(' {
        i := i + 1;
        r := ParseAlternation();
        if r.None? { return None; }
        if i >= |pattern| || pattern[i] != ')' { return None; }
        Onward(pattern, i, 1);
        i := i + 1;
      } else {
        i := i + 1;
        r := Some(Lit(ch));
      }
    }

    /** parseEscape */
    method ParseEscape() returns (r: Option<Re>)
      requires i < |pattern|
      modifies this
      ensures Reads(r, EscapeOf(old(pattern[i + 1..])))
    {
      i := i + 1;
      if i >= |pattern| { return None; }
      Onward(pattern, i, 1);
      var c := pattern[i];
      if c == 'd' {
        i := i + 1;
        r := Some(Class(DIGITS));
      } else if c == 'w' {
        i := i + 1;
        r := Some(Class(WORD));
      } else if c == 's' {
        i := i + 1;
        r := Some(Class(SPACE));
      } else if Escapable(c) {
        i := i + 1;
        r := Some(Lit(c));
      } else {
        r := None;
      }
    }

    /** parseClass */
    method ParseClass() returns (r: Option<Re>)
      requires i < |pattern| && IsPattern(pattern)
      modifies this
      ensures Reads(r, ClassOf(old(pattern[i + 1..])))
    {
      i := i + 1;
      if i < |pattern| && pattern[i] == '^' { return None; }
      ghost var start := Rest();
      var pool := ParseRanges();
      if pool.None? { return None; }
      if i >= |pattern| || pattern[i] != ']' { return None; }
      Onward(pattern, i, 1);
      i := i + 1;
      if |pool.value| == 0 { return None; }
      r := Some(Class(pool.value));
    }

    /** The loop of parseClass over its ranges. */
    method ParseRanges() returns (r: Option<seq<char>>)
      requires i <= |pattern| && IsPattern(pattern)
      modifies this
      ensures i <= |pattern| && (r.Some? <==> RangesOf(old(Rest())).Some?)
      ensures r.Some? ==> r.value == RangesOf(old(Rest())).value.0 && Rest() == RangesOf(old(Rest())).value.1
    {
      var pool: seq<char> := [];
      ghost var whole := RangesOf(Rest());
      PooledNothing([], whole, "");
      while i < |pattern| && pattern[i] != ']'
        invariant i <= |pattern|
        invariant whole == Pooled(pool, RangesOf(Rest()))
        decreases |pattern| - i
      {
        RangesStep(Rest());
        var lo := pattern[i];
        ghost var before := pool;
        Onward(pattern, i, 1);
        i := i + 1;
        if i + 1 < |pattern| && pattern[i] == '-' && pattern[i + 1] != ']' {
          var hi := pattern[i + 1];
          i := i + 2;
          Onward(pattern, i - 3, 3);
          if hi < lo { return None; }
          pool := AddRange(pool, lo, hi);
          PooledMore(before, Range(lo, hi), RangesOf(Rest()));
        } else {
          pool := pool + [lo];
          PooledMore(before, [lo], RangesOf(Rest()));
        }
      }
      PooledNothing(pool, None, Rest());
      r := Some(pool);
    }

    ghost predicate ReadsCounts(r: Option<(nat, nat)>, spec: Option<(nat, nat, string)>)
      reads this
    {
      i <= |pattern| && (r.Some? <==> spec.Some?) &&
      (r.Some? ==> r.value == (spec.value.0, spec.value.1) && Rest() == spec.value.2)
    }

    /** parseQuant */
    method ParseQuant() returns (r: Option<(nat, nat)>)
      requires i < |pattern|
      modifies this
      ensures ReadsCounts(r, BracesOf(old(pattern[i + 1..])))
    {
      i := i + 1;
      r := ParseCounts(old(pattern[i + 1..]));
    }

    /** The part of parseQuant after its '{'. */
    method ParseCounts(ghost s: string) returns (r: Option<(nat, nat)>)
      requires i <= |pattern| && s == Rest()
      modifies this
      ensures ReadsCounts(r, BracesOf(s))
    {
      var nStr := FirstDigits();
      ghost var spec := BracesOf(s);
      BracesAfter(s, nStr, Rest());
      if nStr == "" {
        assert spec == None;
        return None;
      }
      assert spec == TailOf(Count(nStr), Rest());
      r := ParseTail(Count(nStr));
    }

    /** Digits, and the text after them. */
    method FirstDigits() returns (ds: string)
      requires i <= |pattern|
      modifies this
      ensures i <= |pattern| && |ds| == DigitSpan(old(Rest())) && ds == old(Rest())[..|ds|]
      ensures Rest() == old(Rest())[|ds|..]
    {
      ds := Digits();
      Onward(pattern, old(i), |ds|);
    }

    /** The part of parseQuant after its first digits. */
    method ParseTail(n: nat) returns (r: Option<(nat, nat)>)
      requires i <= |pattern|
      modifies this
      ensures ReadsCounts(r, TailOf(n, old(Rest())))
    {
      if i < |pattern| && pattern[i] == ',' {
        Onward(pattern, i, 1);
        r := ParseMost(n);
        return;
      }
      if i < |pattern| && pattern[i] == '}' {
        Onward(pattern, i, 1);
        i := i + 1;
        return Some((n, n));
      }
      r := None;
    }

    /** The part of parseQuant after its ','. */
    method ParseMost(n: nat) returns (r: Option<(nat, nat)>)
      requires i < |pattern|
      modifies this
      ensures ReadsCounts(r, MostOf(n, old(pattern[i + 1..])))
    {
      i := i + 1;
      ghost var s := Rest();
      var mStr := FirstDigits();
      MostRead(n, s, mStr, Rest());
      if i < |pattern| && pattern[i] == '}' && mStr != "" {
        var m := Count(mStr);
        if m < n { return None; }
        Onward(pattern, i, 1);
        i := i + 1;
        return Some((n, m));
      }
      r := None;
    }

    /** What follows the second digits decides. */
    lemma {:induction false} MostRead(n: nat, s: string, ds: string, rest: string)
      requires |ds| == DigitSpan(s) && ds == s[..|ds|] && rest == s[|ds|..]
      ensures MostOf(n, s) ==
                if ds == "" || rest == "" || rest[0] != '}' || Count(ds) < n then None
                else Some((n, Count(ds), rest[1..]))
    {
    }

    /** The loops of parseQuant over digits. */
    method Digits() returns (ds: string)
      requires i <= |pattern|
      modifies this
      ensures i <= |pattern| && |ds| == DigitSpan(old(Rest())) && ds == old(Rest())[..|ds|] && i == old(i) + |ds|
    {
      var start := i;
      while i < |pattern| && IsDigit(pattern[i])
        invariant start <= i <= |pattern| && forall j | start <= j < i :: IsDigit(pattern[j])
        decreases |pattern| - i
      {
        i := i + 1;
      }
      DigitsEnd(pattern, start, i);
      ds := pattern[start..i];
    }
  }

  function Pooled(pool: seq<char>, rest: Option<(seq<char>, string)>): Option<(seq<char>, string)> {
    if rest.None? then None else Some((pool + rest.value.0, rest.value.1))
  }

  lemma {:induction false} PooledNothing(pool: seq<char>, rest: Option<(seq<char>, string)>, s: string)
    ensures Pooled([], rest) == rest && Pooled(pool, Some(([], s))) == Some((pool, s))
  {
    if rest.Some? { assert [] + rest.value.0 == rest.value.0; }
    assert pool + [] == pool;
  }

  lemma {:induction false} PooledMore(pool: seq<char>, more: seq<char>, rest: Option<(seq<char>, string)>)
    ensures Pooled(pool, Pooled(more, rest)) == Pooled(pool + more, rest)
  {
    if rest.Some? { assert pool + (more + rest.value.0) == pool + more + rest.value.0; }
  }

  lemma {:induction false} RangesStep(s: string)
    requires s != "" && s[0] != ']'
    ensures RangesOf(s) ==
      if |s| >= 3 && s[1] == '-' && s[2] != ']' then
        (if s[2] < s[0] then None else Pooled(Range(s[0], s[2]), RangesOf(s[3..])))
      else Pooled([s[0]], RangesOf(s[1..]))
  {
  }

  /** The loop of parseClass over the bytes of one range; it ends because no byte is 255. */
  method AddRange(pool: seq<char>, lo: char, hi: char) returns (out: seq<char>)
    requires lo <= hi && (hi as int) < 255
    ensures out == pool + Range(lo, hi)
  {
    out := pool;
    var c := lo as int;
    while c <= hi as int
      invariant lo as int <= c <= hi as int + 1 && out == pool + Range(lo, hi)[..c - lo as int]
    {
      out := out + [CharOf(c)];
      c := (c + 1) % 256;
    }
    assert Range(lo, hi)[..c - lo as int] == Range(lo, hi);
  }

  // ----- Generation -----

  /** genNode: it appends an occurrence of the node to the builder, the one the source makes. */
  method GenNode(s: Synthesizer, node: Re, sb: string) returns (out: string, ghost w: string)
    requires Drawable(node)
    modifies s
    ensures out == sb + w && Writes(node, w)
    ensures (w, s.pos) == Written(node, s.words, old(s.pos))
  {
    WrittenOccurs(node, s.words, s.pos);
    out, w := Append(s, node, sb);
  }

  method Append(s: Synthesizer, node: Re, sb: string) returns (out: string, ghost w: string)
    requires Drawable(node)
    modifies s
    ensures out == sb + w && (w, s.pos) == Written(node, s.words, old(s.pos))
    decreases node, 1
  {
    match node
    case Empty =>
      out, w := sb, "";
    case Lit(c) =>
      out, w := sb + [c], [c];
    case Class(chars) =>
      var k := s.Pick(|chars|);
      out, w := sb + [chars[k]], [chars[k]];
    case Seq(items) =>
      out, w := GenItems(s, items, sb);
    case Alt(branches) =>
      var k := s.Pick(|branches|);
      out, w := Append(s, branches[k], sb);
    case Quant(body, min, max) =>
      var count := min;
      if max > min {
        var more := s.Pick(max - min + 1);
        count := count + more;
      }
      out, w := GenTimes(s, body, count, sb);
  }

  method GenItems(s: Synthesizer, items: seq<Re>, sb: string) returns (out: string, ghost w: string)
    requires forall i | 0 <= i < |items| :: Drawable(items[i])
    modifies s
    ensures out == sb + w && (w, s.pos) == WrittenAll(items, |items|, s.words, old(s.pos))
    decreases items
  {
    out, w := sb, "";
    for k := 0 to |items|
      invariant out == sb + w && (w, s.pos) == WrittenAll(items, k, s.words, old(s.pos))
    {
      var more, word := Append(s, items[k], out);
      out, w := more, w + word;
    }
  }

  method GenTimes(s: Synthesizer, body: Re, count: nat, sb: string) returns (out: string, ghost w: string)
    requires Drawable(body)
    modifies s
    ensures out == sb + w && (w, s.pos) == WrittenTimes(body, count, s.words, old(s.pos))
    decreases body, 2
  {
    out, w := sb, "";
    for i := 0 to count
      invariant out == sb + w && (w, s.pos) == WrittenTimes(body, i, s.words, old(s.pos))
    {
      var more, word := Append(s, body, out);
      out, w := more, w + word;
    }
  }

  /** Pattern: it succeeds exactly on the texts of the grammar, and writes a text in the language
      of the one derivation a text has. */
  method Pattern(s: Synthesizer, re: string) returns (out: Option<string>)
    requires IsPattern(re)
    modifies s
    ensures out.Some? <==> HasDerivation(re)
    ensures out.Some? ==> InLanguage(re, out.value)
  {
    OneDerivation(re);
    var p := new Parser(re);
    assert p.Rest() == re;
    var node := p.ParseAlternation();
    if node.None? { return None; }
    if p.i < |re| { return None; }
    ghost var r := AltOf(re).value.0;
    assert IsAlternation(r, re);
    AlternationIsNormal(r, re);
    AlternationIsBounded(r);
    BoundedIsDrawable(r);
    var text, w := GenNode(s, node.value, "");
    assert text == w;
    WrittenMatches(r, w);
    out := Some(text);
  }
}
