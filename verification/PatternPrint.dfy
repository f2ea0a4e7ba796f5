/** Printing a pattern and reading it back (internal/synth/pattern.go). */
module PatternPrint {
  import opened JsonValues
  import opened KeyPaths
  import opened PatternAst
  import opened PatternParse
  import opened PatternGrammar

  function PrintQuantifier(least: nat, most: Option<nat>): string {
    if most.None? then (if least == 0 then "*" else "+") else Braces(Itoa(least), Itoa(most.value))
  }

  /** A class: a ']' within the range that holds it, and before a '-' a range of one character. */
  function PrintClass(chars: seq<char>): string {
    if chars == [] then ""
    else if |chars| >= 3 && chars[1] == ']' then [chars[0], '-', chars[2]] + PrintClass(chars[3..])
    else if |chars| >= 2 && chars[1] == '-' then [chars[0], '-', chars[0]] + PrintClass(chars[1..])
    else [chars[0]] + PrintClass(chars[1..])
  }

  function PrintAtom(r: Rx): string
    decreases r, 1
  {
    match r
    case Anchor => "^"
    case Char(c) => if Escapable(c) then ['\\', c] else [c]
    case Set(chars) => "[" + PrintClass(chars) + "]"
    case Repeat(_, _, _) => ""
    case _ => "(" + PrintAlternation(r) + ")"
  }

  function PrintPiece(r: Rx): string
    decreases r, 2
  {
    if r.Repeat? then PrintAtom(r.body) + PrintQuantifier(r.least, r.most) else PrintAtom(r)
  }

  function PrintConcat(parts: seq<Rx>): string
    decreases parts
  {
    if parts == [] then "" else PrintPiece(parts[0]) + PrintConcat(parts[1..])
  }

  function PrintChoices(choices: seq<Rx>): string
    decreases choices
  {
    if choices == [] || !choices[0].Concat? then ""
    else if |choices| == 1 then PrintConcat(choices[0].parts)
    else PrintConcat(choices[0].parts) + "|" + PrintChoices(choices[1..])
  }

  function PrintAlternation(r: Rx): string
    decreases r, 0
  {
    match r
    case Concat(parts) => PrintConcat(parts)
    case Either(choices) => PrintChoices(choices)
    case _ => ""
  }

  // ----- Normal forms: the trees that patterns read as -----

  /** A ']' comes only from a range around it. */
  predicate NormalRanges(chars: seq<char>) {
    forall i | 0 <= i < |chars| && chars[i] == ']' :: 0 < i < |chars| - 1 && chars[i - 1] == '\\' && chars[i + 1] == '^'
  }

  predicate NormalAtom(r: Rx)
    decreases r, 1
  {
    match r
    case Anchor => true
    case Char(_) => true
    case Set(chars) => chars != [] && chars[0] != '^' && NormalRanges(chars)
    case Repeat(_, _, _) => false
    case _ => NormalAlternation(r)
  }

  predicate NormalPiece(r: Rx)
    decreases r, 2
  {
    if r.Repeat? then NormalAtom(r.body) && NormalCounts(r.least, r.most) else NormalAtom(r)
  }

  predicate NormalCounts(least: nat, most: Option<nat>) {
    if most.Some? then least <= most.value <= MAX_INT else least <= 1
  }

  predicate NormalConcat(parts: seq<Rx>)
    decreases parts
  {
    parts == [] || (NormalPiece(parts[0]) && NormalConcat(parts[1..]))
  }

  predicate NormalChoices(choices: seq<Rx>)
    decreases choices
  {
    choices == [] || (choices[0].Concat? && NormalConcat(choices[0].parts) && NormalChoices(choices[1..]))
  }

  predicate NormalAlternation(r: Rx)
    decreases r, 0
  {
    match r
    case Concat(parts) => NormalConcat(parts)
    case Either(choices) => |choices| >= 2 && NormalChoices(choices)
    case _ => false
  }

  // ----- The print of a normal form is its derivation -----

  lemma CharOfChar(c: char)
    ensures CharOf(c as int) == c && Range(c, c) == [c]
  {
    assert (c as int) as char == c;
  }

  lemma {:induction false} ClassPrints(chars: seq<char>)
    requires NormalRanges(chars)
    ensures IsRanges(chars, PrintClass(chars)) && (chars != [] ==> At(PrintClass(chars), chars[0]))
    decreases |chars|
  {
    if chars != [] {
      var t, c := PrintClass(chars), chars[0];
      if |chars| >= 3 && chars[1] == ']' {
        ClassPrints(chars[3..]);
        assert t[3..] == PrintClass(chars[3..]) && Spans(t);
        assert chars[0] == '\\' && chars[2] == '^';
        assert Range('\\', '^') == ['\\', ']', '^'] == chars[..3] by {
          assert CharOf(92) == '\\' && CharOf(93) == ']' && CharOf(94) == '^';
        }
      } else {
        ClassPrints(chars[1..]);
        if |chars| >= 2 && chars[1] == '-' {
          assert t[3..] == PrintClass(chars[1..]) && Spans(t);
          CharOfChar(c);
          assert [c] == chars[..1];
        } else {
          assert t[1..] == PrintClass(chars[1..]) && !Spans(t);
        }
      }
    }
  }

  lemma {:induction false} CountPrints(n: nat)
    requires n <= MAX_INT
    ensures IsCount(Itoa(n), n)
  {
    ItoaDecimal(n);
  }

  lemma {:induction false} QuantifierPrints(least: nat, most: Option<nat>)
    requires NormalCounts(least, most)
    ensures IsQuantifier(least, most, PrintQuantifier(least, most))
  {
    if most.Some? {
      CountPrints(least);
      CountPrints(most.value);
    }
  }

  lemma {:induction false} AtomPrints(r: Rx)
    requires NormalAtom(r)
    ensures IsAtom(r, PrintAtom(r)) && PrintAtom(r) != "" && !Quantifies(PrintAtom(r))
    decreases r, 1
  {
    var t := PrintAtom(r);
    match r
    case Set(chars) =>
      ClassPrints(chars);
      assert t[1..|t| - 1] == PrintClass(chars);
    case Concat(_) =>
      AlternationPrints(r);
      assert t[1..|t| - 1] == PrintAlternation(r);
    case Either(_) =>
      AlternationPrints(r);
      assert t[1..|t| - 1] == PrintAlternation(r);
    case _ =>
  }

  lemma {:induction false} PiecePrints(r: Rx)
    requires NormalPiece(r)
    ensures IsPiece(r, PrintPiece(r)) && PrintPiece(r) != "" && !Quantifies(PrintPiece(r))
    decreases r, 2
  {
    if r.Repeat? {
      AtomPrints(r.body);
      QuantifierPrints(r.least, r.most);
      var n, t := |PrintAtom(r.body)|, PrintPiece(r);
      assert t[..n] == PrintAtom(r.body) && t[n..] == PrintQuantifier(r.least, r.most);
      QuantifiedPiece(r, t, n);
    } else {
      AtomPrints(r);
    }
  }

  lemma {:induction false} ConcatPrints(parts: seq<Rx>)
    requires NormalConcat(parts)
    ensures IsConcat(parts, PrintConcat(parts)) && !Quantifies(PrintConcat(parts))
    decreases parts
  {
    if parts != [] {
      PiecePrints(parts[0]);
      ConcatPrints(parts[1..]);
      var n, t := |PrintPiece(parts[0])|, PrintConcat(parts);
      assert t[..n] == PrintPiece(parts[0]) && t[n..] == PrintConcat(parts[1..]);
      ConcatMore(parts[0], parts[1..], t, n);
      assert [parts[0]] + parts[1..] == parts;
    }
  }

  lemma {:induction false} ChoicesPrint(choices: seq<Rx>)
    requires choices != [] && NormalChoices(choices)
    ensures AreChoices(choices, PrintChoices(choices))
    decreases choices
  {
    ConcatPrints(choices[0].parts);
    if |choices| > 1 {
      ChoicesPrint(choices[1..]);
      var first, rest := PrintConcat(choices[0].parts), PrintChoices(choices[1..]);
      BarParts(first, rest);
      ChoicesMore(choices[0], choices[1..], first + "|" + rest, |first|);
      FirstAndRest(choices);
    }
  }

  lemma {:induction false} BarParts(first: string, rest: string)
    ensures (first + "|" + rest)[..|first|] == first && (first + "|" + rest)[|first|] == '|'
    ensures (first + "|" + rest)[|first|..][1..] == rest
  {
  }

  lemma {:induction false} FirstAndRest<T>(xs: seq<T>)
    requires xs != []
    ensures [xs[0]] + xs[1..] == xs
  {
  }

  lemma {:induction false} AlternationPrints(r: Rx)
    requires NormalAlternation(r)
    ensures IsAlternation(r, PrintAlternation(r))
    decreases r, 0
  {
    match r
    case Concat(parts) => ConcatPrints(parts);
    case Either(choices) => ChoicesPrint(choices);
  }

  // ----- Whatever a pattern reads as is a normal form -----

  lemma {:induction false} RangeIsNormal(lo: char, hi: char)
    requires lo <= hi && lo != ']' && hi != ']'
    ensures NormalRanges(Range(lo, hi)) && Range(lo, hi)[0] == lo
  {
    var chars := Range(lo, hi);
    CharOfChar(lo);
    CharOfChar(hi);
    forall i | 0 <= i < |chars| && chars[i] == ']'
      ensures 0 < i < |chars| - 1 && chars[i - 1] == '\\' && chars[i + 1] == '^'
    {
      assert CharOf(lo as int + i) == ']' && lo as int + i == 93;
      assert chars[|chars| - 1] == CharOf(hi as int) == hi;
      assert chars[i - 1] == CharOf(92) && chars[i + 1] == CharOf(94);
    }
  }

  lemma {:induction false} NormalJoined(a: seq<char>, b: seq<char>)
    requires NormalRanges(a) && NormalRanges(b)
    ensures NormalRanges(a + b)
  {
    var c := a + b;
    forall i | 0 <= i < |c| && c[i] == ']' ensures 0 < i < |c| - 1 && c[i - 1] == '\\' && c[i + 1] == '^' {
      if i < |a| { assert a[i] == ']'; } else { assert b[i - |a|] == ']'; }
    }
  }

  lemma {:induction false} RangesAreNormal(chars: seq<char>, t: string)
    requires IsRanges(chars, t)
    ensures NormalRanges(chars) && (chars != [] ==> At(t, chars[0]))
    decreases |t|
  {
    if t != "" {
      var first := if Spans(t) then Range(t[0], t[2]) else [t[0]];
      if Spans(t) { RangeIsNormal(t[0], t[2]); }
      RangesAreNormal(chars[|first|..], if Spans(t) then t[3..] else t[1..]);
      NormalJoined(first, chars[|first|..]);
      assert chars == first + chars[|first|..];
    }
  }

  lemma {:induction false} QuantifierIsNormal(least: nat, most: Option<nat>, t: string)
    requires IsQuantifier(least, most, t)
    ensures NormalCounts(least, most)
  {
  }

  lemma {:induction false} AtomIsNormal(r: Rx, t: string)
    requires IsAtom(r, t)
    ensures NormalAtom(r)
    decreases r, 1
  {
    match r
    case Set(chars) =>
      if t[0] == '[' { RangesAreNormal(chars, t[1..|t| - 1]); } else { EscapesAreNormal(chars); }
    case Concat(_) => AlternationIsNormal(r, t[1..|t| - 1]);
    case Either(_) => AlternationIsNormal(r, t[1..|t| - 1]);
    case _ =>
  }

  lemma {:induction false} WordIsNormal()
    ensures NormalAtom(Set(WORD)) && NormalAtom(Set(DIGITS))
  {
    var lower, upper := Range('a', 'z'), Range('A', 'Z');
    RangeIsNormal('a', 'z');
    RangeIsNormal('A', 'Z');
    RangeIsNormal('0', '9');
    NormalJoined(lower, upper);
    NormalJoined(lower + upper, DIGITS);
    NormalJoined(lower + upper + DIGITS, "_");
    assert WORD[0] == lower[0] && DIGITS[0] == '0';
  }

  lemma {:induction false} EscapesAreNormal(chars: seq<char>)
    requires chars == DIGITS || chars == WORD || chars == SPACE
    ensures NormalAtom(Set(chars))
  {
    WordIsNormal();
  }

  lemma {:induction false} PieceIsNormal(r: Rx, t: string)
    requires IsPiece(r, t)
    ensures NormalPiece(r)
    decreases r, 2
  {
    if r.Repeat? {
      var n :| 0 <= n <= |t| && IsAtom(r.body, t[..n]) && IsQuantifier(r.least, r.most, t[n..]);
      AtomIsNormal(r.body, t[..n]);
      QuantifierIsNormal(r.least, r.most, t[n..]);
    } else {
      AtomIsNormal(r, t);
    }
  }

  lemma {:induction false} ConcatIsNormal(parts: seq<Rx>, t: string)
    requires IsConcat(parts, t)
    ensures NormalConcat(parts)
    decreases parts
  {
    if parts != [] {
      var n :| 0 <= n <= |t| && IsPiece(parts[0], t[..n]) && IsConcat(parts[1..], t[n..]);
      PieceIsNormal(parts[0], t[..n]);
      ConcatIsNormal(parts[1..], t[n..]);
    }
  }

  lemma {:induction false} ChoicesAreNormal(choices: seq<Rx>, t: string)
    requires AreChoices(choices, t)
    ensures NormalChoices(choices)
    decreases choices
  {
    if |choices| == 1 {
      ConcatIsNormal(choices[0].parts, t);
      assert NormalChoices(choices[1..]);
    } else {
      var n :| 0 <= n < |t| && IsConcat(choices[0].parts, t[..n]) && AreChoices(choices[1..], t[n + 1..]);
      ConcatIsNormal(choices[0].parts, t[..n]);
      ChoicesAreNormal(choices[1..], t[n + 1..]);
    }
  }

  lemma {:induction false} AlternationIsNormal(r: Rx, t: string)
    requires IsAlternation(r, t)
    ensures NormalAlternation(r)
    decreases r, 0
  {
    match r
    case Concat(parts) => ConcatIsNormal(parts, t);
    case Either(choices) => ChoicesAreNormal(choices, t);
  }

  // ----- Main results -----

  /** The print of a tree reads back as the tree, with nothing left, exactly where the tree is
      a normal form. */
  lemma {:induction false} PatternRoundTrip(r: Rx)
    ensures AltOf(PrintAlternation(r)) == Some((r, "")) <==> NormalAlternation(r)
  {
    ReadsTheDerivation(r, PrintAlternation(r));
    if NormalAlternation(r) { AlternationPrints(r); }
    if IsAlternation(r, PrintAlternation(r)) { AlternationIsNormal(r, PrintAlternation(r)); }
  }

  /** Whatever a pattern reads as is a normal form, so its print reads the same. */
  lemma {:induction false} ReadsAsPrinted(re: string, r: Rx)
    requires AltOf(re) == Some((r, ""))
    ensures NormalAlternation(r) && AltOf(PrintAlternation(r)) == AltOf(re)
  {
    ReadsTheDerivation(r, re);
    AlternationIsNormal(r, re);
    PatternRoundTrip(r);
  }

  // ----- Normal forms can be drawn from -----

  lemma {:induction false} NormalIsBounded(r: Rx)
    requires NormalPiece(r)
    ensures Bounded(r)
    decreases r, 2
  {
    match r
    case Concat(_) => AlternationIsBounded(r);
    case Either(_) => AlternationIsBounded(r);
    case Repeat(body, _, _) => NormalIsBounded(body);
    case _ =>
  }

  lemma {:induction false} AlternationIsBounded(r: Rx)
    requires NormalAlternation(r)
    ensures Bounded(r)
    decreases r, 1
  {
    match r
    case Concat(parts) => NormalAreBounded(parts);
    case Either(choices) => ChoicesAreBounded(choices);
  }

  lemma {:induction false} NormalAreBounded(parts: seq<Rx>)
    requires NormalConcat(parts)
    ensures forall i | 0 <= i < |parts| :: Bounded(parts[i])
    decreases parts, 0
  {
    if parts != [] {
      NormalIsBounded(parts[0]);
      NormalAreBounded(parts[1..]);
      assert forall i | 0 < i < |parts| :: parts[i] == parts[1..][i - 1];
    }
  }

  lemma {:induction false} ChoicesAreBounded(choices: seq<Rx>)
    requires NormalChoices(choices)
    ensures forall i | 0 <= i < |choices| :: Bounded(choices[i])
    decreases choices, 0
  {
    if choices != [] {
      NormalAreBounded(choices[0].parts);
      ChoicesAreBounded(choices[1..]);
      assert forall i | 0 < i < |choices| :: choices[i] == choices[1..][i - 1];
    }
  }
}
