/** The grammar written in the comments of internal/synth/pattern.go, made unambiguous by two
    rules the parser keeps: an atom takes the quantifier that follows it, and a character of a
    class takes the '-' that follows it, if a character follows that. The parser reads exactly
    its derivations. */
module PatternGrammar {
  import opened JsonValues
  import opened KeyPaths
  import opened PatternAst
  import opened PatternParse

  predicate Quantifies(s: string) { At(s, '{') || At(s, '*') || At(s, '+') || At(s, '?') }

  /** alternation ::= concat ( '|' concat )* */
  ghost predicate IsAlternation(r: Rx, t: string)
    decreases r, 0
  {
    match r
    case Concat(parts) => IsConcat(parts, t)
    case Either(choices) => |choices| >= 2 && AreChoices(choices, t)
    case _ => false
  }

  ghost predicate AreChoices(choices: seq<Rx>, t: string)
    decreases choices
  {
    choices != [] && choices[0].Concat? &&
    if |choices| == 1 then IsConcat(choices[0].parts, t)
    else
      exists n :: 0 <= n < |t| && IsConcat(choices[0].parts, t[..n]) && t[n] == '|' &&
                  AreChoices(choices[1..], t[n + 1..])
  }

  /** concat ::= piece*, where a piece without a quantifier is not followed by one. */
  ghost predicate IsConcat(parts: seq<Rx>, t: string)
    decreases parts
  {
    if parts == [] then t == "" else
      exists n :: 0 <= n <= |t| && IsPiece(parts[0], t[..n]) && (parts[0].Repeat? || !Quantifies(t[n..])) &&
                  IsConcat(parts[1..], t[n..])
  }

  /** A piece: an atom, or an atom with a quantifier. */
  ghost predicate IsPiece(r: Rx, t: string)
    decreases r, 2
  {
    if r.Repeat? then exists n :: 0 <= n <= |t| && IsAtom(r.body, t[..n]) && IsQuantifier(r.least, r.most, t[n..])
    else IsAtom(r, t)
  }

  /** atom ::= anchor | literal | escape | class | group */
  ghost predicate IsAtom(r: Rx, t: string)
    decreases r, 1
  {
    match r
    case Anchor => t == "^" || t == "$"
    case Char(c) => (t == [c] && IsLiteral(c)) || (t == ['\\', c] && Escapable(c))
    case Set(chars) =>
      (t == "\\d" && chars == DIGITS) || (t == "\\w" && chars == WORD) || (t == "\\s" && chars == SPACE) ||
      (|t| >= 2 && t[0] == '[' && t[|t| - 1] == ']' && IsClass(chars, t[1..|t| - 1]))
    case Repeat(_, _, _) => false
    case _ => |t| >= 2 && t[0] == '(' && t[|t| - 1] == ')' && IsAlternation(r, t[1..|t| - 1])
  }

  predicate IsLiteral(c: char) {
    c != '^' && c != '$' && c != '.' && c != '\\' && c != '[' && c != '(' && c != '|' && c != ')'
  }

  ghost predicate IsClass(chars: seq<char>, t: string) { chars != [] && !At(t, '^') && IsRanges(chars, t) }

  /** A range starts here: a '-' follows, and a character that closes no class. */
  predicate Spans(t: string) { |t| >= 3 && t[1] == '-' && t[2] != ']' }

  /** range*, where a single character starts no range. */
  ghost predicate IsRanges(chars: seq<char>, t: string)
    decreases |t|
  {
    if t == "" then chars == []
    else if t[0] == ']' then false
    else if Spans(t) then
      t[0] <= t[2] && Range(t[0], t[2]) <= chars && IsRanges(chars[|Range(t[0], t[2])|..], t[3..])
    else chars != [] && chars[0] == t[0] && IsRanges(chars[1..], t[1..])
  }

  /** quant ::= '*' | '+' | '?' | '{' digits '}' | '{' digits ',' digits '}' */
  ghost predicate IsQuantifier(least: nat, most: Option<nat>, t: string) {
    (t == "*" && least == 0 && most == None) || (t == "+" && least == 1 && most == None) ||
    (t == "?" && least == 0 && most == Some(1)) ||
    (exists ds :: IsCount(ds, least) && t == "{" + ds + "}" && most == Some(least)) ||
    exists ds, es :: IsCount(ds, least) && most.Some? && IsCount(es, most.value) && t == Braces(ds, es) &&
                     least <= most.value
  }

  function Braces(ds: string, es: string): string { "{" + ds + "," + es + "}" }

  ghost predicate IsCount(ds: string, n: nat) { ds != "" && AllDigits(ds) && Count(ds) == n }

  // ----- What the parser takes from the front of a text -----

  function Taken(s: string, rest: string): string
    requires |rest| <= |s|
  {
    s[..|s| - |rest|]
  }

  ghost predicate Takes(s: string, rest: string) { |rest| <= |s| && s == Taken(s, rest) + rest }

  lemma {:induction false} TakenAfter(s: string, n: nat, rest: string)
    requires n <= |s| && Takes(s[n..], rest)
    ensures Takes(s, rest) && Taken(s, rest) == s[..n] + Taken(s[n..], rest)
    ensures Taken(s, rest)[..n] == s[..n] && Taken(s, rest)[n..] == Taken(s[n..], rest)
  {
  }

  lemma {:induction false} TakesTwice(s: string, mid: string, rest: string)
    requires Takes(s, mid) && Takes(mid, rest)
    ensures Takes(s, rest) && Taken(s, rest) == Taken(s, mid) + Taken(mid, rest)
    ensures Taken(s, rest)[..|s| - |mid|] == Taken(s, mid) && Taken(s, rest)[|s| - |mid|..] == Taken(mid, rest)
  {
  }

  // ----- What the parser reads has a derivation -----

  lemma {:induction false} RangesDerive(s: string)
    requires RangesOf(s).Some?
    ensures var r := RangesOf(s).value; Takes(s, r.1) && (At(r.1, ']') ==> IsRanges(r.0, Taken(s, r.1)))
    decreases |s|
  {
    var rest := RangesOf(s).value.1;
    if s == "" || s[0] == ']' {
      assert Taken(s, rest) == "";
    } else {
      var n := if Spans(s) then 3 else 1;
      RangesDerive(s[n..]);
      TakenAfter(s, n, rest);
      if At(rest, ']') { RangesMore(s, n, rest); }
    }
  }

  lemma {:induction false} RangesMore(s: string, n: nat, rest: string)
    requires RangesOf(s).Some? && RangesOf(s).value.1 == rest && At(rest, ']') && Takes(s, rest)
    requires s != "" && s[0] != ']' && n == (if Spans(s) then 3 else 1)
    requires RangesOf(s[n..]).Some? && Takes(s[n..], rest) && IsRanges(RangesOf(s[n..]).value.0, Taken(s[n..], rest))
    requires Taken(s, rest)[n..] == Taken(s[n..], rest)
    ensures IsRanges(RangesOf(s).value.0, Taken(s, rest))
  {
    var t, chars := Taken(s, rest), RangesOf(s).value.0;
    assert |t| >= n && s == t + rest && t[0] == s[0];
    assert s[|t|] == ']';
    assert Spans(t) == Spans(s);
    if Spans(s) {
      var range := Range(s[0], s[2]);
      assert chars[|range|..] == RangesOf(s[3..]).value.0;
    } else {
      assert chars[1..] == RangesOf(s[1..]).value.0;
    }
  }

  lemma {:induction false} ClassDerives(s: string)
    requires At(s, '[') && ClassOf(s[1..]).Some?
    ensures var r := ClassOf(s[1..]).value; Takes(s, r.1) && IsAtom(r.0, Taken(s, r.1))
  {
    var pool := RangesOf(s[1..]).value;
    RangesDerive(s[1..]);
    BracketsTaken(s, pool.1);
  }

  /** Between an opening and a closing character. */
  lemma {:induction false} BracketsTaken(s: string, last: string)
    requires s != "" && last != "" && Takes(s[1..], last)
    ensures Takes(s, last[1..])
    ensures var t := Taken(s, last[1..]);
            t == [s[0]] + Taken(s[1..], last) + [last[0]] && t[1..|t| - 1] == Taken(s[1..], last)
  {
    var inner := Taken(s[1..], last);
    assert s == [s[0]] + inner + [last[0]] + last[1..];
    assert Taken(s, last[1..]) == [s[0]] + inner + [last[0]];
  }

  lemma {:induction false} EscapeDerives(s: string)
    requires At(s, '\\') && EscapeOf(s[1..]).Some?
    ensures var r := EscapeOf(s[1..]).value; Takes(s, r.1) && IsAtom(r.0, Taken(s, r.1))
  {
    var rest := EscapeOf(s[1..]).value.1;
    assert s == [s[0], s[1]] + rest && Taken(s, rest) == [s[0], s[1]];
  }

  lemma {:induction false} BracesDerive(s: string)
    requires At(s, '{') && BracesOf(s[1..]).Some?
    ensures var q := BracesOf(s[1..]).value; Takes(s, q.2) && IsQuantifier(q.0, Some(q.1), Taken(s, q.2))
  {
    var body := s[1..];
    var n := DigitSpan(body);
    var ds, tail := body[..n], body[n..];
    assert s == "{" + ds + tail;
    if At(tail, ',') {
      MostDerives(ds, tail);
      var q := MostOf(Count(ds), tail[1..]).value;
      HeadTaken(ds, tail, q.2);
      BracesAre(ds, Count(ds), q.1, Taken(tail, q.2));
    } else {
      assert tail == "}" + tail[1..] && Taken(tail, tail[1..]) == "}";
      HeadTaken(ds, tail, tail[1..]);
      assert IsCount(ds, Count(ds)) && "{" + ds + "}" == "{" + ds + "}";
    }
  }

  lemma {:induction false} HeadTaken(ds: string, tail: string, rest: string)
    requires Takes(tail, rest)
    ensures Takes("{" + ds + tail, rest) && Taken("{" + ds + tail, rest) == "{" + ds + Taken(tail, rest)
  {
  }

  lemma {:induction false} BracesAre(ds: string, n: nat, m: nat, t: string)
    requires IsCount(ds, n) && n <= m && IsMost(m, t)
    ensures IsQuantifier(n, Some(m), "{" + ds + t)
  {
    var es :| IsCount(es, m) && t == "," + es + "}";
    assert "{" + ds + t == Braces(ds, es);
  }

  ghost predicate IsMost(m: nat, t: string) { exists es :: IsCount(es, m) && t == "," + es + "}" }

  lemma {:induction false} MostDerives(ds: string, tail: string)
    requires AllDigits(ds) && At(tail, ',') && MostOf(Count(ds), tail[1..]).Some?
    ensures var q := MostOf(Count(ds), tail[1..]).value; Takes(tail, q.2) && IsMost(q.1, Taken(tail, q.2))
  {
    var m := DigitSpan(tail[1..]);
    var es, last := tail[1..][..m], tail[1..][m..];
    assert last == "}" + last[1..];
    assert tail == "," + es + "}" + last[1..];
    assert IsCount(es, Count(es)) && Taken(tail, last[1..]) == "," + es + "}";
  }

  lemma {:induction false} QuantDerives(atom: Rx, s: string)
    requires QuantOf(atom, s).Some?
    ensures var r := QuantOf(atom, s).value;
            && Takes(s, r.1)
            && if !Quantifies(s) then r == (atom, s)
               else r.0.Repeat? && r.0.body == atom && IsQuantifier(r.0.least, r.0.most, Taken(s, r.1))
  {
    var r := QuantOf(atom, s).value;
    if At(s, '{') {
      BracesDerive(s);
    } else if !Quantifies(s) {
      assert Taken(s, s) == "";
    } else {
      assert Taken(s, r.1) == [s[0]] && s == [s[0]] + r.1;
    }
  }

  lemma {:induction false} AtomDerives(s: string)
    requires !Stops(s) && AtomOf(s).Some?
    ensures var r := AtomOf(s).value; Takes(s, r.1) && IsAtom(r.0, Taken(s, r.1))
    decreases |s|, 0
  {
    var r := AtomOf(s).value;
    if s[0] == '\\' {
      EscapeDerives(s);
    } else if s[0] == '[' {
      ClassDerives(s);
    } else if s[0] == '(' {
      AltDerives(s[1..]);
      GroupDerives(s, AltOf(s[1..]).value.0, AltOf(s[1..]).value.1);
    } else {
      assert s == [s[0]] + r.1 && Taken(s, r.1) == [s[0]];
    }
  }

  lemma {:induction false} GroupDerives(s: string, r: Rx, rest: string)
    requires At(s, '(') && Takes(s[1..], rest) && At(rest, ')') && IsAlternation(r, Taken(s[1..], rest))
    ensures Takes(s, rest[1..]) && IsAtom(r, Taken(s, rest[1..]))
  {
    BracketsTaken(s, rest);
  }

  lemma {:induction false} PieceDerives(s: string)
    requires !Stops(s) && PieceOf(s).Some?
    ensures var r := PieceOf(s).value; Takes(s, r.1) && IsPiece(r.0, Taken(s, r.1)) && (r.0.Repeat? || !Quantifies(r.1))
    decreases |s|, 1
  {
    AtomDerives(s);
    var atom := AtomOf(s).value;
    var r := PieceOf(s).value;
    QuantDerives(atom.0, atom.1);
    TakesTwice(s, atom.1, r.1);
    if Quantifies(atom.1) { QuantifiedPiece(r.0, Taken(s, r.1), |s| - |atom.1|); }
  }

  lemma {:induction false} QuantifiedPiece(r: Rx, t: string, n: nat)
    requires r.Repeat? && n <= |t| && IsAtom(r.body, t[..n]) && IsQuantifier(r.least, r.most, t[n..])
    ensures IsPiece(r, t)
  {
  }

  lemma {:induction false} ConcatDerives(s: string)
    requires ConcatOf(s).Some?
    ensures var r := ConcatOf(s).value; Takes(s, r.1) && IsConcat(r.0, Taken(s, r.1))
    decreases |s|, 2
  {
    var r := ConcatOf(s).value;
    if Stops(s) {
      assert Taken(s, s) == "";
    } else {
      PieceDerives(s);
      var piece := PieceOf(s).value;
      ConcatDerives(piece.1);
      TakesTwice(s, piece.1, r.1);
      ConcatMore(piece.0, ConcatOf(piece.1).value.0, Taken(s, r.1), |s| - |piece.1|);
    }
  }

  lemma {:induction false} ConcatMore(r: Rx, rest: seq<Rx>, t: string, n: nat)
    requires n <= |t| && IsPiece(r, t[..n]) && (r.Repeat? || !Quantifies(t[n..])) && IsConcat(rest, t[n..])
    ensures IsConcat([r] + rest, t)
  {
    assert ([r] + rest)[0] == r && ([r] + rest)[1..] == rest;
  }

  /** The branches read from s on. */
  lemma {:induction false} ChoicesDerive(s: string)
    requires ConcatOf(s).Some? && MoreOf(ConcatOf(s).value.1).Some?
    ensures var first := ConcatOf(s).value;
            var more := MoreOf(first.1).value;
            Takes(s, more.1) && AreChoices([Concat(first.0)] + more.0, Taken(s, more.1))
    decreases |s|, 3
  {
    ConcatDerives(s);
    var first := ConcatOf(s).value;
    var more := MoreOf(first.1).value;
    if At(first.1, '|') {
      ChoicesDerive(first.1[1..]);
      BranchesDerive(s, first.0, first.1, more.0, more.1);
    } else {
      assert Takes(first.1, more.1) && [Concat(first.0)] + more.0 == [Concat(first.0)];
    }
  }

  lemma {:induction false} BranchesDerive(s: string, parts: seq<Rx>, mid: string, choices: seq<Rx>, rest: string)
    requires Takes(s, mid) && IsConcat(parts, Taken(s, mid)) && At(mid, '|')
    requires Takes(mid[1..], rest) && AreChoices(choices, Taken(mid[1..], rest))
    ensures Takes(s, rest) && AreChoices([Concat(parts)] + choices, Taken(s, rest))
  {
    TakenAfter(mid, 1, rest);
    TakesTwice(s, mid, rest);
    ChoicesMore(Concat(parts), choices, Taken(s, rest), |s| - |mid|);
  }

  lemma {:induction false} ChoicesMore(c: Rx, choices: seq<Rx>, t: string, n: nat)
    requires c.Concat? && n < |t| && IsConcat(c.parts, t[..n]) && t[n] == '|'
    requires AreChoices(choices, t[n..][1..])
    ensures AreChoices([c] + choices, t)
  {
    assert ([c] + choices)[0] == c && ([c] + choices)[1..] == choices && t[n..][1..] == t[n + 1..];
  }

  /** The parser takes a derivation of an alternation from the front of a text. */
  lemma {:induction false} AltDerives(s: string)
    requires AltOf(s).Some?
    ensures var r := AltOf(s).value; Takes(s, r.1) && IsAlternation(r.0, Taken(s, r.1))
    decreases |s|, 4
  {
    ChoicesDerive(s);
  }

  // ----- What has a derivation is read that way -----

  lemma {:induction false} RangesRead(chars: seq<char>, t: string, rest: string)
    requires IsRanges(chars, t)
    ensures RangesOf(t + "]" + rest) == Some((chars, "]" + rest))
    decreases |t|
  {
    var s := t + "]" + rest;
    if t == "" {
      assert s == "]" + rest;
    } else {
      var n := if Spans(t) then 3 else 1;
      assert s[n..] == t[n..] + "]" + rest && s[0] == t[0] && Spans(s) == Spans(t);
      if Spans(t) {
        var range := Range(t[0], t[2]);
        RangesRead(chars[|range|..], t[3..], rest);
        assert chars == range + chars[|range|..];
      } else {
        RangesRead(chars[1..], t[1..], rest);
        assert chars == [t[0]] + chars[1..];
      }
    }
  }

  lemma {:induction false} ClassRead(chars: seq<char>, t: string, rest: string)
    requires IsClass(chars, t)
    ensures AtomOf("[" + t + "]" + rest) == Some((Set(chars), rest))
  {
    RangesRead(chars, t, rest);
    var s := "[" + t + "]" + rest;
    assert s[1..] == t + "]" + rest && ("]" + rest)[1..] == rest;
  }

  lemma {:induction false} SpanOfDigits(ds: string, rest: string)
    requires AllDigits(ds) && (rest != "" ==> !IsDigit(rest[0]))
    ensures DigitSpan(ds + rest) == |ds|
  {
    if ds == "" {
      assert ds + rest == rest;
    } else {
      SpanOfDigits(ds[1..], rest);
      assert (ds + rest)[1..] == ds[1..] + rest;
    }
  }

  /** Digits are read as far as they go. */
  lemma {:induction false} FirstDigits(ds: string, n: nat, tail: string)
    requires IsCount(ds, n) && tail != "" && !IsDigit(tail[0])
    ensures BracesOf(ds + tail) == TailOf(n, tail)
  {
    SpanOfDigits(ds, tail);
    assert (ds + tail)[..|ds|] == ds && (ds + tail)[|ds|..] == tail;
  }

  lemma {:induction false} MostRead(n: nat, es: string, m: nat, rest: string)
    requires IsCount(es, m) && n <= m
    ensures MostOf(n, es + "}" + rest) == Some((n, m, rest))
  {
    var last := "}" + rest;
    assert es + "}" + rest == es + last;
    SpanOfDigits(es, last);
    assert (es + last)[..|es|] == es && (es + last)[|es|..] == last && last[1..] == rest;
  }

  lemma {:induction false} BracesRead(ds: string, n: nat, es: string, m: nat, rest: string)
    requires IsCount(ds, n) && IsCount(es, m) && n <= m
    ensures BracesOf((Braces(ds, es) + rest)[1..]) == Some((n, m, rest))
  {
    var tail := "," + (es + "}" + rest);
    assert (Braces(ds, es) + rest)[1..] == ds + tail;
    FirstDigits(ds, n, tail);
    MostRead(n, es, m, rest);
    assert tail[1..] == es + "}" + rest;
  }

  lemma {:induction false} BraceRead(ds: string, n: nat, rest: string)
    requires IsCount(ds, n)
    ensures BracesOf(("{" + ds + "}" + rest)[1..]) == Some((n, n, rest))
  {
    var tail := "}" + rest;
    assert ("{" + ds + "}" + rest)[1..] == ds + tail;
    FirstDigits(ds, n, tail);
    assert tail[1..] == rest;
  }

  lemma {:induction false} SignRead(atom: Rx, least: nat, most: Option<nat>, q: string, rest: string)
    requires IsQuantifier(least, most, q) && (q == "*" || q == "+" || q == "?")
    ensures QuantOf(atom, q + rest) == Some((Repeat(atom, least, most), rest))
  {
    assert (q + rest)[1..] == rest && (q + rest)[0] == q[0];
  }

  lemma {:induction false} QuantRead(atom: Rx, least: nat, most: Option<nat>, q: string, rest: string)
    requires IsQuantifier(least, most, q)
    ensures QuantOf(atom, q + rest) == Some((Repeat(atom, least, most), rest))
  {
    if q == "*" || q == "+" || q == "?" {
      SignRead(atom, least, most, q, rest);
    } else if ds :| IsCount(ds, least) && q == "{" + ds + "}" && most == Some(least) {
      BraceRead(ds, least, rest);
      BracedQuant(atom, q, rest, least, least);
    } else {
      var ds, es :| IsCount(ds, least) && most.Some? && IsCount(es, most.value) && q == Braces(ds, es) &&
                    least <= most.value;
      BracesRead(ds, least, es, most.value, rest);
      BracedQuant(atom, q, rest, least, most.value);
    }
  }

  lemma {:induction false} BracedQuant(atom: Rx, q: string, rest: string, least: nat, most: nat)
    requires q != "" && q[0] == '{' && BracesOf((q + rest)[1..]) == Some((least, most, rest))
    ensures QuantOf(atom, q + rest) == Some((Repeat(atom, least, Some(most)), rest))
  {
  }

  lemma {:induction false} AtomRead(r: Rx, t: string, rest: string)
    requires IsAtom(r, t)
    ensures !Stops(t) && AtomOf(t + rest) == Some((r, rest))
    decreases r, 1, 1
  {
    var s := t + rest;
    match r
    case Anchor => assert s[1..] == rest;
    case Char(c) => if |t| == 1 { assert s[1..] == rest; } else { assert s[1..] == [c] + rest && s[1..][1..] == rest; }
    case Set(chars) =>
      if t[0] == '[' {
        assert t == "[" + t[1..|t| - 1] + "]";
        ClassRead(chars, t[1..|t| - 1], rest);
      } else {
        assert s[1..] == [t[1]] + rest && s[1..][1..] == rest;
      }
    case Repeat(_, _, _) =>
    case Concat(_) => GroupRead(r, t, rest);
    case Either(_) => GroupRead(r, t, rest);
  }

  lemma {:induction false} GroupRead(r: Rx, t: string, rest: string)
    requires |t| >= 2 && t[0] == '(' && t[|t| - 1] == ')' && IsAlternation(r, t[1..|t| - 1])
    ensures AtomOf(t + rest) == Some((r, rest))
    decreases r, 1, 0
  {
    var s := t + rest;
    AltRead(r, t[1..|t| - 1], ")" + rest);
    assert s[1..] == t[1..|t| - 1] + (")" + rest) && (")" + rest)[1..] == rest;
  }

  lemma {:induction false} Regroup(t: string, n: nat, rest: string)
    requires n <= |t|
    ensures t + rest == t[..n] + (t[n..] + rest)
  {
  }

  lemma {:induction false} PieceRead(r: Rx, t: string, rest: string)
    requires IsPiece(r, t) && (r.Repeat? || !Quantifies(rest))
    ensures !Stops(t) && PieceOf(t + rest) == Some((r, rest))
    decreases r, 2
  {
    if r.Repeat? {
      var n :| 0 <= n <= |t| && IsAtom(r.body, t[..n]) && IsQuantifier(r.least, r.most, t[n..]);
      QuantifiedRead(r, t[..n], t[n..], rest);
      Regroup(t, n, rest);
      StopsFirst(t, n);
    } else {
      AtomRead(r, t, rest);
      PieceParts(r, r, t + rest, rest, rest);
    }
  }

  lemma {:induction false} StopsFirst(t: string, n: nat)
    requires n <= |t| && !Stops(t[..n])
    ensures !Stops(t)
  {
  }

  lemma {:induction false} QuantifiedRead(r: Rx, a: string, q: string, rest: string)
    requires r.Repeat? && IsAtom(r.body, a) && IsQuantifier(r.least, r.most, q)
    ensures !Stops(a) && PieceOf(a + (q + rest)) == Some((r, rest))
    decreases r, 1
  {
    AtomRead(r.body, a, q + rest);
    QuantRead(r.body, r.least, r.most, q, rest);
    PieceParts(r.body, r, a + (q + rest), q + rest, rest);
  }

  lemma {:induction false} PieceParts(atom: Rx, r: Rx, s: string, mid: string, rest: string)
    requires s != "" && AtomOf(s) == Some((atom, mid)) && QuantOf(atom, mid) == Some((r, rest))
    ensures PieceOf(s) == Some((r, rest))
  {
  }

  lemma {:induction false} ConcatRead(parts: seq<Rx>, t: string, rest: string)
    requires IsConcat(parts, t) && Stops(rest)
    ensures ConcatOf(t + rest) == Some((parts, rest))
    decreases parts
  {
    if parts == [] {
      assert t + rest == rest;
    } else {
      var n :| 0 <= n <= |t| && IsPiece(parts[0], t[..n]) && (parts[0].Repeat? || !Quantifies(t[n..])) &&
               IsConcat(parts[1..], t[n..]);
      var u := t[n..];
      ConcatRead(parts[1..], u, rest);
      PartRead(parts[0], parts[1..], t[..n], u, rest);
      Regroup(t, n, rest);
      assert parts == [parts[0]] + parts[1..];
    }
  }

  lemma {:induction false} PartRead(r: Rx, parts: seq<Rx>, w: string, u: string, rest: string)
    requires IsPiece(r, w) && (r.Repeat? || !Quantifies(u)) && Stops(rest) && ConcatOf(u + rest) == Some((parts, rest))
    ensures ConcatOf(w + (u + rest)) == Some(([r] + parts, rest))
    decreases r, 3
  {
    PieceRead(r, w, u + rest);
    StopsFirst(w + (u + rest), |w|);
    assert (w + (u + rest))[..|w|] == w;
    ConcatCons(r, parts, w + (u + rest), u + rest, rest);
  }

  lemma {:induction false} ConcatCons(r: Rx, parts: seq<Rx>, s: string, tail: string, rest: string)
    requires !Stops(s) && PieceOf(s) == Some((r, tail)) && ConcatOf(tail) == Some((parts, rest))
    ensures ConcatOf(s) == Some(([r] + parts, rest))
  {
  }

  /** The branches of a text are read as its first one and the further ones. */
  lemma {:induction false} ChoicesRead(choices: seq<Rx>, t: string, rest: string)
    requires AreChoices(choices, t) && Stops(rest) && !At(rest, '|')
    ensures ConcatOf(t + rest).Some? && choices[0] == Concat(ConcatOf(t + rest).value.0)
    ensures MoreOf(ConcatOf(t + rest).value.1) == Some((choices[1..], rest))
    decreases choices
  {
    if |choices| == 1 {
      ConcatRead(choices[0].parts, t, rest);
      assert choices[1..] == [];
    } else {
      var n :| 0 <= n < |t| && IsConcat(choices[0].parts, t[..n]) && t[n] == '|' &&
               AreChoices(choices[1..], t[n + 1..]);
      var next := t[n + 1..] + rest;
      ChoicesRead(choices[1..], t[n + 1..], rest);
      ConcatRead(choices[0].parts, t[..n], "|" + next);
      BarReads(choices[1..], next, rest);
      RegroupBar(t, n, rest);
    }
  }

  lemma {:induction false} RegroupBar(t: string, n: nat, rest: string)
    requires n < |t| && t[n] == '|'
    ensures t + rest == t[..n] + ("|" + (t[n + 1..] + rest))
  {
  }

  /** After a bar, the branches are read. */
  lemma {:induction false} BarReads(choices: seq<Rx>, next: string, rest: string)
    requires choices != [] && ConcatOf(next).Some? && choices[0] == Concat(ConcatOf(next).value.0)
    requires MoreOf(ConcatOf(next).value.1) == Some((choices[1..], rest))
    ensures MoreOf("|" + next) == Some((choices, rest))
  {
    assert ("|" + next)[1..] == next;
    assert choices == [choices[0]] + choices[1..];
  }

  lemma {:induction false} AltRead(r: Rx, t: string, rest: string)
    requires IsAlternation(r, t) && Stops(rest) && !At(rest, '|')
    ensures AltOf(t + rest) == Some((r, rest))
    decreases r, 0
  {
    match r
    case Concat(parts) => ConcatRead(parts, t, rest);
    case Either(choices) =>
      ChoicesRead(choices, t, rest);
      assert choices == [choices[0]] + choices[1..];
  }

  /** The parser reads a whole text as r if and only if r is its derivation, so a text has at
      most one. */
  lemma {:induction false} ReadsTheDerivation(r: Rx, t: string)
    ensures AltOf(t) == Some((r, "")) <==> IsAlternation(r, t)
  {
    if AltOf(t) == Some((r, "")) {
      AltDerives(t);
      assert Taken(t, "") == t;
    }
    if IsAlternation(r, t) {
      AltRead(r, t, "");
      assert t + "" == t;
    }
  }

  ghost predicate HasDerivation(t: string) { exists r :: IsAlternation(r, t) }

  /** out is in the language of the text's derivation. */
  ghost predicate InLanguage(t: string, out: string) { forall r | IsAlternation(r, t) :: Matches(r, out) }

  /** A text has a derivation if and only if the parser reads all of it, and then one only. */
  lemma {:induction false} OneDerivation(t: string)
    ensures HasDerivation(t) <==> AltOf(t).Some? && AltOf(t).value.1 == ""
    ensures forall r | IsAlternation(r, t) :: AltOf(t).Some? && r == AltOf(t).value.0
  {
    forall r | IsAlternation(r, t) ensures AltOf(t) == Some((r, "")) { ReadsTheDerivation(r, t); }
    if AltOf(t).Some? && AltOf(t).value.1 == "" {
      var r := AltOf(t).value.0;
      assert AltOf(t) == Some((r, ""));
      ReadsTheDerivation(r, t);
    }
  }
}
