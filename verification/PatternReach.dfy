/** What a pattern's tree stands for and how much of it is written (internal/synth/pattern.go): the
    pools of its classes, and every word whose unbounded repetitions stay within the cap. */
module PatternReach {
  import opened JsonValues
  import opened PatternAst
  import opened PatternParse

  // ----- Pools -----

  /** A range of two bytes holds exactly the characters between them, ascending. */
  lemma {:induction false} RangeHolds(lo: char, hi: char)
    requires lo <= hi && (hi as int) < 256
    ensures |Range(lo, hi)| == hi as int - lo as int + 1
    ensures forall i | 0 <= i < |Range(lo, hi)| :: Range(lo, hi)[i] as int == lo as int + i
    ensures forall c :: c in Range(lo, hi) <==> lo <= c <= hi
  {
    var r := Range(lo, hi);
    forall i | 0 <= i < |r| ensures r[i] as int == lo as int + i { assert r[i] == CharOf(lo as int + i); }
    forall c | lo <= c <= hi ensures c in r { assert r[c as int - lo as int] == c; }
  }

  /** The escapes: a digit; a letter, a digit or '_'; a blank, a tab, or an end of line or page. */
  lemma {:induction false} EscapedPools(c: char)
    ensures c in DIGITS <==> '0' <= c <= '9'
    ensures c in WORD <==> 'a' <= c <= 'z' || 'A' <= c <= 'Z' || '0' <= c <= '9' || c == '_'
    ensures c in SPACE <==> c == ' ' || c == '\t' || c == '\n' || c == '\r' || c as int == 12
  {
    RangeHolds('0', '9');
    RangeHolds('a', 'z');
    RangeHolds('A', 'Z');
    var letters := Range('a', 'z') + Range('A', 'Z');
    assert c in letters <==> c in Range('a', 'z') || c in Range('A', 'Z');
    assert c in letters + DIGITS <==> c in letters || c in DIGITS;
    assert WORD == letters + DIGITS + "_" && c in WORD <==> c in letters + DIGITS || c in "_";
    assert c in "_" <==> c == '_';
    BlankPool(c);
  }

  lemma {:induction false} BlankPool(c: char)
    ensures c in SPACE <==> c == ' ' || c == '\t' || c == '\n' || c == '\r' || c as int == 12
  {
    assert c in SPACE <==> c in " \t\n\r" || c in [12 as char];
  }

  /** The characters a backslash takes literally are those that mean something on their own. */
  lemma {:induction false} EscapableIs(c: char)
    ensures Escapable(c) <==> c in ".^$[]()|*+?{}\\-"
  {
  }

  // ----- What is written -----

  /** The pattern matches s with each repetition that has no maximum repeated at most max times. */
  ghost predicate MatchesWithin(r: Rx, s: string, max: nat)
    decreases r
  {
    match r
    case Anchor => s == ""
    case Char(c) => s == [c]
    case Set(chars) => |s| == 1 && s[0] in chars
    case Concat(parts) =>
      exists words: seq<string> ::
        |words| == |parts| && Join(words) == s && forall i | 0 <= i < |parts| :: MatchesWithin(parts[i], words[i], max)
    case Either(choices) => exists i :: 0 <= i < |choices| && MatchesWithin(choices[i], s, max)
    case Repeat(body, least, most) =>
      exists words: seq<string> :: least <= |words| <= most.GetOr(max) && Join(words) == s &&
        forall i | 0 <= i < |words| :: MatchesWithin(body, words[i], max)
  }

  /** What is written for a pattern is what it matches within the cap, all of it. */
  lemma {:induction false} WrittenExactly(r: Rx, s: string)
    ensures Writes(Compile(r), s) <==> MatchesWithin(r, s, MAX_REPEAT)
    decreases r
  {
    match r
    case Concat(parts) => ConcatExactly(parts, s);
    case Either(choices) => EitherExactly(choices, s);
    case Repeat(body, least, most) => RepeatExactly(body, least, most, s);
    case _ =>
  }

  ghost predicate EachWithin(parts: seq<Rx>, words: seq<string>)
    requires |words| == |parts|
  {
    forall i | 0 <= i < |parts| :: MatchesWithin(parts[i], words[i], MAX_REPEAT)
  }

  ghost predicate AllWithin(body: Rx, words: seq<string>) {
    forall i | 0 <= i < |words| :: MatchesWithin(body, words[i], MAX_REPEAT)
  }

  lemma {:induction false} ConcatExactly(parts: seq<Rx>, s: string)
    ensures Writes(Compile(Concat(parts)), s) <==> MatchesWithin(Concat(parts), s, MAX_REPEAT)
    decreases Concat(parts), 0
  {
    var items := CompileAll(parts);
    forall words: seq<string> | |words| == |parts| ensures InOrder(items, words) <==> EachWithin(parts, words) {
      forall i | 0 <= i < |parts|
        ensures Writes(items[i], words[i]) <==> MatchesWithin(parts[i], words[i], MAX_REPEAT)
      {
        CompileAllAt(parts, i);
        WrittenExactly(parts[i], words[i]);
      }
    }
    PartsWithin(parts, items, s);
  }

  lemma {:induction false} PartsWithin(parts: seq<Rx>, items: seq<Re>, s: string)
    requires items == CompileAll(parts) && |items| == |parts|
    requires forall words: seq<string> | |words| == |parts| :: InOrder(items, words) <==> EachWithin(parts, words)
    ensures Writes(Compile(Concat(parts)), s) <==> MatchesWithin(Concat(parts), s, MAX_REPEAT)
  {
    if words :| |words| == |items| && InOrder(items, words) && Join(words) == s {
      assert EachWithin(parts, words);
    }
    if words: seq<string> :| |words| == |parts| && Join(words) == s && EachWithin(parts, words) {
      assert InOrder(items, words);
    }
  }

  lemma {:induction false} EitherExactly(choices: seq<Rx>, s: string)
    ensures Writes(Compile(Either(choices)), s) <==> MatchesWithin(Either(choices), s, MAX_REPEAT)
    decreases Either(choices), 0
  {
    var branches := CompileAll(choices);
    forall i | 0 <= i < |choices| ensures Writes(branches[i], s) <==> MatchesWithin(choices[i], s, MAX_REPEAT) {
      CompileAllAt(choices, i);
      WrittenExactly(choices[i], s);
    }
  }

  lemma {:induction false} RepeatExactly(body: Rx, least: nat, most: Option<nat>, s: string)
    ensures Writes(Compile(Repeat(body, least, most)), s) <==> MatchesWithin(Repeat(body, least, most), s, MAX_REPEAT)
    decreases Repeat(body, least, most), 0
  {
    forall words: seq<string> ensures Repeats(Compile(body), words) <==> AllWithin(body, words) {
      forall i | 0 <= i < |words|
        ensures Writes(Compile(body), words[i]) <==> MatchesWithin(body, words[i], MAX_REPEAT)
      {
        WrittenExactly(body, words[i]);
      }
    }
    RepeatsWithin(body, least, most, s);
  }

  lemma {:induction false} RepeatsWithin(body: Rx, least: nat, most: Option<nat>, s: string)
    requires forall words: seq<string> :: Repeats(Compile(body), words) <==> AllWithin(body, words)
    ensures Writes(Compile(Repeat(body, least, most)), s) <==> MatchesWithin(Repeat(body, least, most), s, MAX_REPEAT)
  {
    var max := most.GetOr(MAX_REPEAT);
    if words :| least <= |words| <= max && Repeats(Compile(body), words) && Join(words) == s {
      assert AllWithin(body, words);
    }
    if words: seq<string> :| least <= |words| <= max && Join(words) == s && AllWithin(body, words) {
      assert Repeats(Compile(body), words);
    }
  }
}
