/** The regex subset of internal/synth/pattern.go: its syntax trees, what they match, and what
    is generated for them. */
module PatternAst {
  import opened JsonValues

  /** maxRepeat: how often an unbounded quantifier repeats its node at most. */
  const MAX_REPEAT: nat := 6

  /** The generator's tree (reNode). */
  datatype Re =
    | Empty
    | Lit(c: char)
    | Class(chars: seq<char>)
    | Seq(items: seq<Re>)
    | Alt(branches: seq<Re>)
    | Quant(node: Re, min: nat, max: nat)

  /** The pattern as its grammar reads it; a repetition without a maximum is unbounded. */
  datatype Rx =
    | Anchor
    | Char(c: char)
    | Set(chars: seq<char>)
    | Concat(parts: seq<Rx>)
    | Either(choices: seq<Rx>)
    | Repeat(body: Rx, least: nat, most: Option<nat>)

  function Compile(r: Rx): Re
    decreases r
  {
    match r
    case Anchor => Empty
    case Char(c) => Lit(c)
    case Set(chars) => Class(chars)
    case Concat(parts) => Seq(CompileAll(parts))
    case Either(choices) => Alt(CompileAll(choices))
    case Repeat(body, least, most) => Quant(Compile(body), least, most.GetOr(MAX_REPEAT))
  }

  function CompileAll(rs: seq<Rx>): (out: seq<Re>)
    ensures |out| == |rs|
    decreases rs
  {
    if rs == [] then [] else CompileAll(rs[..|rs| - 1]) + [Compile(rs[|rs| - 1])]
  }

  lemma {:induction false} CompileAllAt(rs: seq<Rx>, i: nat)
    requires i < |rs|
    ensures CompileAll(rs)[i] == Compile(rs[i])
  {
    if i < |rs| - 1 { CompileAllAt(rs[..|rs| - 1], i); }
  }

  function Join(words: seq<string>): string {
    if words == [] then "" else Join(words[..|words| - 1]) + words[|words| - 1]
  }

  /** The pattern's language: anchors match nothing, repetitions without a maximum go on. */
  ghost predicate Matches(r: Rx, s: string)
    decreases r
  {
    match r
    case Anchor => s == ""
    case Char(c) => s == [c]
    case Set(chars) => |s| == 1 && s[0] in chars
    case Concat(parts) =>
      exists words: seq<string> ::
        |words| == |parts| && Join(words) == s && forall i | 0 <= i < |parts| :: Matches(parts[i], words[i])
    case Either(choices) => exists i :: 0 <= i < |choices| && Matches(choices[i], s)
    case Repeat(body, least, most) =>
      exists words: seq<string> :: least <= |words| && (most.Some? ==> |words| <= most.value) && Join(words) == s &&
        forall i | 0 <= i < |words| :: Matches(body, words[i])
  }

  /** What genNode can write for a tree, for some draws. */
  ghost predicate Writes(n: Re, s: string)
    decreases n, 0
  {
    match n
    case Empty => s == ""
    case Lit(c) => s == [c]
    case Class(chars) => |s| == 1 && s[0] in chars
    case Seq(items) => exists words :: |words| == |items| && InOrder(items, words) && Join(words) == s
    case Alt(branches) => exists i :: 0 <= i < |branches| && Writes(branches[i], s)
    case Quant(node, min, max) => exists words :: min <= |words| <= max && Repeats(node, words) && Join(words) == s
  }

  /** One word for each of the first items. */
  ghost predicate InOrder(items: seq<Re>, words: seq<string>)
    decreases items, 0
  {
    |words| <= |items| && forall i | 0 <= i < |words| :: Writes(items[i], words[i])
  }

  ghost predicate Repeats(node: Re, words: seq<string>)
    decreases node, 1
  {
    forall i | 0 <= i < |words| :: Writes(node, words[i])
  }

  /** Every class and alternation offers something, and every repetition a count. */
  predicate Drawable(n: Re)
    decreases n
  {
    match n
    case Class(chars) => chars != []
    case Seq(items) => forall i | 0 <= i < |items| :: Drawable(items[i])
    case Alt(branches) => branches != [] && forall i | 0 <= i < |branches| :: Drawable(branches[i])
    case Quant(node, min, max) => min <= max && Drawable(node)
    case _ => true
  }

  /** A repetition without a maximum starts at most at one. */
  predicate Bounded(r: Rx)
    decreases r
  {
    match r
    case Set(chars) => chars != []
    case Concat(parts) => forall i | 0 <= i < |parts| :: Bounded(parts[i])
    case Either(choices) => choices != [] && forall i | 0 <= i < |choices| :: Bounded(choices[i])
    case Repeat(body, least, most) => (if most.Some? then least <= most.value else least <= 1) && Bounded(body)
    case _ => true
  }

  lemma {:induction false} BoundedIsDrawable(r: Rx)
    requires Bounded(r)
    ensures Drawable(Compile(r))
    decreases r
  {
    match r
    case Concat(parts) =>
      forall i | 0 <= i < |parts| ensures Drawable(CompileAll(parts)[i]) {
        CompileAllAt(parts, i);
        BoundedIsDrawable(parts[i]);
      }
    case Either(choices) =>
      forall i | 0 <= i < |choices| ensures Drawable(CompileAll(choices)[i]) {
        CompileAllAt(choices, i);
        BoundedIsDrawable(choices[i]);
      }
    case Repeat(body, _, _) => BoundedIsDrawable(body);
    case _ =>
  }

  /** Whatever the generator writes for a compiled pattern, the pattern matches. */
  lemma {:induction false} WrittenMatches(r: Rx, s: string)
    requires Writes(Compile(r), s)
    ensures Matches(r, s)
    decreases r
  {
    match r
    case Concat(parts) =>
      var items := CompileAll(parts);
      var words :| |words| == |items| && InOrder(items, words) && Join(words) == s;
      forall i | 0 <= i < |parts| ensures Matches(parts[i], words[i]) {
        CompileAllAt(parts, i);
        WrittenMatches(parts[i], words[i]);
      }
    case Either(choices) =>
      var branches := CompileAll(choices);
      var i :| 0 <= i < |branches| && Writes(branches[i], s);
      CompileAllAt(choices, i);
      WrittenMatches(choices[i], s);
    case Repeat(body, least, most) =>
      var words :| least <= |words| <= most.GetOr(MAX_REPEAT) && Repeats(Compile(body), words) && Join(words) == s;
      forall i | 0 <= i < |words| ensures Matches(body, words[i]) { WrittenMatches(body, words[i]); }
    case _ =>
  }
}
