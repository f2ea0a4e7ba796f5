/** Which literal answers a schema that declares one (internal/generator/generator.go): example
    before examples, these before const, and const before enum. */
module LiteralAnswers {
  import opened JsonValues
  import opened PropertyOrder
  import opened Literals
  import opened Generation

  /** x is generated for s, in some order of its keys. */
  ghost predicate CanBe(defs: Node, s: Node, depth: nat, x: Json)
    requires depth <= MAX_DEPTH
  {
    exists v :: Yields(defs, s, depth, Value(v)) && Plain(v) == x
  }

  ghost predicate AllDecoded(l: seq<Json>) { forall i | 0 <= i < |l| :: Decoded(l[i]) }

  /** v is x in the order of an order tree. */
  ghost predicate InOrderOf(x: Json, v: Json, tree: Json) { Plain(v) == x && Follows(x, v, tree) }

  /** The order tree recorded for a keyword's literal, or for each of its literals. */
  ghost function Recorded(s: Node, keyword: string): Json {
    if NodeAt(s, LITERAL_KEYWORD).Some? && keyword in s[LITERAL_KEYWORD].fields
    then s[LITERAL_KEYWORD].fields[keyword] else Null
  }

  /** The i-th of a list of trees; a literal without a tree of its own has none. */
  ghost function Item(trees: Json, i: nat): Json {
    if trees.Arr? && i < |trees.items| then trees.items[i] else Null
  }

  /** Outcomes are the literals, each in the order recorded for it. */
  lemma {:induction false} LiteralsAnswer(defs: Node, s: Node, depth: nat, literals: seq<Json>, trees: seq<Json>,
                                          x: Json)
    requires depth <= MAX_DEPTH && StrAt(s, "$ref").None? && literals != [] && AllDecoded(literals)
    requires |LiteralsOf(s)| == |literals| == |trees|
    requires forall i | 0 <= i < |literals| :: LiteralsOf(s)[i] == OrderLiteral(literals[i], trees[i])
    ensures CanBe(defs, s, depth, x) <==> x in literals
    ensures forall o | Yields(defs, s, depth, o) ::
              o.Value? && exists i :: 0 <= i < |literals| && InOrderOf(literals[i], o.v, trees[i])
  {
    var answers := LiteralsOf(s);
    forall i | 0 <= i < |literals| ensures InOrderOf(literals[i], answers[i], trees[i]) {
      OrderedLiteralIsLiteral(literals[i], trees[i]);
      OrderedLiteralFollows(literals[i], trees[i]);
    }
    AnswersAre(literals, answers, trees);
    if x in literals {
      var i :| 0 <= i < |literals| && literals[i] == x;
      assert answers[i] in answers && Yields(defs, s, depth, Value(answers[i]));
    }
  }

  lemma {:induction false} AnswersAre(literals: seq<Json>, answers: seq<Json>, trees: seq<Json>)
    requires |answers| == |literals| == |trees|
    requires forall i | 0 <= i < |literals| :: InOrderOf(literals[i], answers[i], trees[i])
    ensures forall v | v in answers ::
              Plain(v) in literals && exists i :: 0 <= i < |literals| && InOrderOf(literals[i], v, trees[i])
  {
  }

  /** With an example, that is what is generated, whatever else the schema declares. */
  lemma {:induction false} ExampleFirst(defs: Node, s: Node, depth: nat, x: Json, o: Outcome)
    requires depth <= MAX_DEPTH && StrAt(s, "$ref").None? && "example" in s && Decoded(s["example"])
    ensures CanBe(defs, s, depth, x) <==> x == s["example"]
    ensures Yields(defs, s, depth, o) ==> o.Value? && InOrderOf(s["example"], o.v, Recorded(s, "example"))
  {
    LiteralsAnswer(defs, s, depth, [s["example"]], [Recorded(s, "example")], x);
  }

  /** Without one, the first of non-empty examples. */
  lemma {:induction false} ExamplesNext(defs: Node, s: Node, depth: nat, x: Json, o: Outcome)
    requires depth <= MAX_DEPTH && StrAt(s, "$ref").None? && "example" !in s
    requires ListAt(s, "examples").Some? && s["examples"].items != [] && Decoded(s["examples"].items[0])
    ensures CanBe(defs, s, depth, x) <==> x == s["examples"].items[0]
    ensures Yields(defs, s, depth, o) ==>
              o.Value? && InOrderOf(s["examples"].items[0], o.v, Item(Recorded(s, "examples"), 0))
  {
    LiteralsAnswer(defs, s, depth, [s["examples"].items[0]], [Item(Recorded(s, "examples"), 0)], x);
  }

  /** Without either, a const. */
  lemma {:induction false} ConstNext(defs: Node, s: Node, depth: nat, x: Json, o: Outcome)
    requires depth <= MAX_DEPTH && StrAt(s, "$ref").None? && "example" !in s
    requires (ListAt(s, "examples").Some? ==> s["examples"].items == []) && "const" in s && Decoded(s["const"])
    ensures CanBe(defs, s, depth, x) <==> x == s["const"]
    ensures Yields(defs, s, depth, o) ==> o.Value? && InOrderOf(s["const"], o.v, Recorded(s, "const"))
  {
    LiteralsAnswer(defs, s, depth, [s["const"]], [Recorded(s, "const")], x);
  }

  /** Without any of them, the members of a non-empty enum, each of them. */
  lemma {:induction false} EnumLast(defs: Node, s: Node, depth: nat, x: Json, o: Outcome)
    requires depth <= MAX_DEPTH && StrAt(s, "$ref").None? && "example" !in s && "const" !in s
    requires ListAt(s, "examples").Some? ==> s["examples"].items == []
    requires ListAt(s, "enum").Some? && s["enum"].items != [] && AllDecoded(s["enum"].items)
    ensures CanBe(defs, s, depth, x) <==> x in s["enum"].items
    ensures Yields(defs, s, depth, o) ==>
              o.Value? && exists i :: 0 <= i < |s["enum"].items| &&
                                      InOrderOf(s["enum"].items[i], o.v, Item(Recorded(s, "enum"), i))
  {
    var l := s["enum"].items;
    LiteralsAnswer(defs, s, depth, l, seq(|l|, i requires 0 <= i < |l| => Item(Recorded(s, "enum"), i)), x);
  }
}
