/** A spec whose resolved schema means something else (internal/asyncapi/document.go). */
module RefTexts {
  import opened JsonValues
  import opened Paths
  import opened PointerTokens
  import opened SpecRefs
  import opened OrderStamps
  import opened RefResolver
  import opened SchemaResolver
  import opened RefMeaning

  function TextSpec(): Doc { Doc(map["t" := Str("text")], map[]) }

  function Inner(): Json { Obj(map["$ref" := Str("#/t")]) }

  /** An object that holds a reference under "$ref". */
  function RefUnderRef(): Json { Obj(map["$ref" := Inner()]) }

  function TextCopy(): Node { map["$ref" := Str("text")] }

  lemma {:induction false} FollowT()
    ensures Follow(TextSpec(), "#/t") == Some(Str("text"))
  {
    assert "#/t"[2..] == "t" && "t"[1..] == "";
    assert PathUnescape("") == Some("");
    assert "t" == ['t'] + "";
    assert PathUnescape("t") == Some(['t'] + "");
    SplitWord("t");
    assert UnescapeToken("t") == "t" && ["t"][1..] == [];
    assert Walk(Obj(TextSpec().raw), ["t"]) == Walk(Str("text"), []);
  }

  lemma {:induction false} InnerIsText(u: set<string>, at: Place)
    requires Within(TextSpec(), u, Inner()) && "#/t" in u
    ensures Expanded(TextSpec(), u, Inner(), [], at, Str("text"), {})
  {
    FollowT();
    FollowWithin(TextSpec(), u, "#/t");
    OneLess(u, [], "#/t");
    assert [] + ["#/t"] == ["#/t"];
    assert Expanded(TextSpec(), u, Str("text"), ["#/t"], at.Referenced(), Str("text"), {});
    TargetExpanded(TextSpec(), u, Inner(), [], at, Str("text"), {});
  }

  lemma {:induction false} TextResolves(u: set<string>)
    requires u == Refs(Obj(TextSpec().raw)) + Refs(RefUnderRef())
    ensures Resolved(TextSpec(), u, RefUnderRef(), TextCopy(), map[])
  {
    var n, out := RefUnderRef().fields, TextCopy();
    TextWithin(u);
    InnerIsText(u, InSchema.Child("$ref"));
    NothingStamped(n, out);
    assert FieldsExpanded(TextSpec(), u, n, [], InSchema, out, {});
    ObjectResolves(TextSpec(), u, n, out);
  }

  lemma {:induction false} ObjectResolves(d: Doc, u: set<string>, n: Node, out: Node)
    requires Within(d, u, Obj(n)) && StrAt(n, "$ref").None? && out.Keys == n.Keys
    requires Stamped(d.orders, n, out, InSchema) == out
    requires FieldsExpanded(d, u, n, [], InSchema, out, {})
    ensures Resolved(d, u, Obj(n), out, map[])
  {
    ObjectExpanded(d, u, n, [], InSchema, out, {});
    var none: map<string, Json> := map[];
    assert none.Keys == {};
  }

  lemma {:induction false} TextWithin(u: set<string>)
    requires u == Refs(Obj(TextSpec().raw)) + Refs(RefUnderRef())
    ensures Within(TextSpec(), u, RefUnderRef()) && Within(TextSpec(), u, Inner()) && "#/t" in u
  {
    assert "#/t" in Refs(Inner()) && Refs(Inner()) <= Refs(RefUnderRef());
  }

  lemma {:induction false} NothingStamped(n: Node, out: Node)
    requires n.Keys == {"$ref"}
    ensures Stamped(map[], n, out, InSchema) == out
  {
    assert (map k | k in n && IsLiteralKeyword(k) && HoldsObject(n[k]) :: OrderTree(map[], n[k])) == map[];
  }

  /** It resolves, and at "$ref" the spec shows the text but the schema nothing: the copy has
      become a reference that leads nowhere. */
  lemma {:induction false} TextBecomesReference(u: set<string>, o: Sight)
    requires u == Refs(Obj(TextSpec().raw)) + Refs(RefUnderRef())
    ensures Resolved(TextSpec(), u, RefUnderRef(), TextCopy(), map[])
    ensures Sees(Spec(TextSpec()), RefUnderRef(), [FieldStep("$ref")], Scalar(Str("text")))
    ensures !Sees(Own(DefsIn(WithDefs(TextCopy(), map[]))), Obj(WithDefs(TextCopy(), map[])), [FieldStep("$ref")], o)
  {
    TextResolves(u);
    SpecShowsText([FieldStep("$ref")]);
    SeesOn(Own(DefsIn(TextCopy())), Obj(TextCopy()), [FieldStep("$ref")], o);
  }

  lemma {:induction false} SpecShowsText(path: seq<Step>)
    requires path == [FieldStep("$ref")]
    ensures Sees(Spec(TextSpec()), RefUnderRef(), path, Scalar(Str("text")))
  {
    FollowT();
    assert path[1..] == [];
    SeesInto(Spec(TextSpec()), RefUnderRef(), path, Scalar(Str("text")));
    SeesOn(Spec(TextSpec()), Inner(), [], Scalar(Str("text")));
    SeesHere(Spec(TextSpec()), Str("text"), Scalar(Str("text")));
  }
}
