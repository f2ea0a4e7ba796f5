/** Binding a Kafka topic's name to spec entries (internal/asyncapi/topic.go). */
module TopicBind {
  import opened JsonValues
  import opened TemplateFill

  /** A spec entry: the topic it stands for, or the template of topics. */
  datatype SpecEntry = SpecEntry(id: string, templated: bool, topic: string, template: Template)

  datatype Match = Match(entry: SpecEntry, values: seq<string>)

  ghost predicate GoodEntries(entries: seq<SpecEntry>) { forall e | e in entries :: IsTemplate(e.template) }

  /** The entry stands for the topic when its parameters take these values. */
  ghost predicate Binds(e: SpecEntry, topic: string, values: seq<string>)
    requires IsTemplate(e.template)
  {
    if e.templated then IsWay(e.template, topic, values) else e.topic == topic && values == []
  }

  ghost predicate Ambiguous(e: SpecEntry, topic: string)
    requires IsTemplate(e.template)
  {
    exists vs, other :: Binds(e, topic, vs) && Binds(e, topic, other) && vs != other
  }

  /** assignment: the values by name. */
  function Assignment(names: seq<string>, values: seq<string>): map<string, string>
    requires |values| <= |names|
  {
    if values == [] then map[]
    else Assignment(names, values[..|values| - 1])[names[|values| - 1] := values[|values| - 1]]
  }

  function Given(m: Match): map<string, string> {
    if |m.values| <= |m.entry.template.names| then Assignment(m.entry.template.names, m.values) else map[]
  }

  /** Values of one name are one, so the map says what the list does. */
  lemma {:induction false} AssignmentReads(t: Template, values: seq<string>, n: nat)
    requires Fills(t, values) && n <= |values|
    ensures var a := Assignment(t.names, values[..n]);
      (forall i | 0 <= i < n :: t.names[i] in a && a[t.names[i]] == values[i]) &&
      forall x | x in a :: exists i :: 0 <= i < n && t.names[i] == x
    decreases n
  {
    if n > 0 {
      assert values[..n][..n - 1] == values[..n - 1];
      AssignmentReads(t, values, n - 1);
    }
  }

  /** The matches are the entries that stand for the topic, in order, with the values that make them. */
  ghost predicate Matches(entries: seq<SpecEntry>, topic: string, matched: seq<Match>)
    requires GoodEntries(entries)
    decreases |entries|
  {
    if entries == [] then matched == []
    else
      var e, init := entries[|entries| - 1], entries[..|entries| - 1];
      if exists vs :: Binds(e, topic, vs) then
        matched != [] && matched[|matched| - 1].entry == e && Binds(e, topic, matched[|matched| - 1].values) &&
        Matches(init, topic, matched[..|matched| - 1])
      else Matches(init, topic, matched)
  }

  ghost predicate OneWay(matched: seq<Match>) { forall m, n | m in matched && n in matched :: Given(m) == Given(n) }

  /** What bind refuses: an entry with more ways than one, or entries that differ in theirs. */
  ghost predicate Refused(entries: seq<SpecEntry>, topic: string)
    requires GoodEntries(entries)
  {
    (exists e :: e in entries && Ambiguous(e, topic)) ||
    exists matched :: Matches(entries, topic, matched) && !OneWay(matched)
  }

  /** Without ambiguity there is only one list of matches. */
  lemma {:induction false} MatchesUnique(entries: seq<SpecEntry>, topic: string, a: seq<Match>, b: seq<Match>)
    requires GoodEntries(entries) && (forall e | e in entries :: !Ambiguous(e, topic))
    requires Matches(entries, topic, a) && Matches(entries, topic, b)
    ensures a == b
    decreases |entries|
  {
    if entries != [] {
      var e, init := entries[|entries| - 1], entries[..|entries| - 1];
      assert e in entries && forall x | x in init :: x in entries;
      if exists vs :: Binds(e, topic, vs) {
        MatchesUnique(init, topic, a[..|a| - 1], b[..|b| - 1]);
        assert a[|a| - 1].values == b[|b| - 1].values;
        assert a == a[..|a| - 1] + [a[|a| - 1]] && b == b[..|b| - 1] + [b[|b| - 1]];
      } else {
        MatchesUnique(init, topic, a, b);
      }
    }
  }

  /** What the ways found say of a templated entry. */
  lemma {:induction false} WaysBind(e: SpecEntry, topic: string, ways: seq<seq<string>>)
    requires IsTemplate(e.template) && e.templated
    requires AllWays(e.template, topic, ways) && Complete(e.template, topic, [], ways)
    ensures Ambiguous(e, topic) <==> |ways| > 1
    ensures |ways| == 0 ==> forall vs :: !Binds(e, topic, vs)
    ensures |ways| > 0 ==> Binds(e, topic, ways[0])
  {
    if |ways| > 0 { assert ways[0] in ways; }
    if |ways| > 1 {
      assert ways[1] in ways && ways[0] != ways[1];
      assert Binds(e, topic, ways[0]) && Binds(e, topic, ways[1]);
    } else {
      forall vs | Binds(e, topic, vs) ensures vs in ways { assert Extends(vs, []); }
    }
  }

  /** The body of bind's loop: the entry's match, when it has one. */
  method BindOne(topic: string, e: SpecEntry) returns (ambiguous: bool, m: Option<Match>)
    requires IsTemplate(e.template)
    ensures ambiguous <==> Ambiguous(e, topic)
    ensures !ambiguous ==> (m.Some? <==> exists vs :: Binds(e, topic, vs))
    ensures !ambiguous && m.Some? ==> m.value.entry == e && Binds(e, topic, m.value.values)
  {
    ambiguous, m := false, None;
    if e.templated {
      var ways := Fill(e.template, topic);
      WaysBind(e, topic, ways);
      if |ways| > 1 { return true, None; }
      if |ways| == 0 { return; }
      m := Some(Match(e, ways[0]));
    } else if e.topic == topic {
      assert Binds(e, topic, []);
      m := Some(Match(e, []));
    }
  }

  /** sameWay */
  method SameWay(matched: seq<Match>) returns (same: bool)
    requires matched != []
    ensures same <==> OneWay(matched)
  {
    var first := Given(matched[0]);
    assert matched[0] in matched;
    var i: nat := 1;
    while i < |matched|
      invariant 1 <= i <= |matched| && forall j | 0 <= j < i :: Given(matched[j]) == first
    {
      if Given(matched[i]) != first {
        assert matched[i] in matched;
        return false;
      }
      i := i + 1;
    }
    same := true;
  }

  /** bind: the entries that stand for the topic, each in its one way and all in the same, unless
      one has several ways or they differ. */
  method Bind(topic: string, entries: seq<SpecEntry>) returns (matched: Option<seq<Match>>)
    requires GoodEntries(entries)
    ensures matched.None? <==> Refused(entries, topic)
    ensures matched.Some? ==> Matches(entries, topic, matched.value) && OneWay(matched.value)
  {
    var out: seq<Match> := [];
    var i: nat := 0;
    while i < |entries|
      invariant i <= |entries| && GoodEntries(entries[..i]) && Matches(entries[..i], topic, out)
      invariant forall e | e in entries[..i] :: !Ambiguous(e, topic)
    {
      var e := entries[i];
      var ambiguous, m := BindOne(topic, e);
      if ambiguous {
        assert e in entries;
        return None;
      }
      assert entries[..i + 1][..i] == entries[..i] && entries[..i + 1] == entries[..i] + [e];
      if m.Some? {
        assert (out + [m.value])[..|out|] == out;
        out := out + [m.value];
      }
      i := i + 1;
    }
    assert entries[..i] == entries;
    if out != [] {
      var same := SameWay(out);
      if !same { return None; }
    }
    forall other | Matches(entries, topic, other) ensures other == out { MatchesUnique(entries, topic, other, out); }
    matched := Some(out);
  }
}
