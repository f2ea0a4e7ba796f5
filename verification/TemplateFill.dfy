/** Filling a templated address with a Kafka topic's name (internal/asyncapi/topic.go). */
module TemplateFill {
  import opened JsonValues
  import opened Sorting
  import opened PointerTokens

  /** An address split at its {parameters}: one more literal than there are names. */
  datatype Template = Template(literals: seq<string>, names: seq<string>)

  ghost predicate IsTemplate(t: Template) { |t.literals| == |t.names| + 1 }

  /** The address with its first parameters filled in, up to and with the literal after them. */
  ghost function Written(t: Template, vs: seq<string>): string
    requires IsTemplate(t) && |vs| <= |t.names|
  {
    if vs == [] then t.literals[0] else Written(t, vs[..|vs| - 1]) + vs[|vs| - 1] + t.literals[|vs|]
  }

  /** Values for the first parameters: each takes one or more characters, one name one value. */
  ghost predicate Fills(t: Template, vs: seq<string>) {
    |vs| <= |t.names| && (forall i | 0 <= i < |vs| :: vs[i] != "") &&
    forall i, j | 0 <= i < j < |vs| && t.names[i] == t.names[j] :: vs[i] == vs[j]
  }

  /** Values for every parameter that make the address the topic's name. */
  ghost predicate IsWay(t: Template, topic: string, vs: seq<string>)
    requires IsTemplate(t)
  {
    |vs| == |t.names| && Fills(t, vs) && Written(t, vs) == topic
  }

  ghost predicate Extends(vs: seq<string>, partial: seq<string>) { |partial| <= |vs| && vs[..|partial|] == partial }

  lemma {:induction false} WrittenExtends(t: Template, vs: seq<string>, k: nat)
    requires IsTemplate(t) && k <= |vs| <= |t.names|
    ensures HasPrefix(Written(t, vs), Written(t, vs[..k]))
    decreases |vs|
  {
    if k == |vs| {
      assert vs[..k] == vs;
    } else {
      WrittenExtends(t, vs[..|vs| - 1], k);
      assert vs[..|vs| - 1][..k] == vs[..k];
    }
  }

  /** What a way that extends partial does with the next parameter. */
  lemma {:induction false} NextValue(t: Template, topic: string, vs: seq<string>, k: nat)
    requires IsTemplate(t) && IsWay(t, topic, vs) && k < |t.names|
    ensures var pos := |Written(t, vs[..k])|; var end := pos + |vs[k]|;
      end <= |topic| && topic[pos..end] == vs[k] && HasPrefix(topic[end..], t.literals[k + 1])
    ensures |Written(t, vs[..k + 1])| == |Written(t, vs[..k])| + |vs[k]| + |t.literals[k + 1]|
  {
    WrittenExtends(t, vs, k + 1);
    assert vs[..k + 1][..k] == vs[..k];
    var head, w := Written(t, vs[..k]), Written(t, vs[..k + 1]);
    assert w == head + vs[k] + t.literals[k + 1];
    assert topic[..|w|] == w;
    assert topic[|head|..|head| + |vs[k]|] == w[|head|..|head| + |vs[k]|];
    assert topic[|head| + |vs[k]|..|w|] == w[|head| + |vs[k]|..];
    assert topic[|head| + |vs[k]|..][..|t.literals[k + 1]|] == topic[|head| + |vs[k]|..|w|];
  }

  lemma {:induction false} NextIs(t: Template, topic: string, vs: seq<string>, values: seq<string>, end: nat)
    requires IsTemplate(t) && IsWay(t, topic, vs) && Extends(vs, values) && |values| < |t.names|
    requires |vs[|values|]| == end - |Written(t, values)|
    ensures end <= |topic| && HasPrefix(topic[end..], t.literals[|values| + 1])
    ensures var v := topic[|Written(t, values)|..end];
            vs[|values|] == v && Extends(vs, values + [v]) && Fills(t, values + [v])
  {
    NextValue(t, topic, vs, |values|);
    assert vs[..|values| + 1] == values + [vs[|values|]];
  }

  lemma {:induction false} WrittenMore(t: Template, topic: string, values: seq<string>, end: nat)
    requires IsTemplate(t) && |values| < |t.names| && HasPrefix(topic, Written(t, values))
    requires |Written(t, values)| <= end <= |topic| && HasPrefix(topic[end..], t.literals[|values| + 1])
    ensures var v := topic[|Written(t, values)|..end];
      HasPrefix(topic, Written(t, values + [v])) && |Written(t, values + [v])| == end + |t.literals[|values| + 1]|
  {
    var head, next := Written(t, values), t.literals[|values| + 1];
    var v := topic[|head|..end];
    assert (values + [v])[..|values|] == values;
    assert topic[..end] == head + v;
    assert topic[end..][..|next|] == next;
    assert topic[..end + |next|] == topic[..end] + topic[end..][..|next|];
  }

  /** The value the parameters filled so far give a name, when they name it. */
  function Prior(names: seq<string>, values: seq<string>, name: string): Option<string>
    requires |values| <= |names|
  {
    if values == [] then None
    else if names[|values| - 1] == name then Some(values[|values| - 1])
    else Prior(names, values[..|values| - 1], name)
  }

  lemma {:induction false} PriorDecides(t: Template, values: seq<string>, v: string)
    requires Fills(t, values) && |values| < |t.names| && v != ""
    ensures var prior := Prior(t.names, values, t.names[|values|]);
      Fills(t, values + [v]) <==> (prior.Some? ==> prior.value == v)
  {
    var name := t.names[|values|];
    PriorIs(t, values, |values|, name);
    var more := values + [v];
    if Fills(t, more) {
      forall i | 0 <= i < |values| && t.names[i] == name ensures values[i] == v { assert more[i] == more[|values|]; }
    }
  }

  lemma {:induction false} PriorIs(t: Template, values: seq<string>, n: nat, name: string)
    requires Fills(t, values) && n <= |values|
    ensures var prior := Prior(t.names, values[..n], name);
      (prior.None? ==> forall i | 0 <= i < n :: t.names[i] != name) &&
      (prior.Some? ==>
        (exists i :: 0 <= i < n && t.names[i] == name) &&
        forall i | 0 <= i < n && t.names[i] == name :: values[i] == prior.value)
    ensures n == |values| ==> values[..n] == values
    decreases n
  {
    if n > 0 {
      assert values[..n][..n - 1] == values[..n - 1];
      PriorIs(t, values, n - 1, name);
    }
  }

  /** Every way that extends partial is listed, unless two ways already are. */
  ghost predicate Complete(t: Template, topic: string, partial: seq<string>, ways: seq<seq<string>>)
    requires IsTemplate(t)
  {
    |ways| <= 1 ==> forall vs | IsWay(t, topic, vs) && Extends(vs, partial) :: vs in ways
  }

  ghost predicate AllWays(t: Template, topic: string, ways: seq<seq<string>>)
    requires IsTemplate(t)
  {
    |ways| <= 2 && Distinct(ways) && forall w | w in ways :: IsWay(t, topic, w)
  }

  /** The ways found in between extend partial. */
  ghost predicate Found(ways0: seq<seq<string>>, ways1: seq<seq<string>>, partial: seq<string>) {
    |ways0| <= |ways1| && ways1[..|ways0|] == ways0 && forall i | |ways0| <= i < |ways1| :: Extends(ways1[i], partial)
  }

  /** The ways whose next value ends here: the text goes on as the template does, and they extend
      the values by it. */
  lemma {:induction false} NextWays(t: Template, topic: string, values: seq<string>, end: nat)
    requires IsTemplate(t) && |values| < |t.names| && |Written(t, values)| <= end <= |topic|
    ensures var v := topic[|Written(t, values)|..end];
            forall vs | IsWay(t, topic, vs) && Extends(vs, values) && |vs[|values|]| == |v| ::
              HasPrefix(topic[end..], t.literals[|values| + 1]) && Extends(vs, values + [v]) && Fills(t, values + [v])
  {
    forall vs | IsWay(t, topic, vs) && Extends(vs, values) && |vs[|values|]| == end - |Written(t, values)|
      ensures var v := topic[|Written(t, values)|..end];
              HasPrefix(topic[end..], t.literals[|values| + 1]) && Extends(vs, values + [v]) && Fills(t, values + [v])
    {
      NextIs(t, topic, vs, values, end);
    }
  }

  lemma {:induction false} NotYet(ways: seq<seq<string>>, values: seq<string>, v: string)
    requires forall w | w in ways && Extends(w, values) :: |values| < |w| && |w[|values|]| < |v|
    ensures forall w | w in ways :: !Extends(w, values + [v])
  {
    forall w | w in ways ensures !Extends(w, values + [v]) { ExtendsOneMore(w, values, v); }
  }

  lemma {:induction false} ExtendsOneMore(w: seq<string>, values: seq<string>, v: string)
    ensures Extends(w, values + [v]) <==> Extends(w, values) && |values| < |w| && w[|values|] == v
  {
    if |values| < |w| { assert w[..|values| + 1] == w[..|values|] + [w[|values|]]; }
  }

  lemma {:induction false} FoundFurther(ways0: seq<seq<string>>, ways1: seq<seq<string>>, values: seq<string>,
                                        v: string)
    requires Found(ways0, ways1, values + [v])
    ensures Found(ways0, ways1, values)
    ensures forall i | |ways0| <= i < |ways1| :: |values| < |ways1[i]| && ways1[i][|values|] == v
  {
    forall i | |ways0| <= i < |ways1|
      ensures Extends(ways1[i], values) && |values| < |ways1[i]| && ways1[i][|values|] == v
    {
      ExtendsOneMore(ways1[i], values, v);
    }
  }

  class Filler {
    const t: Template
    const topic: string
    var ways: seq<seq<string>>

    constructor (t: Template, topic: string)
      ensures this.t == t && this.topic == topic && ways == []
    {
      this.t, this.topic, ways := t, topic, [];
    }

    /** The inner function walk of fill: k parameters are filled, up to pos. */
    method Walk(k: nat, pos: nat, values: seq<string>)
      requires IsTemplate(t) && k == |values| && Fills(t, values) && AllWays(t, topic, ways)
      requires HasPrefix(topic, Written(t, values)) && pos == |Written(t, values)|
      requires forall w | w in ways :: !Extends(w, values)
      modifies this
      ensures AllWays(t, topic, ways) && Found(old(ways), ways, values) && Complete(t, topic, values, ways)
      decreases |t.names| - k, 1
    {
      if |ways| > 1 { return; }
      if k == |t.names| {
        assert forall vs | IsWay(t, topic, vs) && Extends(vs, values) :: vs == values;
        if pos == |topic| {
          assert topic == Written(t, values) && Extends(values, values);
          ways := ways + [values];
        }
        return;
      }
      Ends(k, pos, values);
    }

    /** The loop of walk over where the next parameter's value ends. */
    method Ends(k: nat, pos: nat, values: seq<string>)
      requires IsTemplate(t) && k == |values| < |t.names| && Fills(t, values) && AllWays(t, topic, ways)
      requires HasPrefix(topic, Written(t, values)) && pos == |Written(t, values)|
      requires forall w | w in ways :: !Extends(w, values)
      modifies this
      ensures AllWays(t, topic, ways) && Found(old(ways), ways, values) && Complete(t, topic, values, ways)
      decreases |t.names| - k, 0
    {
      var next := t.literals[k + 1];
      var end := pos + 1;
      while end <= |topic|
        invariant pos + 1 <= end && (end <= |topic| || end == |topic| + 1 || end == pos + 1)
        invariant AllWays(t, topic, ways) && Found(old(ways), ways, values)
        invariant forall w | w in ways && Extends(w, values) :: |w[k]| < end - pos
        invariant |ways| <= 1 ==>
                  forall vs | IsWay(t, topic, vs) && Extends(vs, values) && |vs[k]| < end - pos :: vs in ways
        decreases |topic| - end
      {
        Try(k, pos, end, next, values);
        end := end + 1;
      }
      forall vs | IsWay(t, topic, vs) && Extends(vs, values) ensures |vs[k]| < end - pos { NextValue(t, topic, vs, k); }
    }

    /** One turn of that loop. */
    method Try(k: nat, pos: nat, end: nat, next: string, values: seq<string>)
      requires IsTemplate(t) && k == |values| < |t.names| && Fills(t, values) && AllWays(t, topic, ways)
      requires HasPrefix(topic, Written(t, values)) && pos == |Written(t, values)| < end <= |topic|
      requires next == t.literals[k + 1]
      requires forall w | w in ways && Extends(w, values) :: |w[k]| < end - pos
      modifies this
      ensures AllWays(t, topic, ways) && Found(old(ways), ways, values)
      ensures forall i | |old(ways)| <= i < |ways| :: k < |ways[i]| && |ways[i][k]| == end - pos
      ensures |ways| <= 1 ==>
                forall vs | IsWay(t, topic, vs) && Extends(vs, values) && |vs[k]| == end - pos :: vs in ways
      decreases |t.names| - k, 0, 0
    {
      var value := topic[pos..end];
      NextWays(t, topic, values, end);
      if !HasPrefix(topic[end..], next) { return; }
      PriorDecides(t, values, value);
      var prior := Prior(t.names, values, t.names[k]);
      if prior.Some? && prior.value != value { return; }
      WrittenMore(t, topic, values, end);
      NotYet(ways, values, value);
      Walk(k + 1, end + |next|, values + [value]);
      FoundFurther(old(ways), ways, values, value);
    }
  }

  /** fill: no way, the one way, or two of several. */
  method Fill(t: Template, topic: string) returns (ways: seq<seq<string>>)
    requires IsTemplate(t)
    ensures AllWays(t, topic, ways) && Complete(t, topic, [], ways)
  {
    if !HasPrefix(topic, t.literals[0]) {
      forall vs | IsWay(t, topic, vs) ensures false { WrittenExtends(t, vs, 0); }
      return [];
    }
    var f := new Filler(t, topic);
    f.Walk(0, |t.literals[0]|, []);
    ways := f.ways;
    assert forall vs | IsWay(t, topic, vs) :: Extends(vs, []);
  }

  /** How many ways fill lists says how many there are: none, exactly one, or more. */
  lemma {:induction false} FillIsExact(t: Template, topic: string, ways: seq<seq<string>>)
    requires IsTemplate(t) && AllWays(t, topic, ways) && Complete(t, topic, [], ways)
    ensures |ways| == 0 <==> forall vs :: !IsWay(t, topic, vs)
    ensures |ways| == 1 <==> exists vs :: IsWay(t, topic, vs) && forall other | IsWay(t, topic, other) :: other == vs
    ensures |ways| == 2 <==> exists vs, other :: IsWay(t, topic, vs) && IsWay(t, topic, other) && vs != other
  {
    assert forall vs | IsWay(t, topic, vs) :: Extends(vs, []);
    if |ways| == 1 {
      assert IsWay(t, topic, ways[0]);
      forall other | IsWay(t, topic, other) ensures other == ways[0] { assert other in ways; }
    }
    if |ways| == 2 { assert ways[0] in ways && ways[1] in ways && ways[0] != ways[1]; }
    if |ways| == 0 { assert forall vs :: vs !in ways; }
  }
}
