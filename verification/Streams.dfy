/** The run's one source of draws as a value (internal/synth/synth.go): what is read of it from a
    position on, and streams that go on with given draws. */
module Streams {
  import opened JsonValues
  import opened Draws

  /** The run's one source: the word and the text drawn at each position. */
  datatype Stream = Stream(words: nat -> nat, texts: nat -> string)
  {
    function Word(pos: nat): (w: nat)
      ensures w < TWO_64
    {
      words(pos) % TWO_64
    }

    function Pick(pos: nat, n: nat): (i: nat)
      requires n > 0
      ensures i < n
    {
      Below(words(pos), n)
    }

    function Chance(pos: nat, percent: nat): bool { Below(words(pos), 100) < percent }
  }

  /** What a call comes to, none where an error stops the run, and the position it leaves. */
  datatype Run<T> = Run(made: Option<T>, pos: nat)

  /** A word and a text of the source. */
  datatype Draw = Draw(word: nat, text: string)

  /** The stream goes on with these draws. */
  ghost predicate Feeds(st: Stream, pos: nat, ds: seq<Draw>) {
    forall i | 0 <= i < |ds| :: st.words(pos + i) == ds[i].word && st.texts(pos + i) == ds[i].text
  }

  lemma {:induction false} FeedsBoth(st: Stream, pos: nat, a: seq<Draw>, b: seq<Draw>)
    ensures Feeds(st, pos, a + b) <==> Feeds(st, pos, a) && Feeds(st, pos + |a|, b)
  {
    var ds := a + b;
    if Feeds(st, pos, ds) {
      forall i | 0 <= i < |a| ensures st.words(pos + i) == a[i].word && st.texts(pos + i) == a[i].text {
        assert ds[i] == a[i];
      }
      forall i | 0 <= i < |b|
        ensures st.words(pos + |a| + i) == b[i].word && st.texts(pos + |a| + i) == b[i].text
      {
        assert ds[|a| + i] == b[i];
      }
    }
    if Feeds(st, pos, a) && Feeds(st, pos + |a|, b) {
      forall i | 0 <= i < |ds| ensures st.words(pos + i) == ds[i].word && st.texts(pos + i) == ds[i].text {
        if i >= |a| { assert ds[i] == b[i - |a|]; }
      }
    }
  }

  lemma {:induction false} PickReached(st: Stream, pos: nat, i: nat, n: nat)
    requires i < n && Feeds(st, pos, [Draw(i, "")])
    ensures st.Pick(pos, n) == i
  {
    assert [Draw(i, "")][0] == Draw(i, "") && st.words(pos + 0) == i;
  }

  lemma {:induction false} ChanceReached(st: Stream, pos: nat, percent: nat, yes: bool)
    requires 0 < percent < 100 && Feeds(st, pos, [Draw(if yes then 0 else 99, "")])
    ensures st.Chance(pos, percent) == yes
  {
    var d := Draw(if yes then 0 else 99, "");
    assert [d][0] == d && st.words(pos + 0) == d.word;
  }

  /** A stream that begins with the draws. */
  ghost function Going(ds: seq<Draw>): Stream {
    Stream((i: nat) => if i < |ds| then ds[i].word else 0, (i: nat) => if i < |ds| then ds[i].text else "")
  }
}
