/** What one stream of draws writes for a pattern's tree (internal/synth/pattern.go): genNode as a
    function of the stream. Every word of the tree is written by some stream. */
module PatternReplay {
  import opened JsonValues
  import opened Draws
  import opened PatternAst

  /** What is written for a node from a position of the source on, and the position after it. */
  function Written(n: Re, words: nat -> nat, pos: nat): (string, nat)
    requires Drawable(n)
    decreases n, 0
  {
    match n
    case Empty => ("", pos)
    case Lit(c) => ([c], pos)
    case Class(chars) => ([chars[Below(words(pos), |chars|)]], pos + 1)
    case Seq(items) => WrittenAll(items, |items|, words, pos)
    case Alt(branches) => Written(branches[Below(words(pos), |branches|)], words, pos + 1)
    case Quant(node, min, max) =>
      if max > min then WrittenTimes(node, min + Below(words(pos), max - min + 1), words, pos + 1)
      else WrittenTimes(node, min, words, pos)
  }

  /** The first n items, one after the other. */
  function WrittenAll(items: seq<Re>, n: nat, words: nat -> nat, pos: nat): (string, nat)
    requires n <= |items| && forall i | 0 <= i < |items| :: Drawable(items[i])
    decreases items, n
  {
    if n == 0 then ("", pos) else
      var (before, next) := WrittenAll(items, n - 1, words, pos);
      var (last, end) := Written(items[n - 1], words, next);
      (before + last, end)
  }

  /** The node so many times. */
  function WrittenTimes(node: Re, count: nat, words: nat -> nat, pos: nat): (string, nat)
    requires Drawable(node)
    decreases node, 1, count
  {
    if count == 0 then ("", pos) else
      var (before, next) := WrittenTimes(node, count - 1, words, pos);
      var (last, end) := Written(node, words, next);
      (before + last, end)
  }

  // ----- Whatever is written is an occurrence of the node -----

  lemma {:induction false} JoinLast(ws: seq<string>, w: string)
    ensures Join(ws + [w]) == Join(ws) + w
  {
    assert (ws + [w])[..|ws|] == ws;
  }

  lemma {:induction false} WrittenOccurs(n: Re, words: nat -> nat, pos: nat)
    requires Drawable(n)
    ensures Writes(n, Written(n, words, pos).0)
    decreases n, 0
  {
    match n
    case Seq(items) =>
      var ws := AllOccur(items, |items|, words, pos);
    case Alt(branches) => WrittenOccurs(branches[Below(words(pos), |branches|)], words, pos + 1);
    case Quant(node, min, max) =>
      if max > min {
        var ws := TimesOccur(node, min + Below(words(pos), max - min + 1), words, pos + 1);
      } else {
        var ws := TimesOccur(node, min, words, pos);
      }
    case _ =>
  }

  lemma {:induction false} AllOccur(items: seq<Re>, n: nat, words: nat -> nat, pos: nat) returns (ws: seq<string>)
    requires n <= |items| && forall i | 0 <= i < |items| :: Drawable(items[i])
    ensures |ws| == n && InOrder(items, ws) && Join(ws) == WrittenAll(items, n, words, pos).0
    decreases items, n
  {
    ws := [];
    if n > 0 {
      var before := AllOccur(items, n - 1, words, pos);
      var next := WrittenAll(items, n - 1, words, pos).1;
      WrittenOccurs(items[n - 1], words, next);
      ws := before + [Written(items[n - 1], words, next).0];
      JoinLast(before, Written(items[n - 1], words, next).0);
    }
  }

  lemma {:induction false} TimesOccur(node: Re, count: nat, words: nat -> nat, pos: nat) returns (ws: seq<string>)
    requires Drawable(node)
    ensures |ws| == count && Repeats(node, ws) && Join(ws) == WrittenTimes(node, count, words, pos).0
    decreases node, 1, count
  {
    ws := [];
    if count > 0 {
      var before := TimesOccur(node, count - 1, words, pos);
      var next := WrittenTimes(node, count - 1, words, pos).1;
      WrittenOccurs(node, words, next);
      ws := before + [Written(node, words, next).0];
      JoinLast(before, Written(node, words, next).0);
    }
  }

  // ----- Every occurrence is written -----

  /** The source goes on with these words. */
  ghost predicate Feeds(words: nat -> nat, pos: nat, ds: seq<nat>) {
    forall i | 0 <= i < |ds| :: words(pos + i) == ds[i]
  }

  lemma {:induction false} FeedsBoth(words: nat -> nat, pos: nat, a: seq<nat>, b: seq<nat>)
    requires Feeds(words, pos, a + b)
    ensures Feeds(words, pos, a) && Feeds(words, pos + |a|, b)
  {
    var ds := a + b;
    forall i | 0 <= i < |a| ensures words(pos + i) == a[i] { assert ds[i] == a[i]; }
    forall i | 0 <= i < |b| ensures words(pos + |a| + i) == b[i] { assert ds[|a| + i] == b[i]; }
  }

  lemma {:induction false} First(words: nat -> nat, pos: nat, d: nat, rest: seq<nat>)
    requires Feeds(words, pos, [d] + rest)
    ensures words(pos) == d && Feeds(words, pos + 1, rest)
  {
    FeedsBoth(words, pos, [d], rest);
    assert [d][0] == d && words(pos + 0) == d;
  }

  ghost predicate Makes(n: Re, ds: seq<nat>, w: string)
    requires Drawable(n)
  {
    forall words: nat -> nat, pos: nat | Feeds(words, pos, ds) :: Written(n, words, pos) == (w, pos + |ds|)
  }

  ghost predicate MakesAll(items: seq<Re>, n: nat, ds: seq<nat>, w: string)
    requires n <= |items| && forall i | 0 <= i < |items| :: Drawable(items[i])
  {
    forall words: nat -> nat, pos: nat | Feeds(words, pos, ds) :: WrittenAll(items, n, words, pos) == (w, pos + |ds|)
  }

  ghost predicate MakesTimes(node: Re, count: nat, ds: seq<nat>, w: string)
    requires Drawable(node)
  {
    forall words: nat -> nat, pos: nat | Feeds(words, pos, ds) ::
      WrittenTimes(node, count, words, pos) == (w, pos + |ds|)
  }

  lemma {:induction false} Reached(n: Re, w: string) returns (ds: seq<nat>)
    requires Drawable(n) && Writes(n, w)
    ensures Makes(n, ds, w)
    decreases n, 1
  {
    match n
    case Class(chars) => ds := CharReached(chars, w);
    case Seq(items) =>
      var ws :| |ws| == |items| && InOrder(items, ws) && Join(ws) == w;
      ds := AllReached(items, |items|, ws);
      assert ws[..|items|] == ws;
    case Alt(branches) =>
      var i :| 0 <= i < |branches| && Writes(branches[i], w);
      var rest := Reached(branches[i], w);
      ds := [i] + rest;
      BranchReached(branches, i, rest, w);
    case Quant(node, min, max) => ds := QuantReached(node, min, max, w);
    case _ => ds := [];
  }

  lemma {:induction false} CharReached(chars: seq<char>, w: string) returns (ds: seq<nat>)
    requires chars != [] && |w| == 1 && w[0] in chars
    ensures Makes(Class(chars), ds, w)
  {
    var i :| 0 <= i < |chars| && chars[i] == w[0];
    ds := [i];
    forall words: nat -> nat, pos: nat | Feeds(words, pos, ds)
      ensures Written(Class(chars), words, pos) == (w, pos + 1)
    {
      assert ds[0] == i && words(pos + 0) == i && w == [chars[i]];
    }
  }

  lemma {:induction false} BranchReached(branches: seq<Re>, i: nat, rest: seq<nat>, w: string)
    requires Drawable(Alt(branches)) && i < |branches| && Makes(branches[i], rest, w)
    ensures Makes(Alt(branches), [i] + rest, w)
  {
    forall words: nat -> nat, pos: nat | Feeds(words, pos, [i] + rest)
      ensures Written(Alt(branches), words, pos) == (w, pos + |[i] + rest|)
    {
      First(words, pos, i, rest);
    }
  }

  lemma {:induction false} QuantReached(node: Re, min: nat, max: nat, w: string) returns (ds: seq<nat>)
    requires Drawable(Quant(node, min, max)) && Writes(Quant(node, min, max), w)
    ensures Makes(Quant(node, min, max), ds, w)
    decreases node, 3
  {
    var ws :| min <= |ws| <= max && Repeats(node, ws) && Join(ws) == w;
    var rest := TimesReached(node, |ws|, ws);
    if max > min {
      ds := [|ws| - min] + rest;
      forall words: nat -> nat, pos: nat | Feeds(words, pos, ds)
        ensures Written(Quant(node, min, max), words, pos) == (w, pos + |ds|)
      {
        First(words, pos, |ws| - min, rest);
      }
    } else {
      ds := rest;
    }
  }

  lemma {:induction false} AllReached(items: seq<Re>, n: nat, ws: seq<string>) returns (ds: seq<nat>)
    requires n <= |items| == |ws| && InOrder(items, ws) && forall i | 0 <= i < |items| :: Drawable(items[i])
    ensures MakesAll(items, n, ds, Join(ws[..n]))
    decreases items, n
  {
    ds := [];
    if n > 0 {
      var before := AllReached(items, n - 1, ws);
      var last := Reached(items[n - 1], ws[n - 1]);
      ds := before + last;
      assert ws[..n] == ws[..n - 1] + [ws[n - 1]];
      JoinLast(ws[..n - 1], ws[n - 1]);
      OneMoreItem(items, n, before, Join(ws[..n - 1]), last, ws[n - 1]);
    }
  }

  lemma {:induction false} OneMoreItem(items: seq<Re>, n: nat, before: seq<nat>, v: string, last: seq<nat>, w: string)
    requires 0 < n <= |items| && forall i | 0 <= i < |items| :: Drawable(items[i])
    requires MakesAll(items, n - 1, before, v) && Makes(items[n - 1], last, w)
    ensures MakesAll(items, n, before + last, v + w)
  {
    forall words: nat -> nat, pos: nat | Feeds(words, pos, before + last)
      ensures WrittenAll(items, n, words, pos) == (v + w, pos + |before + last|)
    {
      FeedsBoth(words, pos, before, last);
    }
  }

  lemma {:induction false} TimesReached(node: Re, count: nat, ws: seq<string>) returns (ds: seq<nat>)
    requires count <= |ws| && Repeats(node, ws) && Drawable(node)
    ensures MakesTimes(node, count, ds, Join(ws[..count]))
    ensures count == |ws| ==> MakesTimes(node, count, ds, Join(ws))
    decreases node, 2, count
  {
    ds := [];
    if count > 0 {
      var before := TimesReached(node, count - 1, ws);
      var last := Reached(node, ws[count - 1]);
      ds := before + last;
      assert ws[..count] == ws[..count - 1] + [ws[count - 1]];
      JoinLast(ws[..count - 1], ws[count - 1]);
      OneMoreTime(node, count, before, Join(ws[..count - 1]), last, ws[count - 1]);
    }
    assert count == |ws| ==> ws[..count] == ws;
  }

  lemma {:induction false} OneMoreTime(node: Re, count: nat, before: seq<nat>, v: string, last: seq<nat>, w: string)
    requires count > 0 && Drawable(node) && MakesTimes(node, count - 1, before, v) && Makes(node, last, w)
    ensures MakesTimes(node, count, before + last, v + w)
  {
    forall words: nat -> nat, pos: nat | Feeds(words, pos, before + last)
      ensures WrittenTimes(node, count, words, pos) == (v + w, pos + |before + last|)
    {
      FeedsBoth(words, pos, before, last);
    }
  }

  function Going(ds: seq<nat>): nat -> nat { (i: nat) => if i < |ds| then ds[i] else 0 }

  /** The occurrences of a node are what streams write for it, each by some stream. */
  lemma {:induction false} EveryWordWritten(n: Re, w: string)
    requires Drawable(n)
    ensures Writes(n, w) <==> exists words: nat -> nat :: Written(n, words, 0).0 == w
  {
    if Writes(n, w) {
      var ds := Reached(n, w);
      assert Feeds(Going(ds), 0, ds);
      assert Written(n, Going(ds), 0).0 == w;
    }
    if words: nat -> nat :| Written(n, words, 0).0 == w { WrittenOccurs(n, words, 0); }
  }
}
