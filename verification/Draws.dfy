/** The Synthesizer (internal/synth/synth.go): the run's one source of draws, an arbitrary
    stream of words and texts. */
module Draws {

  const TWO_63: int := 0x8000_0000_0000_0000
  const TWO_64: int := 0x1_0000_0000_0000_0000

  predicate IsInt64(n: int) { -TWO_63 <= n < TWO_63 }

  /** int64 conversion: the value modulo 2^64 nearest zero. */
  function Wrap64(n: int): (r: int)
    ensures IsInt64(r)
    ensures IsInt64(n) ==> r == n
  {
    (n + TWO_63) % TWO_64 - TWO_63
  }

  /** int64 of a float64: truncation toward zero, wrapped to 64 bits. */
  function ToInt64(x: real): (r: int)
    ensures IsInt64(r)
  {
    Wrap64(if x >= 0.0 then x.Floor else -((-x).Floor))
  }

  /** uint64 of an int64. */
  function ToUint64(n: int): (r: int)
    ensures 0 <= r < TWO_64
  {
    n % TWO_64
  }

  /** What Synthesizer.Int draws: a value of the range, its start when it is empty. */
  ghost predicate Drawn(n: int, lo: int, hi: int) {
    if hi <= lo then n == lo else lo <= n <= hi
  }

  lemma Span(min: int, max: int)
    requires IsInt64(min) && IsInt64(max) && min < max
    ensures (ToUint64(max) - ToUint64(min) + 1) % TWO_64 == if max - min + 1 == TWO_64 then 0 else max - min + 1
  {
    assert ToUint64(min) == if min < 0 then min + TWO_64 else min;
    assert ToUint64(max) == if max < 0 then max + TWO_64 else max;
  }

  lemma Offset(min: int, d: nat)
    requires IsInt64(min) && IsInt64(min + d)
    ensures Wrap64((ToUint64(min) + d) % TWO_64) == min + d
  {
    assert ToUint64(min) == if min < 0 then min + TWO_64 else min;
  }

  lemma ModBelow(w: nat, n: int)
    requires n > 0
    ensures 0 <= w % n < n
  {
  }

  /** uint64 subtraction and addition wrap, and still land the draw in its range. */
  lemma WrappedRange(min: int, max: int, word: nat)
    requires IsInt64(min) && IsInt64(max) && min < max && word < TWO_64
    ensures var span := (ToUint64(max) - ToUint64(min) + 1) % TWO_64;
            if span == 0 then Drawn(Wrap64(word), min, max)
            else Drawn(Wrap64((ToUint64(min) + word % span) % TWO_64), min, max)
  {
    Span(min, max);
    var span := (ToUint64(max) - ToUint64(min) + 1) % TWO_64;
    if span != 0 {
      ModBelow(word, span);
      Offset(min, word % span);
    }
  }

  // ----- What a word of the random source is made into -----

  /** Int for one word of the source. */
  function IntOf(word: nat, min: int, max: int): int {
    if max <= min then min else
      var span := (ToUint64(max) - ToUint64(min) + 1) % TWO_64;
      if span == 0 then Wrap64(word) else Wrap64((ToUint64(min) + word % span) % TWO_64)
  }

  lemma {:induction false} IntInRange(word: nat, min: int, max: int)
    requires IsInt64(min) && IsInt64(max) && word < TWO_64
    ensures Drawn(IntOf(word, min, max), min, max)
  {
    if min < max { WrappedRange(min, max, word); }
  }

  /** Every value of the range is drawn by some word. */
  lemma {:induction false} IntCovers(min: int, max: int, n: int) returns (word: nat)
    requires IsInt64(min) && IsInt64(max) && Drawn(n, min, max)
    ensures word < TWO_64 && IntOf(word, min, max) == n
  {
    word := 0;
    if min < max {
      Span(min, max);
      if max - min + 1 == TWO_64 {
        word := ToUint64(n);
        assert ToUint64(n) == if n < 0 then n + TWO_64 else n;
      } else {
        word := n - min;
        Offset(min, word);
        SmallMod(word, max - min + 1);
      }
    }
  }

  lemma {:induction false} SmallMod(w: nat, n: nat)
    requires w < n
    ensures w % n == w
  {
  }

  /** Intn for one word of the source: whatever the source gives, below n. */
  function Below(word: nat, n: nat): (i: nat)
    ensures n > 0 ==> i < n
    ensures word < n ==> i == word
  {
    if word < n then word else 0
  }

  /** Float for one word of the source. */
  function FloatOf(word: nat, min: real, max: real): (r: real)
    ensures max <= min ==> r == min
  {
    if max <= min then min else min + word as real / TWO_64 as real * (max - min)
  }

  lemma {:induction false} FloatInRange(word: nat, min: real, max: real)
    requires word < TWO_64 && min < max
    ensures min <= FloatOf(word, min, max) < max
  {
    var f := word as real / TWO_64 as real;
    Positive(1.0 - f, max - min);
    assert (1.0 - f) * (max - min) == (max - min) - f * (max - min);
    if word > 0 { Positive(f, max - min); }
  }

  class Synthesizer {
    const words: nat -> nat
    const texts: nat -> string
    var pos: nat

    constructor (words: nat -> nat, texts: nat -> string)
      ensures this.words == words && this.texts == texts && pos == 0
    {
      this.words := words;
      this.texts := texts;
      pos := 0;
    }

    /** The word of the source that is drawn next. */
    function Next(): (w: nat)
      reads this
      ensures w < TWO_64
    {
      words(pos) % TWO_64
    }

    /** rng.Uint64. */
    method Word() returns (w: nat)
      modifies this
      ensures w == old(Next()) && w < TWO_64 && pos == old(pos) + 1
    {
      w := words(pos) % TWO_64;
      pos := pos + 1;
    }

    /** Int: any draw lands in [min, max]; an empty range yields min and draws nothing. */
    method Int(min: int, max: int) returns (r: int)
      requires IsInt64(min) && IsInt64(max)
      modifies this
      ensures Drawn(r, min, max)
      ensures r == IntOf(old(Next()), min, max) && pos == if max <= min then old(pos) else old(pos) + 1
    {
      if max <= min { return min; }
      var span := (ToUint64(max) - ToUint64(min) + 1) % TWO_64;
      var w := Word();
      WrappedRange(min, max, w);
      if span == 0 { r := Wrap64(w); } else { r := Wrap64((ToUint64(min) + w % span) % TWO_64); }
    }

    /** rng.Intn. */
    method Pick(n: nat) returns (r: nat)
      requires n > 0
      modifies this
      ensures r < n && r == Below(words(old(pos)), n) && pos == old(pos) + 1
    {
      r := Below(words(pos), n);
      pos := pos + 1;
    }

    method Chance(percent: nat) returns (r: bool)
      modifies this
      ensures (r <==> Below(words(old(pos)), 100) < percent) && pos == old(pos) + 1
    {
      var w := Pick(100);
      r := w < percent;
    }

    method Float(min: real, max: real) returns (r: real)
      modifies this
      ensures if max <= min then r == min else min <= r < max
      ensures r == FloatOf(old(Next()), min, max) && pos == if max <= min then old(pos) else old(pos) + 1
    {
      if max <= min { return min; }
      var w := Word();
      FloatInRange(w, min, max);
      r := min + w as real / TWO_64 as real * (max - min);
    }

    /** Text, Semantic and the formatted instants: some string. */
    method Text() returns (r: string)
      modifies this
      ensures r == texts(old(pos)) && pos == old(pos) + 1
    {
      r := texts(pos);
      pos := pos + 1;
    }
  }

  lemma Positive(x: real, y: real)
    requires 0.0 < x && 0.0 < y
    ensures 0.0 < x * y
  {
  }
}
