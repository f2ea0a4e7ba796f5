/** Patterns as the bytes internal/synth/pattern.go reads them as: a character outside ASCII is
    read as one literal for each of its bytes. */
module PatternBytes {
  import opened JsonValues
  import opened Draws
  import opened PatternAst
  import opened PatternGrammar
  import opened PatternParser

  /** The bytes of a character, as section 3 of RFC 3629 encodes it. */
  function Utf8Char(c: char): string {
    var n := c as int;
    if n < 0x80 then [c]
    else if n < 0x800 then [(0xC0 + n / 64) as char, (0x80 + n % 64) as char]
    else if n < 0x1_0000 then [(0xE0 + n / 4096) as char, (0x80 + n / 64 % 64) as char, (0x80 + n % 64) as char]
    else
      [(0xF0 + n / 262144) as char, (0x80 + n / 4096 % 64) as char,
       (0x80 + n / 64 % 64) as char, (0x80 + n % 64) as char]
  }

  function Utf8(s: string): string { if s == "" then "" else Utf8Char(s[0]) + Utf8(s[1..]) }

  predicate IsAscii(s: string) { forall i | 0 <= i < |s| :: (s[i] as int) < 0x80 }

  /** Every encoded text is one the parser can be given. */
  lemma {:induction false} Utf8IsPattern(s: string)
    ensures IsPattern(Utf8(s))
  {
    if s != "" { Utf8IsPattern(s[1..]); }
  }

  lemma {:induction false} Utf8Longer(s: string)
    ensures |Utf8(s)| >= |s|
    ensures !IsAscii(s) ==> |Utf8(s)| > |s|
  {
    if s != "" {
      Utf8Longer(s[1..]);
      if IsAscii([s[0]]) && IsAscii(s[1..]) { assert s == [s[0]] + s[1..]; }
    }
  }

  lemma {:induction false} AsciiIsItsBytes(s: string)
    ensures Utf8(s) == s <==> IsAscii(s)
  {
    Utf8Longer(s);
    if s != "" && IsAscii(s) {
      AsciiIsItsBytes(s[1..]);
      assert s == [s[0]] + s[1..];
    }
  }

  /** For a pattern in ASCII the text written is in the language of the pattern's characters. */
  lemma AsciiWritten(re: string, out: string)
    requires IsAscii(re) && InLanguage(Utf8(re), out)
    ensures InLanguage(re, out)
  {
    AsciiIsItsBytes(re);
  }

  // ----- Patterns of literals alone -----

  /** No character of the text is a sign of the grammar. */
  predicate IsPlain(s: string) { forall i | 0 <= i < |s| :: IsLiteral(s[i]) && !Quantifies([s[i]]) }

  function Chars(s: string): seq<Rx> { if s == "" then [] else [Char(s[0])] + Chars(s[1..]) }

  lemma {:induction false} PlainDerives(s: string)
    requires IsPlain(s)
    ensures IsAlternation(Concat(Chars(s)), s) && !Quantifies(s)
  {
    if s != "" {
      PlainDerives(s[1..]);
      assert s[..1] == [s[0]];
      ConcatMore(Char(s[0]), Chars(s[1..]), s, 1);
    }
  }

  lemma {:induction false} CharsMatch(s: string, words: seq<string>)
    requires |words| == |Chars(s)| && forall i | 0 <= i < |words| :: Matches(Chars(s)[i], words[i])
    ensures Join(words) == s
  {
    if s != "" {
      var rest := words[1..];
      assert Chars(s)[1..] == Chars(s[1..]) && Matches(Chars(s)[0], words[0]);
      forall i | 0 <= i < |rest|
        ensures Matches(Chars(s[1..])[i], rest[i])
      {
        assert Chars(s)[i + 1] == Chars(s[1..])[i];
      }
      CharsMatch(s[1..], rest);
      JoinCons(words[0], rest);
      assert words == [words[0]] + rest;
    }
  }

  lemma {:induction false} JoinCons(w: string, words: seq<string>)
    ensures Join([w] + words) == w + Join(words)
  {
    var all, n := [w] + words, |words|;
    if n == 0 {
      assert all[..0] == [] && Join(all) == Join([]) + w;
    } else {
      JoinCons(w, words[..n - 1]);
      assert all[..n] == [w] + words[..n - 1] && all[n] == words[n - 1];
      assert Join(all) == (w + Join(words[..n - 1])) + words[n - 1];
    }
  }

  lemma {:induction false} CharsWords(s: string) returns (words: seq<string>)
    ensures |words| == |Chars(s)| && Join(words) == s && forall i | 0 <= i < |words| :: Matches(Chars(s)[i], words[i])
  {
    words := [];
    if s != "" {
      var rest := CharsWords(s[1..]);
      words := [[s[0]]] + rest;
      JoinCons([s[0]], rest);
    }
  }

  lemma {:induction false} CharsMatchText(s: string, out: string)
    ensures Matches(Concat(Chars(s)), out) <==> out == s
  {
    if Matches(Concat(Chars(s)), out) {
      var words: seq<string> :| |words| == |Chars(s)| && Join(words) == out &&
                                forall i | 0 <= i < |words| :: Matches(Chars(s)[i], words[i]);
      CharsMatch(s, words);
    }
    var words := CharsWords(s);
  }

  /** A text of literals matches itself, and nothing else. */
  lemma {:induction false} PlainMatches(s: string, out: string)
    requires IsPlain(s)
    ensures InLanguage(s, out) <==> out == s
  {
    PlainDerives(s);
    OneDerivation(s);
    CharsMatchText(s, out);
  }

  lemma {:induction false} Utf8IsPlain(s: string)
    requires IsPlain(s)
    ensures IsPlain(Utf8(s))
  {
    if s != "" { Utf8IsPlain(s[1..]); }
  }

  /** For a pattern of literals alone, what is written is the bytes, each as a character of its
      own: it is in the pattern's language exactly where the pattern is in ASCII. */
  lemma {:induction false} PlainWritten(re: string, out: string)
    requires IsPlain(re) && InLanguage(Utf8(re), out)
    ensures out == Utf8(re)
    ensures InLanguage(re, out) <==> IsAscii(re)
  {
    Utf8IsPlain(re);
    PlainMatches(Utf8(re), out);
    PlainMatches(re, out);
    AsciiIsItsBytes(re);
  }

  const ACCENT: char := '\U{e9}'

  lemma {:induction false} AccentBytes()
    ensures Utf8([ACCENT]) == "\U{c3}\U{a9}" && IsPlain([ACCENT]) && Chars([ACCENT]) == [Char(ACCENT)]
  {
    assert [ACCENT][1..] == "" && Utf8("") == "" && Chars("") == [];
    assert 0xC0 + 0xE9 / 64 == 0xC3 && 0x80 + 0xE9 % 64 == 0xA9;
  }

  /** The pattern of an e with an acute accent writes two other characters. */
  lemma {:induction false} AccentWritten(out: string)
    requires InLanguage(Utf8([ACCENT]), out)
    ensures out == "\U{c3}\U{a9}"
    ensures IsAlternation(Concat([Char(ACCENT)]), [ACCENT]) && !Matches(Concat([Char(ACCENT)]), out)
  {
    AccentBytes();
    PlainWritten([ACCENT], out);
    PlainDerives([ACCENT]);
    CharsMatchText([ACCENT], out);
  }

  /** Pattern on a text as it stands: every text can be given, and what is written is in the
      language of an ASCII pattern's characters, and the bytes of one of literals alone. */
  method PatternOfText(s: Synthesizer, re: string) returns (out: Option<string>)
    modifies s
    ensures out.Some? <==> HasDerivation(Utf8(re))
    ensures out.Some? ==> InLanguage(Utf8(re), out.value)
    ensures out.Some? && IsAscii(re) ==> InLanguage(re, out.value)
    ensures IsPlain(re) ==> out == Some(Utf8(re))
  {
    Utf8IsPattern(re);
    out := Pattern(s, Utf8(re));
    if out.Some? && IsAscii(re) { AsciiWritten(re, out.value); }
    if IsPlain(re) {
      Utf8IsPlain(re);
      PlainDerives(Utf8(re));
      PlainWritten(re, out.value);
    }
  }
}
