/** JSON Pointer token escaping (internal/asyncapi/document.go), section 3 and 4 of RFC 6901. */
module PointerTokens {

  /** strings.ReplaceAll of one character. */
  function ReplaceChar(s: string, c: char, sub: string): string {
    if s == "" then "" else (if s[0] == c then sub else [s[0]]) + ReplaceChar(s[1..], c, sub)
  }

  /** strings.ReplaceAll of two adjacent characters, leftmost first. */
  function ReplacePair(s: string, a: char, b: char, sub: char): string {
    if s == "" then ""
    else if |s| >= 2 && s[0] == a && s[1] == b then [sub] + ReplacePair(s[2..], a, b, sub)
    else [s[0]] + ReplacePair(s[1..], a, b, sub)
  }

  function EscapeToken(s: string): string {
    ReplaceChar(ReplaceChar(s, '~', "~0"), '/', "~1")
  }

  function UnescapeToken(s: string): string {
    ReplacePair(ReplacePair(s, '~', '1', '/'), '~', '0', '~')
  }

  /** A token as RFC 6901 writes one: no '/', and '~' only as "~0" or "~1". */
  ghost predicate WellFormedToken(s: string) {
    s == "" || (if s[0] == '~' then |s| >= 2 && (s[1] == '0' || s[1] == '1') && WellFormedToken(s[2..])
                else s[0] != '/' && WellFormedToken(s[1..]))
  }

  lemma ReplaceCharCons(c: char, s: string, a: char, sub: string)
    ensures ReplaceChar([c] + s, a, sub) == (if c == a then sub else [c]) + ReplaceChar(s, a, sub)
  {
    assert ([c] + s)[1..] == s;
  }

  lemma EscapeCons(c: char, s: string)
    ensures EscapeToken([c] + s) == (if c == '~' then "~0" else if c == '/' then "~1" else [c]) + EscapeToken(s)
  {
    var t := ReplaceChar(s, '~', "~0");
    ReplaceCharCons(c, s, '~', "~0");
    if c == '~' {
      assert "~0" + t == ['~'] + (['0'] + t);
      ReplaceCharCons('~', ['0'] + t, '/', "~1");
      ReplaceCharCons('0', t, '/', "~1");
      assert ['~'] + (['0'] + ReplaceChar(t, '/', "~1")) == "~0" + ReplaceChar(t, '/', "~1");
    } else {
      ReplaceCharCons(c, t, '/', "~1");
    }
  }

  /** The first replacement of one character and what follows it, escaped. */
  lemma {:induction false} FirstPassStep(c: char, e: string)
    ensures c != '~' && c != '/' ==> ReplacePair([c] + e, '~', '1', '/') == [c] + ReplacePair(e, '~', '1', '/')
    ensures ReplacePair("~1" + e, '~', '1', '/') == ['/'] + ReplacePair(e, '~', '1', '/')
  {
    assert ([c] + e)[1..] == e && ("~1" + e)[2..] == e;
  }

  lemma {:induction false} FirstPassKeepsZero(e: string)
    ensures ReplacePair("~0" + e, '~', '1', '/') == "~0" + ReplacePair(e, '~', '1', '/')
  {
    assert ("~0" + e)[1..] == ['0'] + e;
    FirstPassStep('0', e);
    assert ['~'] + (['0'] + ReplacePair(e, '~', '1', '/')) == "~0" + ReplacePair(e, '~', '1', '/');
  }

  lemma {:induction false} FirstPassUndoes(s: string)
    ensures ReplacePair(EscapeToken(s), '~', '1', '/') == ReplaceChar(s, '~', "~0")
  {
    if s != "" {
      FirstPassUndoes(s[1..]);
      EscapeCons(s[0], s[1..]);
      assert s == [s[0]] + s[1..];
      var e := EscapeToken(s[1..]);
      FirstPassStep(s[0], e);
      FirstPassKeepsZero(e);
    }
  }

  lemma {:induction false} SecondPassUndoes(s: string)
    ensures ReplacePair(ReplaceChar(s, '~', "~0"), '~', '0', '~') == s
  {
    if s != "" {
      SecondPassUndoes(s[1..]);
      var e := ReplaceChar(s[1..], '~', "~0");
      if s[0] == '~' { assert ("~0" + e)[2..] == e; } else { assert ([s[0]] + e)[1..] == e; }
    }
  }

  /** Two sequential replacements each way still undo each other on every string. */
  lemma TokenRoundTrip(s: string)
    ensures UnescapeToken(EscapeToken(s)) == s
  {
    FirstPassUndoes(s);
    SecondPassUndoes(s);
  }

  lemma {:induction false} EscapedIsWellFormed(s: string)
    ensures WellFormedToken(EscapeToken(s))
  {
    if s != "" {
      EscapeCons(s[0], s[1..]);
      assert s == [s[0]] + s[1..];
      EscapedIsWellFormed(s[1..]);
      var e := EscapeToken(s[1..]);
      assert ("~0" + e)[2..] == e && ("~1" + e)[2..] == e && ([s[0]] + e)[1..] == e;
    }
  }

  lemma {:induction false} EveryWellFormedIsEscaped(t: string) returns (s: string)
    requires WellFormedToken(t)
    ensures EscapeToken(s) == t
  {
    if t == "" {
      s := "";
    } else if t[0] == '~' {
      var r := EveryWellFormedIsEscaped(t[2..]);
      var c := if t[1] == '0' then '~' else '/';
      s := [c] + r;
      EscapeCons(c, r);
      assert t == [t[0], t[1]] + t[2..];
    } else {
      var r := EveryWellFormedIsEscaped(t[1..]);
      s := [t[0]] + r;
      EscapeCons(t[0], r);
      assert t == [t[0]] + t[1..];
    }
  }

  /** Reading a token and writing it again changes it exactly when it is not a token
      RFC 6901 allows. */
  lemma TokenCanonical(t: string)
    ensures EscapeToken(UnescapeToken(t)) == t <==> WellFormedToken(t)
  {
    EscapedIsWellFormed(UnescapeToken(t));
    if WellFormedToken(t) {
      var s := EveryWellFormedIsEscaped(t);
      TokenRoundTrip(s);
    }
  }

  predicate HasPrefix(s: string, p: string) { |p| <= |s| && s[..|p|] == p }
}
