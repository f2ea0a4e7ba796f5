/** What the parser of internal/synth/pattern.go reads, as functions of the text that is left. */
module PatternParse {
  import opened JsonValues
  import opened KeyPaths
  import opened PatternAst

  const DIGITS: seq<char> := Range('0', '9')
  const WORD: seq<char> := Range('a', 'z') + Range('A', 'Z') + DIGITS + "_"
  const SPACE: seq<char> := " \t\n\r" + [12 as char]

  /** The characters a backslash takes literally. */
  predicate Escapable(c: char) {
    c == '.' || c == '^' || c == '$' || c == '[' || c == ']' || c == '(' || c == ')' || c == '|' ||
    c == '*' || c == '+' || c == '?' || c == '{' || c == '}' || c == '\\' || c == '-'
  }

  predicate At(s: string, c: char) { s != "" && s[0] == c }

  // ----- Classes -----

  /** The character of a code point; the range of two bytes holds nothing but characters. */
  function CharOf(n: nat): char { if n < 0xD800 || 0xE000 <= n < 0x11_0000 then n as char else ' ' }

  /** The characters of a range. */
  function Range(lo: char, hi: char): seq<char>
    requires lo <= hi
  {
    seq(hi as int - lo as int + 1, i requires 0 <= i <= hi as int - lo as int => CharOf(lo as int + i))
  }

  /** The ranges of a class up to its ']': the pool, and the text from the ']' on. */
  function RangesOf(s: string): (r: Option<(seq<char>, string)>)
    ensures r.Some? ==> |r.value.1| <= |s|
    decreases |s|
  {
    if s == "" || s[0] == ']' then Some(([], s))
    else if |s| >= 3 && s[1] == '-' && s[2] != ']' then
      if s[2] < s[0] then None else
        var rest := RangesOf(s[3..]);
        if rest.None? then None else Some((Range(s[0], s[2]) + rest.value.0, rest.value.1))
    else
      var rest := RangesOf(s[1..]);
      if rest.None? then None else Some(([s[0]] + rest.value.0, rest.value.1))
  }

  /** parseClass after its '['. */
  function ClassOf(s: string): (r: Option<(Rx, string)>)
    ensures r.Some? ==> |r.value.1| < |s|
  {
    if At(s, '^') then None else
      var pool := RangesOf(s);
      if pool.None? || !At(pool.value.1, ']') || pool.value.0 == [] then None
      else Some((Set(pool.value.0), pool.value.1[1..]))
  }

  /** parseEscape after its backslash. */
  function EscapeOf(s: string): (r: Option<(Rx, string)>)
    ensures r.Some? ==> |r.value.1| < |s|
  {
    if s == "" then None
    else if s[0] == 'd' then Some((Set(DIGITS), s[1..]))
    else if s[0] == 'w' then Some((Set(WORD), s[1..]))
    else if s[0] == 's' then Some((Set(SPACE), s[1..]))
    else if Escapable(s[0]) then Some((Char(s[0]), s[1..]))
    else None
  }

  // ----- Quantifiers -----

  /** How many characters at the start of s are digits. */
  function DigitSpan(s: string): (n: nat)
    ensures n <= |s| && AllDigits(s[..n]) && (n < |s| ==> !IsDigit(s[n]))
  {
    if s == "" || !IsDigit(s[0]) then 0
    else
      var n := DigitSpan(s[1..]);
      assert s[..1 + n] == [s[0]] + s[1..][..n];
      1 + n
  }

  /** strconv.Atoi of digits, the largest int when they are more than it holds. */
  function Count(digits: string): nat
    requires AllDigits(digits)
  {
    if Decimal(digits) <= MAX_INT then Decimal(digits) else MAX_INT
  }

  /** parseQuant after its ',', when it asks for at least n. */
  function MostOf(n: nat, s: string): (r: Option<(nat, nat, string)>)
    ensures r.Some? ==> |r.value.2| < |s| && r.value.0 <= r.value.1
  {
    var m := DigitSpan(s);
    if m == 0 || !At(s[m..], '}') || Count(s[..m]) < n then None else Some((n, Count(s[..m]), s[m..][1..]))
  }

  /** parseQuant after its first digits, which ask for n. */
  function TailOf(n: nat, s: string): (r: Option<(nat, nat, string)>)
    ensures r.Some? ==> |r.value.2| < |s| && r.value.0 <= r.value.1
  {
    if At(s, ',') then MostOf(n, s[1..])
    else if At(s, '}') then Some((n, n, s[1..]))
    else None
  }

  /** parseQuant after its '{': the counts and the text after the '}'. */
  function BracesOf(s: string): (r: Option<(nat, nat, string)>)
    ensures r.Some? ==> |r.value.2| < |s| && r.value.0 <= r.value.1
  {
    var n := DigitSpan(s);
    if n == 0 then None else TailOf(Count(s[..n]), s[n..])
  }

  // ----- The grammar's levels -----

  function AtomOf(s: string): (r: Option<(Rx, string)>)
    requires s != ""
    ensures r.Some? ==> |r.value.1| < |s|
    decreases |s|, 0
  {
    if s[0] == '^' || s[0] == '$' then Some((Anchor, s[1..]))
    else if s[0] == '.' then None
    else if s[0] == '\\' then EscapeOf(s[1..])
    else if s[0] == '[' then ClassOf(s[1..])
    else if s[0] == '(' then
      var inner := AltOf(s[1..]);
      if inner.None? || !At(inner.value.1, ')') then None else Some((inner.value.0, inner.value.1[1..]))
    else Some((Char(s[0]), s[1..]))
  }

  function Counted(atom: Rx, q: Option<(nat, nat, string)>): Option<(Rx, string)> {
    if q.None? then None else Some((Repeat(atom, q.value.0, Some(q.value.1)), q.value.2))
  }

  /** The quantifier after an atom, if any. */
  function QuantOf(atom: Rx, s: string): (r: Option<(Rx, string)>)
    ensures r.Some? ==> |r.value.1| <= |s|
  {
    if At(s, '{') then Counted(atom, BracesOf(s[1..]))
    else if At(s, '*') then Some((Repeat(atom, 0, None), s[1..]))
    else if At(s, '+') then Some((Repeat(atom, 1, None), s[1..]))
    else if At(s, '?') then Some((Repeat(atom, 0, Some(1)), s[1..]))
    else Some((atom, s))
  }

  function PieceOf(s: string): (r: Option<(Rx, string)>)
    requires s != ""
    ensures r.Some? ==> |r.value.1| < |s|
    decreases |s|, 1
  {
    var atom := AtomOf(s);
    if atom.None? then None else QuantOf(atom.value.0, atom.value.1)
  }

  predicate Stops(s: string) { s == "" || s[0] == '|' || s[0] == ')' }

  function ConcatOf(s: string): (r: Option<(seq<Rx>, string)>)
    ensures r.Some? ==> |r.value.1| <= |s| && Stops(r.value.1)
    decreases |s|, 2
  {
    if Stops(s) then Some(([], s)) else
      var piece := PieceOf(s);
      if piece.None? then None else
        var rest := ConcatOf(piece.value.1);
        if rest.None? then None else Some(([piece.value.0] + rest.value.0, rest.value.1))
  }

  /** The further branches of an alternation. */
  function MoreOf(s: string): (r: Option<(seq<Rx>, string)>)
    ensures r.Some? ==> |r.value.1| <= |s|
    decreases |s|, 0
  {
    if !At(s, '|') then Some(([], s)) else
      var first := ConcatOf(s[1..]);
      if first.None? then None else
        var rest := MoreOf(first.value.1);
        if rest.None? then None else Some(([Concat(first.value.0)] + rest.value.0, rest.value.1))
  }

  function Chosen(branches: seq<Rx>): Rx
    requires branches != []
  {
    if |branches| == 1 then branches[0] else Either(branches)
  }

  function AltOf(s: string): (r: Option<(Rx, string)>)
    ensures r.Some? ==> |r.value.1| <= |s|
    decreases |s|, 3
  {
    var first := ConcatOf(s);
    if first.None? then None else
      var more := MoreOf(first.value.1);
      if more.None? then None else Some((Chosen([Concat(first.value.0)] + more.value.0), more.value.1))
  }
}
