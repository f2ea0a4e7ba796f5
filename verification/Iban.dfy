/** IBAN check digits (internal/synth/text.go), as ISO 13616 asks for. */
module Iban {
  import opened KeyPaths
  import opened Draws

  predicate IsUpper(c: char) { 'A' <= c <= 'Z' }

  /** The number a string stands for, letters expanded to two digits, A being 10; other characters
      stand for nothing. */
  function Number(s: string): nat {
    if s == "" then 0
    else
      var n, c := Number(s[..|s| - 1]), s[|s| - 1];
      if IsDigit(c) then n * 10 + DigitValue(c)
      else if IsUpper(c) then n * 100 + (c as int - 'A' as int) + 10
      else n
  }

  /** ISO 13616's conversion: each letter written as the two digits of its number, A as 10 and Z as 35. */
  function Converted(s: string): (d: string)
    ensures AllDigits(d)
  {
    if s == "" then "" else
      var before, c := Converted(s[..|s| - 1]), s[|s| - 1];
      if IsDigit(c) then before + [c]
      else if IsUpper(c) then before + LetterDigits(c)
      else before
  }

  function LetterDigits(c: char): (d: string)
    requires IsUpper(c)
    ensures |d| == 2 && AllDigits(d)
  {
    if c <= 'J' then ['1', '0' + (c as int - 'A' as int) as char]
    else if c <= 'T' then ['2', '0' + (c as int - 'K' as int) as char]
    else ['3', '0' + (c as int - 'U' as int) as char]
  }

  /** The number a string stands for is its conversion, read in decimal. */
  lemma {:induction false} NumberIsConverted(s: string)
    ensures Number(s) == Decimal(Converted(s))
  {
    if s != "" {
      NumberIsConverted(s[..|s| - 1]);
      var before, c := Converted(s[..|s| - 1]), s[|s| - 1];
      if IsDigit(c) {
        assert (before + [c])[..|before|] == before;
      } else if IsUpper(c) {
        var d := LetterDigits(c);
        var one := before + [d[0]];
        assert one[..|before|] == before && (before + d)[..|before| + 1] == one;
        assert Decimal(one) == Decimal(before) * 10 + DigitValue(d[0]);
      }
    }
  }

  lemma {:induction false} ModStep(n: nat, m: nat, d: nat)
    ensures ((n % 97) * m + d) % 97 == (n * m + d) % 97
  {
    var q := n / 97;
    assert n == 97 * q + n % 97;
    assert n * m + d == (n % 97) * m + d + 97 * (q * m);
    ModShift((n % 97) * m + d, q * m);
  }

  lemma {:induction false} ModShift(a: nat, k: nat)
    ensures (a + 97 * k) % 97 == a % 97
  {
    if k > 0 {
      ModShift(a, k - 1);
      assert (a + 97 * k) % 97 == (a + 97 * (k - 1)) % 97;
    }
  }

  /** mod97: the fold digit by digit is the whole number's remainder, whatever the length. */
  method Mod97(s: string) returns (rem: nat)
    ensures rem == Number(s) % 97
  {
    rem := 0;
    for i := 0 to |s|
      invariant rem == Number(s[..i]) % 97
    {
      var r := s[i];
      assert s[..i + 1][..i] == s[..i];
      if IsDigit(r) {
        ModStep(Number(s[..i]), 10, DigitValue(r));
        rem := (rem * 10 + DigitValue(r)) % 97;
      } else if IsUpper(r) {
        ModStep(Number(s[..i]), 100, r as int - 'A' as int + 10);
        rem := (rem * 100 + (r as int - 'A' as int) + 10) % 97;
      }
    }
    assert s[..|s|] == s;
  }

  /** %02d of a number below one hundred. */
  function TwoDigits(n: nat): string
    requires n < 100
  {
    [Digit(n / 10), Digit(n % 10)]
  }

  lemma {:induction false} NumberOfTwo(s: string, n: nat)
    requires n < 100
    ensures Number(s + TwoDigits(n)) == Number(s) * 100 + n
  {
    var one := s + [Digit(n / 10)];
    assert one[..|s|] == s;
    assert (s + TwoDigits(n))[..|s| + 1] == one;
    assert IsDigit(Digit(n / 10)) && IsDigit(Digit(n % 10));
    assert Number(one) == Number(s) * 10 + n / 10;
  }

  /** A country's layout: 'a' stands for a letter, anything else for a digit. */
  datatype Layout = Layout(country: string, bban: string)

  predicate Fits(bban: string, layout: string) {
    |bban| == |layout| && forall i | 0 <= i < |bban| :: if layout[i] == 'a' then IsUpper(bban[i]) else IsDigit(bban[i])
  }

  /** An IBAN as checked: its first four characters moved to the end. */
  function Rearranged(iban: string): string
    requires |iban| >= 4
  {
    iban[4..] + iban[..4]
  }

  /** 98 less the remainder leaves one. */
  lemma {:induction false} CheckLeavesOne(x: string, check: nat)
    requires check == 98 - Number(x + "00") % 97
    ensures 2 <= check <= 98 && Number(x + TwoDigits(check)) % 97 == 1
  {
    assert "00" == TwoDigits(0);
    NumberOfTwo(x, 0);
    NumberOfTwo(x, check);
    var n := Number(x) * 100;
    ModShift(1, n / 97 + 1);
    assert n + check == 1 + 97 * (n / 97 + 1);
  }

  /** iban: country, two check digits and a BBAN of the country's layout, one modulo 97. */
  method Build(s: Synthesizer, layouts: seq<Layout>) returns (iban: string)
    requires layouts != [] && forall l | l in layouts :: |l.country| == 2
    modifies s
    ensures exists l, bban, check | l in layouts && Fits(bban, l.bban) && 2 <= check <= 98 ::
      iban == l.country + TwoDigits(check) + bban
    ensures |iban| >= 4 && Number(Rearranged(iban)) % 97 == 1
  {
    var k := s.Pick(|layouts|);
    var spec := layouts[k];
    assert spec in layouts;
    var bban := "";
    for i := 0 to |spec.bban|
      invariant Fits(bban, spec.bban[..i])
    {
      assert spec.bban[..i + 1][..i] == spec.bban[..i];
      if spec.bban[i] == 'a' {
        var d := s.Pick(26);
        bban := bban + ['A' + d as char];
      } else {
        var d := s.Pick(10);
        bban := bban + [Digit(d)];
      }
    }
    assert spec.bban[..|spec.bban|] == spec.bban;
    var rem := Mod97(bban + spec.country + "00");
    var check := 98 - rem;
    CheckLeavesOne(bban + spec.country, check);
    iban := spec.country + TwoDigits(check) + bban;
    assert Rearranged(iban) == bban + spec.country + TwoDigits(check);
  }
}
