/** sort.Strings as the program uses it: the strings of a set in ascending order. */
module Sorting {

  /** Go's string order: lexicographic, a proper prefix first. */
  predicate Leq(a: string, b: string) {
    |a| == 0 || (|b| > 0 && (a[0] < b[0] || (a[0] == b[0] && Leq(a[1..], b[1..]))))
  }

  /** The first difference decides, and where there is none the shorter comes first. */
  lemma {:induction false} FirstDifferenceDecides(a: string, b: string, i: nat)
    requires i <= |a| && i <= |b| && a[..i] == b[..i] && (i < |a| && i < |b| ==> a[i] != b[i])
    ensures Leq(a, b) <==> i == |a| || (i < |b| && a[i] < b[i])
    decreases i
  {
    if i > 0 {
      assert a[0] == a[..i][0] == b[..i][0] == b[0];
      assert a[1..][..i - 1] == a[..i][1..] && b[1..][..i - 1] == b[..i][1..];
      FirstDifferenceDecides(a[1..], b[1..], i - 1);
    }
  }

  lemma LeqTotal(a: string, b: string)
    ensures Leq(a, b) || Leq(b, a)
  {
    if |a| > 0 && |b| > 0 && a[0] == b[0] { LeqTotal(a[1..], b[1..]); }
  }

  lemma LeqAntisymmetric(a: string, b: string)
    requires Leq(a, b) && Leq(b, a)
    ensures a == b
  {
    if |a| > 0 {
      LeqAntisymmetric(a[1..], b[1..]);
      assert a == [a[0]] + a[1..] && b == [b[0]] + b[1..];
    }
  }

  lemma LeqTransitive(a: string, b: string, c: string)
    requires Leq(a, b) && Leq(b, c)
    ensures Leq(a, c)
  {
    if |a| > 0 && a[0] == b[0] && b[0] == c[0] { LeqTransitive(a[1..], b[1..], c[1..]); }
  }

  predicate IsLeast(m: string, s: set<string>) {
    m in s && forall x | x in s :: Leq(m, x)
  }

  lemma LeastExists(s: set<string>)
    requires s != {}
    ensures exists m :: IsLeast(m, s)
  {
    var x :| x in s;
    if s == {x} {
      LeqTotal(x, x);
      assert IsLeast(x, s);
    } else {
      LeastExists(s - {x});
      var m :| IsLeast(m, s - {x});
      LeqTotal(m, x);
      LeqTotal(x, x);
      var l := if Leq(m, x) then m else x;
      forall y | y in s ensures Leq(l, y) {
        if y != x && l == x { LeqTransitive(x, m, y); }
      }
      assert IsLeast(l, s);
    }
  }

  function Least(s: set<string>): (m: string)
    requires s != {}
    ensures IsLeast(m, s)
  {
    LeastExists(s);
    LeastUnique(s);
    var m :| m in s && IsLeast(m, s);
    m
  }

  lemma LeastUnique(s: set<string>)
    ensures forall a, b | IsLeast(a, s) && IsLeast(b, s) :: a == b
  {
    forall a, b | IsLeast(a, s) && IsLeast(b, s) ensures a == b { LeqAntisymmetric(a, b); }
  }

  ghost predicate Sorted(xs: seq<string>) {
    forall i, j | 0 <= i < j < |xs| :: Leq(xs[i], xs[j])
  }

  ghost predicate Distinct<T>(xs: seq<T>) {
    forall i, j | 0 <= i < j < |xs| :: xs[i] != xs[j]
  }

  lemma {:induction false} TakeOneMore<T>(s: seq<T>, i: nat)
    requires i < |s|
    ensures s[..i + 1] == s[..i] + [s[i]]
  {
  }

  function Elements<T>(xs: seq<T>): set<T> { set x | x in xs }

  lemma ElementsSnoc<T>(xs: seq<T>, x: T)
    ensures Elements(xs + [x]) == Elements(xs) + {x}
  {
  }

  /** A least string before the others, sorted. */
  lemma {:induction false} LeastFirst(m: string, rest: seq<string>, s: set<string>)
    requires IsLeast(m, s) && Sorted(rest) && Distinct(rest) && Elements(rest) == s - {m}
    ensures Sorted([m] + rest) && Distinct([m] + rest) && Elements([m] + rest) == s
  {
    assert forall i | 0 <= i < |rest| :: rest[i] in Elements(rest);
    assert Elements([m] + rest) == {m} + Elements(rest);
  }

  /** The set's strings, each once, ascending. */
  function SortStrings(s: set<string>): (r: seq<string>)
    ensures Sorted(r) && Distinct(r) && Elements(r) == s
    decreases |s|
  {
    if s == {} then [] else
      var m := Least(s);
      var rest := SortStrings(s - {m});
      LeastFirst(m, rest, s);
      [m] + rest
  }

  /** The first position of a string, or the length. */
  function IndexOf(keys: seq<string>, k: string): (i: nat)
    ensures i <= |keys| && (i < |keys| ==> keys[i] == k) && forall j | 0 <= j < i :: keys[j] != k
  {
    if keys == [] || keys[0] == k then 0 else 1 + IndexOf(keys[1..], k)
  }
}
