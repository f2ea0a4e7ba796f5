/** Planting paths and their -keyPath syntax (internal/planting/path.go). */
module KeyPaths {
  import opened JsonValues
  import opened Paths

  const MAX_INT: int := 0x7fff_ffff_ffff_ffff

  // ----- strconv.Itoa and strconv.Atoi -----

  function Digit(d: nat): char
    requires d < 10
  {
    '0' + d as char
  }

  predicate IsDigit(c: char) { '0' <= c <= '9' }

  function DigitValue(c: char): nat
    requires IsDigit(c)
  {
    (c - '0') as nat
  }

  function Itoa(n: nat): string {
    if n < 10 then [Digit(n)] else Itoa(n / 10) + [Digit(n % 10)]
  }

  predicate AllDigits(s: string) { forall i | 0 <= i < |s| :: IsDigit(s[i]) }

  function Decimal(s: string): nat
    requires AllDigits(s)
  {
    if s == "" then 0 else Decimal(s[..|s| - 1]) * 10 + DigitValue(s[|s| - 1])
  }

  /** An optional sign, then digits, within int. */
  function Atoi(s: string): Option<int> {
    var digits := if s != "" && (s[0] == '+' || s[0] == '-') then s[1..] else s;
    if digits == "" || !AllDigits(digits) then None
    else
      var n := if s[0] == '-' then -(Decimal(digits) as int) else Decimal(digits);
      if -MAX_INT - 1 <= n <= MAX_INT then Some(n) else None
  }

  lemma {:induction false} ItoaDecimal(n: nat)
    ensures Itoa(n) != "" && AllDigits(Itoa(n)) && Decimal(Itoa(n)) == n
  {
    if n >= 10 {
      ItoaDecimal(n / 10);
      assert Itoa(n)[..|Itoa(n)| - 1] == Itoa(n / 10);
    } else {
      assert Itoa(n)[..0] == "";
    }
  }

  /** Every index an int holds prints and reads back as itself. */
  lemma AtoiItoa(n: nat)
    requires n <= MAX_INT
    ensures Atoi(Itoa(n)) == Some(n)
  {
    ItoaDecimal(n);
    assert IsDigit(Itoa(n)[0]);
  }

  predicate Zeros(s: string) { forall i | 0 <= i < |s| :: s[i] == '0' }

  lemma {:induction false} ZerosBefore(zeros: string, s: string)
    requires Zeros(zeros) && AllDigits(s)
    ensures AllDigits(zeros + s) && Decimal(zeros + s) == Decimal(s)
  {
    var all := zeros + s;
    if s != "" {
      ZerosBefore(zeros, s[..|s| - 1]);
      assert all[..|all| - 1] == zeros + s[..|s| - 1];
    } else if zeros != "" {
      ZerosBefore(zeros[..|zeros| - 1], "");
      assert zeros + "" == zeros && zeros[..|zeros| - 1] + "" == zeros[..|zeros| - 1];
    }
  }

  /** Signs and leading zeros are read as in any decimal. */
  lemma {:induction false} AtoiReads(zeros: string, n: nat)
    requires Zeros(zeros) && n <= MAX_INT
    ensures var s := zeros + Itoa(n);
      Atoi(s) == Some(n) && Atoi("+" + s) == Some(n) && Atoi("-" + s) == Some(-(n as int))
  {
    var s := zeros + Itoa(n);
    ItoaDecimal(n);
    ZerosBefore(zeros, Itoa(n));
    assert s != "" && IsDigit(s[0]);
    assert ("+" + s)[1..] == s && ("-" + s)[1..] == s;
  }

  // ----- PathString -----

  function StepString(s: Step): string {
    if s.index >= 0 then "[" + Itoa(s.index) + "]" else s.field
  }

  /** A step after the first: a field is set off by a dot. */
  function StepTail(s: Step): string { (if s.index < 0 then "." else "") + StepString(s) }

  function PrintTail(path: seq<Step>): string {
    if path == [] then "" else StepTail(path[0]) + PrintTail(path[1..])
  }

  function PathString(path: seq<Step>): string {
    if path == [] then "" else StepString(path[0]) + PrintTail(path[1..])
  }

  lemma {:induction false} PrintTailSnoc(path: seq<Step>, s: Step)
    ensures PrintTail(path + [s]) == PrintTail(path) + StepTail(s)
  {
    if path == [] {
      assert path + [s] == [s] && [s][1..] == [];
    } else {
      var rest := path[1..];
      assert (path + [s])[1..] == rest + [s];
      PrintTailSnoc(rest, s);
      Joined(StepTail(path[0]), PrintTail(rest), StepTail(s));
    }
  }

  lemma Joined(a: string, b: string, c: string)
    ensures a + (b + c) == (a + b) + c
  {
  }

  lemma {:induction false} PathStringSnoc(path: seq<Step>, s: Step)
    ensures PathString(path + [s]) ==
              if path == [] then StepString(s)
              else PathString(path) + StepTail(s)
  {
    if path == [] {
      assert path + [s] == [s] && [s][1..] == [];
    } else {
      var rest := path[1..];
      assert (path + [s])[1..] == rest + [s];
      PrintTailSnoc(rest, s);
      Joined(StepString(path[0]), PrintTail(rest), StepTail(s));
    }
  }

  /** What the loop of PathString writes for one step. */
  function StepWritten(path: seq<Step>, i: nat): string
    requires i < |path|
  {
    (if path[i].index < 0 && i > 0 then "." else "") + StepString(path[i])
  }

  lemma {:induction false} PathStringAt(path: seq<Step>, i: nat)
    requires i < |path|
    ensures PathString(path[..i + 1]) == PathString(path[..i]) + StepWritten(path, i)
  {
    assert path[..i + 1] == path[..i] + [path[i]];
    PathStringSnoc(path[..i], path[i]);
    if i == 0 { assert path[..i] == []; }
  }

  method WritePath(path: seq<Step>) returns (r: string)
    ensures r == PathString(path)
  {
    r := "";
    for i := 0 to |path|
      invariant r == PathString(path[..i])
    {
      PathStringAt(path, i);
      var step := (if path[i].index < 0 && i > 0 then "." else "") + StepString(path[i]);
      assert step == StepWritten(path, i);
      r := r + step;
    }
    assert path[..|path|] == path;
  }

  // ----- ParsePath -----

  /** The position of the first ']' at or after i, or the end. */
  function Closing(s: string, i: nat): (e: nat)
    requires i <= |s|
    ensures i <= e <= |s| && (e < |s| ==> s[e] == ']') && forall j | i <= j < e :: s[j] != ']'
    decreases |s| - i
  {
    if i == |s| || s[i] == ']' then i else Closing(s, i + 1)
  }

  lemma ClosingAt(s: string, i: nat, e: nat)
    requires i <= e <= |s| && (e < |s| ==> s[e] == ']') && forall j | i <= j < e :: s[j] != ']'
    ensures Closing(s, i) == e
  {
  }

  function Flush(buf: string, steps: seq<Step>): seq<Step> {
    if buf == "" then steps else steps + [FieldStep(buf)]
  }

  /** What ParsePath still makes of s, with buf unflushed and steps already read. */
  function Scan(s: string, buf: string, steps: seq<Step>): Option<seq<Step>>
    decreases |s|, 1
  {
    if s == "" then Some(Flush(buf, steps))
    else if s[0] == '.' then Scan(s[1..], "", Flush(buf, steps))
    else if s[0] == '[' then
      var end := Closing(s, 1);
      if end == |s| then None else ScanIndexed(Atoi(s[1..end]), s[end + 1..], Flush(buf, steps))
    else Scan(s[1..], buf + [s[0]], steps)
  }

  /** What is made of the text after a bracketed index. */
  function ScanIndexed(n: Option<int>, rest: string, steps: seq<Step>): Option<seq<Step>>
    decreases |rest|, 2
  {
    if n.None? || n.value < 0 then None else Scan(rest, "", steps + [IndexStep(n.value)])
  }

  /** The steps of a key path; None where ParsePath returns a PathError. */
  function ParsePath(path: string): Option<seq<Step>> {
    if path == "" then None else
      var steps := Scan(path, "", []);
      if steps == Some([]) then None else steps
  }

  lemma {:induction false} ScanShut(s: string, buf: string, steps: seq<Step>)
    requires s != "" && s[0] == '[' && Closing(s, 1) == |s|
    ensures Scan(s, buf, steps) == None
  {
  }

  lemma {:induction false} ScanOpen(s: string, buf: string, steps: seq<Step>, end: nat, read: Option<int>, rest: string)
    requires s != "" && s[0] == '[' && end == Closing(s, 1) < |s| && read == Atoi(s[1..end]) && rest == s[end + 1..]
    ensures Scan(s, buf, steps) ==
              if read.None? || read.value < 0 then None
              else Scan(rest, "", Flush(buf, steps) + [IndexStep(read.value)])
  {
    assert Scan(s, buf, steps) == ScanIndexed(read, rest, Flush(buf, steps));
  }

  /** A bracket that nothing closes. */
  lemma {:induction false} ScanUnclosed(path: string, i: nat, buf: string, steps: seq<Step>)
    requires i < |path| && path[i] == '[' && Closing(path, i + 1) == |path|
    ensures GoesOn(path, i, buf, steps, None, |path|)
  {
    ClosingShift(path, i, 1);
    ScanShut(path[i..], buf, steps);
  }

  /** One bracketed index read in place, at position i of the whole path. */
  lemma {:induction false} ScanRead(path: string, i: nat, buf: string, steps: seq<Step>, end: nat, read: Option<int>)
    requires i < |path| && path[i] == '[' && end == Closing(path, i + 1) < |path| && read == Atoi(path[i + 1..end])
    ensures Scan(path[i..], buf, steps) ==
              if read.None? || read.value < 0 then None
              else Scan(path[end + 1..], "", Flush(buf, steps) + [IndexStep(read.value)])
  {
    ClosingShift(path, i, 1);
    BracketSlices(path, i, end);
    ScanOpen(path[i..], buf, steps, end - i, read, path[end + 1..]);
  }

  lemma {:induction false} BracketSlices(path: string, i: nat, end: nat)
    requires i < end <= |path|
    ensures end < |path| ==> path[i..][1..end - i] == path[i + 1..end] && path[i..][end - i + 1..] == path[end + 1..]
  {
  }

  lemma {:induction false} ScanPlain(path: string, i: nat, buf: string, steps: seq<Step>)
    requires i < |path| && path[i] != '['
    ensures Scan(path[i..], buf, steps) ==
              if path[i] == '.' then Scan(path[i + 1..], "", Flush(buf, steps))
              else Scan(path[i + 1..], buf + [path[i]], steps)
  {
    assert path[i..][1..] == path[i + 1..];
  }

  lemma {:induction false} ClosingShift(s: string, i: nat, a: nat)
    requires i + a <= |s|
    ensures Closing(s[i..], a) == Closing(s, i + a) - i
    decreases |s| - i - a
  {
    if i + a < |s| && s[i + a] != ']' { ClosingShift(s, i, a + 1); }
  }

  method FindClosing(path: string, i: nat) returns (end: nat)
    requires i <= |path|
    ensures end == Closing(path, i)
  {
    end := i;
    while end < |path| && path[end] != ']'
      invariant i <= end <= |path|
      invariant forall j | i <= j < end :: path[j] != ']'
    {
      end := end + 1;
    }
    ClosingAt(path, i, end);
  }

  /** A bracketed index at position i, and the position after it. */
  method ReadIndex(path: string, i: nat, ghost buf: string, ghost steps: seq<Step>) returns (n: Option<nat>, after: nat)
    requires i < |path| && path[i] == '['
    ensures i < after <= |path| && GoesOn(path, i, buf, steps, n, after)
  {
    var end := FindClosing(path, i + 1);
    if end >= |path| {
      ScanUnclosed(path, i, buf, steps);
      return None, |path|;
    }
    var read := Atoi(path[i + 1..end]);
    after := end + 1;
    n := if read.None? || read.value < 0 then None else Some(read.value);
    IndexGoesOn(path, i, buf, steps, end, read, n);
  }

  /** The scan at i reads the index n and goes on after it, or fails where there is none. */
  ghost predicate GoesOn(path: string, i: nat, buf: string, steps: seq<Step>, n: Option<nat>, after: nat)
    requires i <= |path| && after <= |path|
  {
    Scan(path[i..], buf, steps) ==
      if n.None? then None else Scan(path[after..], "", Flush(buf, steps) + [IndexStep(n.value)])
  }

  lemma {:induction false} IndexGoesOn(path: string, i: nat, buf: string, steps: seq<Step>, end: nat, read: Option<int>,
                                       n: Option<nat>)
    requires i < |path| && path[i] == '[' && end == Closing(path, i + 1) < |path| && read == Atoi(path[i + 1..end])
    requires n == if read.None? || read.value < 0 then None else Some(read.value)
    ensures GoesOn(path, i, buf, steps, n, end + 1)
  {
    ScanRead(path, i, buf, steps, end, read);
  }

  method ReadPath(path: string) returns (r: Option<seq<Step>>)
    ensures r == ParsePath(path)
  {
    if path == "" { return None; }
    ghost var whole := Scan(path, "", []);
    var steps: seq<Step> := [];
    var buf := "";
    var i := 0;
    assert path[0..] == path;
    while i < |path|
      invariant i <= |path|
      invariant whole == Scan(path[i..], buf, steps)
    {
      if path[i] == '[' {
        var n, after := ReadIndex(path, i, buf, steps);
        if n.None? { return None; }
        steps := Flush(buf, steps) + [IndexStep(n.value)];
        buf := "";
        i := after;
      } else {
        ScanPlain(path, i, buf, steps);
        if path[i] == '.' {
          steps := Flush(buf, steps);
          buf := "";
        } else {
          buf := buf + [path[i]];
        }
        i := i + 1;
      }
    }
    assert path[i..] == "";
    steps := Flush(buf, steps);
    r := if steps == [] then None else Some(steps);
  }

  // ----- Round trip -----

  predicate PlainName(name: string) { name != "" && '.' !in name && '[' !in name }

  /** The steps ParsePath can return. */
  predicate KeyStep(s: Step) {
    !s.token && if s.index >= 0 then s.field == "" && s.index <= MAX_INT else s.index == -1 && PlainName(s.field)
  }

  predicate KeySteps(path: seq<Step>) { forall i | 0 <= i < |path| :: KeyStep(path[i]) }

  lemma {:induction false} ScanName(name: string, rest: string, buf: string, steps: seq<Step>)
    requires '.' !in name && '[' !in name
    ensures Scan(name + rest, buf, steps) == Scan(rest, buf + name, steps)
  {
    if name == "" {
      assert name + rest == rest && buf + name == buf;
    } else {
      assert (name + rest)[1..] == name[1..] + rest;
      assert name[0] in name;
      ScanName(name[1..], rest, buf + [name[0]], steps);
      assert buf + [name[0]] + name[1..] == buf + name;
    }
  }

  lemma ScanIndex(n: nat, rest: string, buf: string, steps: seq<Step>)
    requires n <= MAX_INT
    ensures Scan("[" + Itoa(n) + "]" + rest, buf, steps) == Scan(rest, "", Flush(buf, steps) + [IndexStep(n)])
  {
    var s := "[" + Itoa(n) + "]" + rest;
    ItoaDecimal(n);
    AtoiItoa(n);
    var d := Itoa(n);
    var k := 1 + |d|;
    assert s[k] == ']';
    assert forall j | 1 <= j < k :: s[j] == d[j - 1] && IsDigit(d[j - 1]);
    assert Closing(s, 1) == k;
    assert s[1..k] == d;
    assert s[k + 1..] == rest;
  }

  /** What is left of a printed path reads back as its steps, after buf is flushed. */
  lemma {:induction false} ScanTail(path: seq<Step>, buf: string, steps: seq<Step>)
    requires KeySteps(path)
    ensures Scan(PrintTail(path), buf, steps) == Some(Flush(buf, steps) + path)
  {
    var done := Flush(buf, steps);
    if path == [] {
      assert done + [] == done;
    } else {
      var s, more := path[0], path[1..];
      if s.index >= 0 {
        ScanTail(more, "", done + [s]);
        TailIndex(path, buf, steps);
      } else {
        ScanTail(more, s.field, done);
        TailField(path, buf, steps);
      }
    }
  }

  lemma TailIndex(path: seq<Step>, buf: string, steps: seq<Step>)
    requires path != [] && KeySteps(path) && path[0].index >= 0
    requires Scan(PrintTail(path[1..]), "", Flush(buf, steps) + [path[0]]) ==
              Some(Flush(buf, steps) + [path[0]] + path[1..])
    ensures Scan(PrintTail(path), buf, steps) == Some(Flush(buf, steps) + path)
  {
    PrintTailCons(path);
    ScanIndex(path[0].index, PrintTail(path[1..]), buf, steps);
    assert Flush(buf, steps) + [path[0]] + path[1..] == Flush(buf, steps) + path;
  }

  lemma TailField(path: seq<Step>, buf: string, steps: seq<Step>)
    requires path != [] && KeySteps(path) && path[0].index < 0
    requires Scan(PrintTail(path[1..]), path[0].field, Flush(buf, steps)) ==
              Some(Flush(path[0].field, Flush(buf, steps)) + path[1..])
    ensures Scan(PrintTail(path), buf, steps) == Some(Flush(buf, steps) + path)
  {
    PrintTailCons(path);
    ScanDotName(path[0].field, PrintTail(path[1..]), buf, steps);
    assert Flush(buf, steps) + [path[0]] + path[1..] == Flush(buf, steps) + path;
  }

  lemma PrintTailCons(path: seq<Step>)
    requires path != [] && KeySteps(path)
    ensures PrintTail(path) == if path[0].index >= 0 then "[" + Itoa(path[0].index) + "]" + PrintTail(path[1..])
                               else "." + path[0].field + PrintTail(path[1..])
  {
  }

  lemma ScanDotName(name: string, rest: string, buf: string, steps: seq<Step>)
    requires '.' !in name && '[' !in name
    ensures Scan("." + name + rest, buf, steps) == Scan(rest, name, Flush(buf, steps))
  {
    assert ("." + name + rest)[1..] == name + rest;
    ScanName(name, rest, "", Flush(buf, steps));
    assert "" + name == name;
  }

  lemma {:induction false} ScanKeySteps(s: string, buf: string, steps: seq<Step>)
    requires '.' !in buf && '[' !in buf && KeySteps(steps)
    ensures Scan(s, buf, steps).Some? ==> KeySteps(Scan(s, buf, steps).value)
    decreases |s|
  {
    if s != "" {
      if s[0] == '.' {
        ScanKeySteps(s[1..], "", Flush(buf, steps));
      } else if s[0] == '[' {
        var end := Closing(s, 1);
        if end < |s| && Atoi(s[1..end]).Some? && Atoi(s[1..end]).value >= 0 {
          ScanKeySteps(s[end + 1..], "", Flush(buf, steps) + [IndexStep(Atoi(s[1..end]).value)]);
        }
      } else {
        ScanKeySteps(s[1..], buf + [s[0]], steps);
      }
    }
  }

  /** Every path ParsePath accepts is non-empty and written in steps it can print. */
  lemma ParsedSteps(path: string)
    ensures ParsePath(path).Some? ==> ParsePath(path).value != [] && KeySteps(ParsePath(path).value)
  {
    ScanKeySteps(path, "", []);
  }

  lemma PrintedPathParses(path: seq<Step>)
    requires path != [] && KeySteps(path)
    ensures ParsePath(PathString(path)) == Some(path)
  {
    var s, more := path[0], path[1..];
    assert [s] + more == path;
    if s.index >= 0 {
      ScanTail(more, "", [s]);
      ScanIndex(s.index, PrintTail(more), "", []);
      assert PathString(path) == "[" + Itoa(s.index) + "]" + PrintTail(more) != "";
      assert Flush("", []) + [s] == [s] && Flush("", [s]) == [s];
    } else {
      ScanTail(more, s.field, []);
      ScanName(s.field, PrintTail(more), "", []);
      assert "" + s.field == s.field && [] + [s] == [s];
      assert PathString(path) == s.field + PrintTail(more) != "";
    }
  }

  /** A path survives printing and parsing exactly when it is non-empty and each step is an
      index or a non-empty name without '.' and '['. */
  lemma PathRoundTrip(path: seq<Step>)
    ensures ParsePath(PathString(path)) == Some(path) <==> path != [] && KeySteps(path)
  {
    ParsedSteps(PathString(path));
    if path != [] && KeySteps(path) { PrintedPathParses(path); }
  }

  // ----- Overlap -----

  /** Overlap: exactly when one path leads to or into the other. */
  method Overlap(a: seq<Step>, b: seq<Step>) returns (r: bool)
    ensures r <==> a <= b || b <= a
  {
    var n := if |a| < |b| then |a| else |b|;
    for i := 0 to n
      invariant a[..i] == b[..i]
    {
      if a[i] != b[i] {
        return false;
      }
    }
    r := true;
  }
}
