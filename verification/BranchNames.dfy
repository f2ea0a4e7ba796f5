/** What the name of a union's branch tells (internal/avro/convention.go): its type, a logical type
    apart from the one it overlays. */
module BranchNames {
  import opened JsonValues
  import opened AvroModel

  /** The types a union tells apart: two of one kind differ by their logical types at most in what
      these are drawn from. */
  predicate SameBranch(a: Type, b: Type) {
    match a
    case NullType => b.NullType?
    case Primitive(k, None) => b.Primitive? && b.kind == k && b.logical.None?
    case Primitive(k, Some(l)) => b.Primitive? && b.kind == k && b.logical.Some? && b.logical.value.kind == l.kind
    case Named(full) => b.Named? && b.full == full
    case Array(_) => b.Array?
    case Map(_) => b.Map?
    case Union(_) => b.Union?
  }

  predicate Unnamed(t: Type) { !t.Named? && !t.Union? }

  lemma {:induction false} KindTold(a: Kind, b: Kind)
    requires KindName(a) == KindName(b)
    ensures a == b
  {
    assert |KindName(a)| == |KindName(b)|;
    assert KindName(a)[0] == KindName(b)[0] && KindName(a)[1] == KindName(b)[1];
  }

  lemma {:induction false} LogicalTold(a: LogicalKind, b: LogicalKind)
    requires LogicalName(a) == LogicalName(b)
    ensures a == b
  {
    var x, y := LogicalName(a), LogicalName(b);
    assert |x| == |y| && x[0] == y[0] && x[|x| - 2] == y[|y| - 2];
  }

  lemma {:induction false} KindDotFree(k: Kind)
    ensures '.' !in KindName(k)
  {
  }

  /** A text splits at its first dot in one way. */
  lemma {:induction false} SplitAtDot(x: string, u: string, y: string, v: string)
    requires '.' !in x && '.' !in y && x + "." + u == y + "." + v
    ensures x == y && u == v
  {
    HeadAndTail(x, u);
    HeadAndTail(y, v);
    if x != "" && y != "" {
      SplitAtDot(x[1..], u, y[1..], v);
      assert x == [x[0]] + x[1..] && y == [y[0]] + y[1..];
    }
  }

  lemma {:induction false} HeadAndTail(x: string, u: string)
    ensures var s := x + "." + u;
            s[0] == (if x == "" then '.' else x[0]) && s[1..] == (if x == "" then u else x[1..] + "." + u)
  {
  }

  /** The name of a logical type is its base type's, a dot and its own. */
  lemma {:induction false} OverlayTold(k: Kind, l: LogicalKind, j: Kind, m: LogicalKind)
    requires KindName(k) + "." + LogicalName(l) == KindName(j) + "." + LogicalName(m)
    ensures k == j && l == m
  {
    KindDotFree(k);
    KindDotFree(j);
    SplitAtDot(KindName(k), LogicalName(l), KindName(j), LogicalName(m));
    KindTold(k, j);
    LogicalTold(l, m);
  }

  predicate Overlays(t: Type) { t.Primitive? && t.logical.Some? }

  lemma {:induction false} DotTellsOverlay(t: Type)
    requires Unnamed(t)
    ensures '.' in BranchName(t) <==> Overlays(t)
  {
    if Overlays(t) {
      var x := KindName(t.kind);
      assert BranchName(t)[|x|] == '.';
    } else if t.Primitive? {
      KindDotFree(t.kind);
    }
  }

  /** Branches of one name are one branch: the name tells unnamed types apart, logical ones too. */
  lemma {:induction false} NamesTellApart(a: Type, b: Type)
    requires Unnamed(a) && Unnamed(b)
    ensures BranchName(a) == BranchName(b) <==> SameBranch(a, b)
  {
    DotTellsOverlay(a);
    DotTellsOverlay(b);
    if BranchName(a) == BranchName(b) {
      if Overlays(a) {
        OverlayTold(a.kind, a.logical.value.kind, b.kind, b.logical.value.kind);
      } else if a.Primitive? && b.Primitive? {
        KindTold(a.kind, b.kind);
      } else {
        PlainTold(a, b);
      }
    }
  }

  lemma {:induction false} PlainTold(a: Type, b: Type)
    requires Unnamed(a) && Unnamed(b) && !Overlays(a) && !Overlays(b) && !(a.Primitive? && b.Primitive?)
    requires BranchName(a) == BranchName(b)
    ensures SameBranch(a, b)
  {
    var x, y := BranchName(a), BranchName(b);
    assert |x| == |y| && x[0] == y[0] && x[1] == y[1];
  }
}
