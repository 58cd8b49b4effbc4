/**
  Layout mappings of multidimensional spans, as values: left, right, strided and
  the two padded layouts.  Ranks are sequence lengths and all numbers are exact.
 */
module Layout {

  datatype Mapping =
    | Left(extents: seq<nat>)
    | Right(extents: seq<nat>)
    | Strided(extents: seq<nat>, strides: seq<nat>)
    | LeftPadded(extents: seq<nat>, stride1: nat)
    | RightPadded(extents: seq<nat>, strideRm2: nat)

  function Product(s: seq<nat>): nat {
    if s == [] then 1 else s[0] * Product(s[1..])
  }

  /** Sum of products; `a` and `b` have the same length. */
  function Dot(a: seq<nat>, b: seq<nat>): nat
    requires |a| == |b|
  {
    if a == [] then 0 else a[0] * b[0] + Dot(a[1..], b[1..])
  }

  predicate WellFormed(m: Mapping) {
    m.Strided? ==> |m.strides| == |m.extents|
  }

  /** stride(r), branch by branch as the mappings define it. */
  function Stride(m: Mapping, r: nat): nat
    requires WellFormed(m) && r < |m.extents|
  {
    var n := |m.extents|;
    match m
    case Left(e) => Product(e[..r])
    case Right(e) => Product(e[r + 1..])
    case Strided(_, s) => s[r]
    case LeftPadded(e, s) => if r == 0 then 1 else s * Product(e[1..r])
    case RightPadded(e, s) => if r == n - 1 then 1 else s * Product(e[r + 1..n - 1])
  }

  function Strides(m: Mapping): (s: seq<nat>)
    requires WellFormed(m)
    ensures |s| == |m.extents|
  {
    seq(|m.extents|, r requires 0 <= r < |m.extents| => Stride(m, r))
  }

  /** `idx` is in the index space of `e`. */
  ghost predicate InSpace(idx: seq<nat>, e: seq<nat>) {
    |idx| == |e| && forall r | 0 <= r < |e| :: idx[r] < e[r]
  }

  predicate Empty(e: seq<nat>) { exists r | 0 <= r < |e| :: e[r] == 0 }

  /** The mapping itself. */
  function At(m: Mapping, idx: seq<nat>): nat
    requires WellFormed(m) && |idx| == |m.extents|
  {
    Dot(idx, Strides(m))
  }

  /** Last index in every dimension. */
  function Ones(e: seq<nat>): seq<nat>
    requires !Empty(e)
  {
    seq(|e|, r requires 0 <= r < |e| => e[r] - 1)
  }

  function RequiredSpan(e: seq<nat>, strides: seq<nat>): nat
    requires |e| == |strides|
  {
    if Empty(e) then 0 else Dot(Ones(e), strides) + 1
  }

  function SpanSize(m: Mapping): nat
    requires WellFormed(m)
  {
    RequiredSpan(m.extents, Strides(m))
  }

  // ----- Products and dot products

  lemma {:induction false} ProductConcat(a: seq<nat>, b: seq<nat>)
    ensures Product(a + b) == Product(a) * Product(b)
  {
    if a == [] {
      assert a + b == b;
    } else {
      assert (a + b)[1..] == a[1..] + b;
      ProductConcat(a[1..], b);
      assert a[0] * (Product(a[1..]) * Product(b)) == a[0] * Product(a[1..]) * Product(b);
    }
  }

  lemma {:induction false} ProductPositive(a: seq<nat>)
    requires forall r | 0 <= r < |a| :: a[r] > 0
    ensures Product(a) > 0
  {
    if a != [] { ProductPositive(a[1..]); }
  }

  lemma MulMono(a: nat, b: nat, c: nat)
    requires a <= b
    ensures a * c <= b * c && c * a <= c * b
  {
  }

  lemma {:induction false} DotMono(a: seq<nat>, b: seq<nat>, s: seq<nat>)
    requires |a| == |b| == |s| && forall r | 0 <= r < |a| :: a[r] <= b[r]
    ensures Dot(a, s) <= Dot(b, s)
  {
    if a != [] {
      MulMono(a[0], b[0], s[0]);
      DotMono(a[1..], b[1..], s[1..]);
    }
  }

  lemma {:induction false} DotConcat(a: seq<nat>, b: seq<nat>, s: seq<nat>, t: seq<nat>)
    requires |a| == |s| && |b| == |t|
    ensures Dot(a + b, s + t) == Dot(a, s) + Dot(b, t)
  {
    if a == [] {
      assert a + b == b && s + t == t;
    } else {
      assert (a + b)[1..] == a[1..] + b && (s + t)[1..] == s[1..] + t;
      DotConcat(a[1..], b, s[1..], t);
    }
  }

  /** Every index lands strictly below the span size. */
  lemma AtBelowSpan(m: Mapping, idx: seq<nat>)
    requires WellFormed(m) && InSpace(idx, m.extents)
    ensures !Empty(m.extents) && At(m, idx) < SpanSize(m)
  {
    DotMono(idx, Ones(m.extents), Strides(m));
  }
}
