/**
  Padded layouts: rounding an extent up to the padding, the static representability
  tests, and why a padded mapping of any rank never maps two indices to one place.
 */
module PaddedLayout {
  import opened Layout

  // ----- Rounding

  function LeastMultipleAtLeast(alignment: nat, value: nat): nat {
    if alignment == 0 then value
    else if value == 0 then 0
    else
      var remainder := value % alignment;
      if remainder == 0 then value else value + (alignment - remainder)
  }

  /** The result is a multiple, not below the value, and no smaller multiple is. */
  lemma LeastMultipleIsLeast(alignment: nat, value: nat, k: nat)
    requires alignment > 0
    ensures var r := LeastMultipleAtLeast(alignment, value);
            && r % alignment == 0 && value <= r < value + alignment
            && (value <= k * alignment ==> r <= k * alignment)
  {
    var q, rem := value / alignment, value % alignment;
    assert value == q * alignment + rem;
    assert (q + 1) * alignment == q * alignment + alignment;
    var r := LeastMultipleAtLeast(alignment, value);
    if rem == 0 {
      assert r == q * alignment;
      MultipleMod(q, alignment);
    } else {
      assert r == (q + 1) * alignment;
      MultipleMod(q + 1, alignment);
      if k <= q { MulMono(k, q, alignment); } else { MulMono(q + 1, k, alignment); }
    }
  }

  lemma {:induction false} MultipleMod(q: nat, d: nat)
    requires d > 0
    ensures (q * d) % d == 0
  {
    if q > 0 {
      MultipleMod(q - 1, d);
      assert q * d == (q - 1) * d + d;
      AddModulus((q - 1) * d, d);
    }
  }

  lemma AddModulus(x: nat, d: nat)
    requires d > 0
    ensures (x + d) % d == x % d
  {
    var q := x / d;
    assert x + d == (q + 1) * d + x % d;
    QuotientUnique(x + d, d, q + 1, x % d);
  }

  lemma QuotientUnique(x: nat, d: nat, q: nat, r: nat)
    requires d > 0 && r < d && x == q * d + r
    ensures x / d == q && x % d == r
  {
    var p := x / d;
    assert x == p * d + x % d;
    assert (p + 1) * d == p * d + d && (q + 1) * d == q * d + d;
    if p < q {
      MulMono(p + 1, q, d);
    } else if q < p {
      MulMono(q + 1, p, d);
    }
  }

  /** A positive extent within the padding is padded to exactly the padding. */
  lemma RoundsToPadding(padding: nat, extent: nat)
    requires 0 < extent <= padding
    ensures LeastMultipleAtLeast(padding, extent) == padding
  {
    if extent == padding { QuotientUnique(extent, padding, 1, 0); } else { QuotientUnique(extent, padding, 0, extent); }
  }

  // ----- Static representability

  function StrideRepresentable(limit: nat, padding: nat, extent: nat): bool {
    if extent > limit then false
    else if padding == 0 then true
    else
      var remainder := extent % padding;
      remainder == 0 || padding - remainder <= limit - extent
  }

  /** The overflow-free test answers exactly whether the rounded stride fits. */
  lemma StrideRepresentableExact(limit: nat, padding: nat, extent: nat)
    ensures StrideRepresentable(limit, padding, extent) <==> LeastMultipleAtLeast(padding, extent) <= limit
  {
    if padding > 0 { LeastMultipleIsLeast(padding, extent, 0); }
  }

  lemma {:induction false} ProductZero(s: seq<nat>, r: nat)
    requires r < |s| && s[r] == 0
    ensures Product(s) == 0
  {
    if r > 0 { ProductZero(s[1..], r - 1); }
  }

  lemma ProductGrows(p: nat, q: nat, limit: nat)
    requires p > limit && q > 0
    ensures p * q > limit
  {
    MulMono(1, q, p);
  }

  lemma FitsIffQuotient(product: nat, factor: nat, limit: nat)
    requires product > 0
    ensures factor > limit / product <==> product * factor > limit
  {
    var q := limit / product;
    assert limit == q * product + limit % product;
    if factor <= q {
      MulMono(factor, q, product);
    } else {
      MulMono(q + 1, factor, product);
      assert (q + 1) * product == q * product + product;
    }
  }

  lemma PrefixStep(factors: seq<nat>, r: nat)
    requires r < |factors|
    ensures Product(factors[..r + 1]) == Product(factors[..r]) * factors[r]
  {
    assert factors[..r + 1] == factors[..r] + [factors[r]];
    ProductConcat(factors[..r], [factors[r]]);
    assert Product([factors[r]]) == factors[r];
  }

  lemma OverflowStays(factors: seq<nat>, r: nat, limit: nat)
    requires r <= |factors| && Product(factors[..r]) > limit && forall k | 0 <= k < |factors| :: factors[k] > 0
    ensures Product(factors) > limit
  {
    assert factors == factors[..r] + factors[r..];
    ProductConcat(factors[..r], factors[r..]);
    ProductPositive(factors[r..]);
    ProductGrows(Product(factors[..r]), Product(factors[r..]), limit);
  }

  /** The division-based loop decides whether the mathematical product fits, without overflowing. */
  method ProductRepresentable(factors: seq<nat>, limit: nat) returns (fits: bool)
    requires limit > 0
    ensures fits <==> Product(factors) <= limit
  {
    for r := 0 to |factors|
      invariant forall k | 0 <= k < r :: factors[k] > 0
    {
      if factors[r] == 0 {
        ProductZero(factors, r);
        return true;
      }
    }
    var product: nat := 1;
    for r := 0 to |factors|
      invariant 0 < product <= limit && product == Product(factors[..r])
    {
      FitsIffQuotient(product, factors[r], limit);
      PrefixStep(factors, r);
      if factors[r] > limit / product {
        OverflowStays(factors, r + 1, limit);
        return false;
      }
      product := product * factors[r];
    }
    assert factors[..|factors|] == factors;
    fits := true;
  }

  // ----- Mixed radix numbers

  /** Positional value of `idx` with radices `radix`, least significant first. */
  function Radix(radix: seq<nat>, idx: seq<nat>): nat
    requires |radix| == |idx|
  {
    if idx == [] then 0 else idx[0] + radix[0] * Radix(radix[1..], idx[1..])
  }

  lemma {:induction false} RadixBound(radix: seq<nat>, idx: seq<nat>)
    requires InSpace(idx, radix)
    ensures Radix(radix, idx) < Product(radix)
  {
    if idx != [] {
      RadixBound(radix[1..], idx[1..]);
      MulMono(Radix(radix[1..], idx[1..]) + 1, Product(radix[1..]), radix[0]);
      assert radix[0] * (Radix(radix[1..], idx[1..]) + 1) == radix[0] * Radix(radix[1..], idx[1..]) + radix[0];
    }
  }

  /** Digits are determined by the value. */
  lemma {:induction false} RadixInjective(radix: seq<nat>, a: seq<nat>, b: seq<nat>)
    requires InSpace(a, radix) && InSpace(b, radix) && Radix(radix, a) == Radix(radix, b)
    ensures a == b
  {
    if a != [] {
      var d := radix[0];
      var x, y := Radix(radix[1..], a[1..]), Radix(radix[1..], b[1..]);
      assert a[0] + d * x == x * d + a[0] && b[0] + d * y == y * d + b[0];
      QuotientUnique(a[0] + d * x, d, x, a[0]);
      QuotientUnique(b[0] + d * y, d, y, b[0]);
      RadixInjective(radix[1..], a[1..], b[1..]);
      assert a == [a[0]] + a[1..] && b == [b[0]] + b[1..];
    }
  }

  lemma QuotientBelow(v: nat, d: nat, p: nat)
    requires d > 0 && v < d * p
    ensures v / d < p && v == v % d + d * (v / d)
  {
    assert v == (v / d) * d + v % d;
    if v / d >= p { MulMono(p, v / d, d); }
  }

  /** Every number below the product is a value. */
  lemma {:induction false} RadixOnto(radix: seq<nat>, v: nat) returns (idx: seq<nat>)
    requires v < Product(radix)
    ensures InSpace(idx, radix) && Radix(radix, idx) == v
    decreases |radix|
  {
    if radix == [] {
      idx := [];
    } else {
      var d := radix[0];
      assert d > 0;
      QuotientBelow(v, d, Product(radix[1..]));
      var rest := RadixOnto(radix[1..], v / d);
      idx := [v % d] + rest;
      assert idx[1..] == rest;
    }
  }

  // ----- Padded mappings

  /** A padded mapping with room for its padded extent. */
  predicate Padded(m: Mapping) {
    match m
    case LeftPadded(e, s) => |e| > 1 ==> s >= e[0]
    case RightPadded(e, s) => |e| > 1 ==> s >= e[|e| - 1]
    case _ => false
  }

  function Reversed(s: seq<nat>): (r: seq<nat>)
    ensures |r| == |s| && forall k | 0 <= k < |s| :: r[k] == s[|s| - 1 - k]
  {
    seq(|s|, k requires 0 <= k < |s| => s[|s| - 1 - k])
  }

  /** The radices that a left padded mapping counts in: the padded stride, then the extents. */
  function Radices(e: seq<nat>, s: nat): (r: seq<nat>)
    ensures |r| == |e|
  {
    if |e| <= 1 then e else [s] + e[1..]
  }

  /** Prefix products of the radices are the strides. */
  lemma LeftPaddedStride(e: seq<nat>, s: nat, r: nat)
    requires r < |e|
    ensures Stride(LeftPadded(e, s), r) == Product(Radices(e, s)[..r])
  {
    if r > 0 {
      assert Radices(e, s)[..r][1..] == e[1..r];
      assert Radices(e, s)[..r][0] == s;
    }
  }

  lemma MulAssoc(a: nat, b: nat, c: nat)
    ensures a * (b * c) == a * b * c
  {
  }

  lemma MulDistrib(c: nat, a: nat, b: nat)
    ensures c * (a + b) == c * a + c * b
  {
  }

  lemma HornerStep(i: nat, c: nat, d: nat, x: nat)
    ensures i * c + c * d * x == c * (i + d * x)
  {
    MulAssoc(c, d, x);
    MulDistrib(c, i, d * x);
  }

  /** `strides` are `c` times the prefix products of `radix`. */
  ghost predicate PrefixStrides(radix: seq<nat>, strides: seq<nat>, c: nat) {
    |radix| == |strides| && forall r | 0 <= r < |radix| :: strides[r] == c * Product(radix[..r])
  }

  lemma PrefixStridesTail(radix: seq<nat>, strides: seq<nat>, c: nat)
    requires PrefixStrides(radix, strides, c) && radix != []
    ensures strides[0] == c && PrefixStrides(radix[1..], strides[1..], c * radix[0])
  {
    forall r | 0 <= r < |radix| - 1 ensures strides[1..][r] == c * radix[0] * Product(radix[1..][..r]) {
      var p := radix[..r + 1];
      assert p[1..] == radix[1..][..r] && p[0] == radix[0];
      assert strides[1..][r] == strides[r + 1] == c * Product(p);
      MulAssoc(c, radix[0], Product(p[1..]));
    }
    assert radix[..0] == [];
  }

  /** Sum of digits times prefix products is the positional value. */
  lemma {:induction false} DotPrefixIsRadix(radix: seq<nat>, idx: seq<nat>, strides: seq<nat>, c: nat)
    requires |radix| == |idx| && PrefixStrides(radix, strides, c)
    ensures Dot(idx, strides) == c * Radix(radix, idx)
  {
    if idx != [] {
      PrefixStridesTail(radix, strides, c);
      DotPrefixIsRadix(radix[1..], idx[1..], strides[1..], c * radix[0]);
      HornerStep(idx[0], c, radix[0], Radix(radix[1..], idx[1..]));
    }
  }

  lemma LeftPaddedIsRadix(e: seq<nat>, s: nat, idx: seq<nat>)
    requires |idx| == |e|
    ensures At(LeftPadded(e, s), idx) == Radix(Radices(e, s), idx)
  {
    var m := LeftPadded(e, s);
    forall r | 0 <= r < |e| ensures Strides(m)[r] == 1 * Product(Radices(e, s)[..r]) {
      LeftPaddedStride(e, s, r);
    }
    DotPrefixIsRadix(Radices(e, s), idx, Strides(m), 1);
  }

  lemma MirroredStride(e: seq<nat>, s: nat, r: nat)
    requires r < |e|
    ensures Stride(LeftPadded(Reversed(e), s), r) == Stride(RightPadded(e, s), |e| - 1 - r)
  {
    if r > 0 {
      var n := |e|;
      assert Reversed(e)[1..r] == Reversed(e[n - r..n - 1]);
      ProductReversed(e[n - r..n - 1]);
    }
  }

  /** A right padded mapping is the left padded one read backwards. */
  lemma RightIsLeftReversed(e: seq<nat>, s: nat, idx: seq<nat>)
    requires |idx| == |e|
    ensures At(RightPadded(e, s), idx) == At(LeftPadded(Reversed(e), s), Reversed(idx))
  {
    var right, left := Strides(RightPadded(e, s)), Strides(LeftPadded(Reversed(e), s));
    forall r | 0 <= r < |e| ensures left[r] == Reversed(right)[r] { MirroredStride(e, s, r); }
    hide Strides, Stride;
    assert left == Reversed(right);
    DotReversed(idx, right);
  }

  lemma {:induction false} ProductReversed(a: seq<nat>)
    ensures Product(Reversed(a)) == Product(a)
  {
    if a != [] {
      ProductReversed(a[1..]);
      assert Reversed(a) == Reversed(a[1..]) + [a[0]];
      ProductConcat(Reversed(a[1..]), [a[0]]);
      assert Product([a[0]]) == a[0];
    }
  }

  lemma {:induction false} DotReversed(a: seq<nat>, b: seq<nat>)
    requires |a| == |b|
    ensures Dot(Reversed(a), Reversed(b)) == Dot(a, b)
  {
    if a != [] {
      DotReversed(a[1..], b[1..]);
      assert Reversed(a) == Reversed(a[1..]) + [a[0]] && Reversed(b) == Reversed(b[1..]) + [b[0]];
      DotConcat(Reversed(a[1..]), [a[0]], Reversed(b[1..]), [b[0]]);
      assert Dot([a[0]], [b[0]]) == a[0] * b[0];
    }
  }

  lemma InRadices(e: seq<nat>, s: nat, idx: seq<nat>)
    requires InSpace(idx, e) && (|e| > 1 ==> s >= e[0])
    ensures InSpace(idx, Radices(e, s))
  {
  }

  /** Padded mappings of any rank are injective on their index space. */
  lemma {:induction false} PaddedInjective(m: Mapping, a: seq<nat>, b: seq<nat>)
    requires Padded(m) && InSpace(a, m.extents) && InSpace(b, m.extents) && At(m, a) == At(m, b)
    ensures a == b
    decreases m.RightPadded?
  {
    match m
    case LeftPadded(e, s) =>
      LeftPaddedIsRadix(e, s, a);
      LeftPaddedIsRadix(e, s, b);
      InRadices(e, s, a);
      InRadices(e, s, b);
      RadixInjective(Radices(e, s), a, b);
    case RightPadded(e, s) =>
      RightIsLeftReversed(e, s, a);
      RightIsLeftReversed(e, s, b);
      PaddedInjective(LeftPadded(Reversed(e), s), Reversed(a), Reversed(b));
      assert forall k | 0 <= k < |a| :: a[k] == Reversed(a)[|a| - 1 - k] && b[k] == Reversed(b)[|a| - 1 - k];
  }

  /** is_exhaustive as the mappings compute it. */
  function IsExhaustive(m: Mapping): bool
    requires m.LeftPadded? || m.RightPadded?
  {
    var n := |m.extents|;
    n <= 1 || (if m.LeftPadded? then m.extents[0] == Stride(m, 1) else m.extents[n - 1] == Stride(m, n - 2))
  }

  lemma {:induction false} SpanIsProduct(e: seq<nat>)
    requires !Empty(e)
    ensures Radix(e, Ones(e)) + 1 == Product(e)
  {
    if e != [] {
      assert !Empty(e[1..]) by { assert forall r | 0 <= r < |e[1..]| :: e[1..][r] == e[r + 1]; }
      SpanIsProduct(e[1..]);
      assert Ones(e)[1..] == Ones(e[1..]);
      MulDistrib(e[0], Radix(e[1..], Ones(e[1..])), 1);
    }
  }

  lemma LeftOnto(e: seq<nat>, s: nat, v: nat) returns (idx: seq<nat>)
    requires IsExhaustive(LeftPadded(e, s)) && v < SpanSize(LeftPadded(e, s))
    ensures InSpace(idx, e) && At(LeftPadded(e, s), idx) == v
  {
    assert |e| > 1 ==> e[1..1] == [];
    assert Radices(e, s) == e;
    LeftPaddedIsRadix(e, s, Ones(e));
    hide At, Strides;
    SpanIsProduct(e);
    idx := RadixOnto(e, v);
    LeftPaddedIsRadix(e, s, idx);
  }

  lemma ReversedSpan(e: seq<nat>, s: nat)
    ensures Empty(Reversed(e)) <==> Empty(e)
    ensures SpanSize(LeftPadded(Reversed(e), s)) == SpanSize(RightPadded(e, s))
  {
    var r := Reversed(e);
    assert forall k | 0 <= k < |e| :: e[k] == r[|e| - 1 - k];
    assert Empty(r) <==> Empty(e);
    if !Empty(e) {
      RightIsLeftReversed(e, s, Ones(e));
      assert Reversed(Ones(e)) == Ones(r);
    }
  }

  /** An exhaustive padded mapping reaches every place below its span size. */
  lemma ExhaustiveIsOnto(m: Mapping, v: nat) returns (idx: seq<nat>)
    requires (m.LeftPadded? || m.RightPadded?) && IsExhaustive(m) && v < SpanSize(m)
    ensures InSpace(idx, m.extents) && At(m, idx) == v
  {
    hide At, Strides, SpanSize;
    match m
    case LeftPadded(e, s) =>
      idx := LeftOnto(e, s, v);
    case RightPadded(e, s) =>
      ReversedSpan(e, s);
      ReversedExhaustive(e, s);
      var r := LeftOnto(Reversed(e), s, v);
      idx := Reversed(r);
      RightIsLeftReversed(e, s, idx);
      assert Reversed(idx) == r;
  }

  lemma ReversedExhaustive(e: seq<nat>, s: nat)
    ensures IsExhaustive(LeftPadded(Reversed(e), s)) <==> IsExhaustive(RightPadded(e, s))
  {
    assert |e| > 1 ==> e[|e| - 1..|e| - 1] == [] && Reversed(e)[1..1] == [];
  }

  /** The dimension that is padded. */
  function PaddedDim(m: Mapping): nat
    requires (m.LeftPadded? || m.RightPadded?) && m.extents != []
  {
    if m.LeftPadded? then 0 else |m.extents| - 1
  }

  /** With real padding and another extent above one, the place right after the first column is never used. */
  lemma PaddingLeavesGap(m: Mapping, k: nat, idx: seq<nat>)
    requires (m.LeftPadded? || m.RightPadded?) && |m.extents| > 1 && !Empty(m.extents)
    requires m.extents[PaddedDim(m)] < (if m.LeftPadded? then m.stride1 else m.strideRm2)
    requires k < |m.extents| && k != PaddedDim(m) && m.extents[k] > 1 && InSpace(idx, m.extents)
    ensures m.extents[PaddedDim(m)] < SpanSize(m) && At(m, idx) != m.extents[PaddedDim(m)]
  {
    hide At, SpanSize;
    match m
    case LeftPadded(e, s) =>
      LeftGap(e, s, k, idx);
    case RightPadded(e, s) =>
      ReversedSpan(e, s);
      RightIsLeftReversed(e, s, idx);
      LeftGap(Reversed(e), s, |e| - 1 - k, Reversed(idx));
  }

  lemma LeftGap(e: seq<nat>, s: nat, k: nat, idx: seq<nat>)
    requires |e| > 1 && s > e[0] && !Empty(e) && 0 < k < |e| && e[k] > 1
    requires InSpace(idx, e)
    ensures e[0] < SpanSize(LeftPadded(e, s)) && At(LeftPadded(e, s), idx) != e[0]
  {
    var u := seq(|e|, r requires 0 <= r < |e| => if r == k then 1 else 0);
    assert InSpace(u, e);
    AtBelowSpan(LeftPadded(e, s), u);
    UnitValue(e, s, k, u);
    FirstDigit(e, s, idx);
    hide At, SpanSize;
    QuotientUnique(e[0], s, 0, e[0]);
  }

  lemma FirstDigit(e: seq<nat>, s: nat, idx: seq<nat>)
    requires |e| > 1 && s > e[0] && InSpace(idx, e)
    ensures At(LeftPadded(e, s), idx) % s == idx[0]
  {
    LeftPaddedIsRadix(e, s, idx);
    hide At;
    var x := Radix(Radices(e, s)[1..], idx[1..]);
    assert At(LeftPadded(e, s), idx) == x * s + idx[0];
    QuotientUnique(x * s + idx[0], s, x, idx[0]);
  }

  /** A unit step in a dimension after the first moves at least one padded column. */
  lemma UnitValue(e: seq<nat>, s: nat, k: nat, u: seq<nat>)
    requires |e| > 1 && !Empty(e) && 0 < k < |e| == |u|
    requires forall r | 0 <= r < |u| :: u[r] == if r == k then 1 else 0
    ensures At(LeftPadded(e, s), u) >= s
  {
    LeftPaddedIsRadix(e, s, u);
    var x := Radix(Radices(e, s)[1..], u[1..]);
    RadixPositive(Radices(e, s)[1..], u[1..], k - 1);
    MulMono(1, x, s);
  }

  lemma {:induction false} RadixPositive(radix: seq<nat>, u: seq<nat>, k: nat)
    requires |radix| == |u| && k < |u| && u[k] > 0 && forall r | 0 <= r < |radix| :: radix[r] > 0
    ensures Radix(radix, u) > 0
  {
    if k > 0 {
      RadixPositive(radix[1..], u[1..], k - 1);
      MulMono(1, Radix(radix[1..], u[1..]), radix[0]);
    }
  }
}
