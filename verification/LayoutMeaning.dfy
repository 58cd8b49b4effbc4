/**
  What the strides, the mapping and the span size of a layout mean, and when a padded mapping
  reaches every place of its span.
 */
module LayoutMeaning {
  import opened Layout
  import opened PaddedLayout

  // ----- Strides

  /**
    Column by column: the first dimension of a left layout is contiguous and each next stride is
    the previous one times its extent, except that padding sets the second stride.
   */
  lemma LeftStrides(m: Mapping, r: nat)
    requires (m.Left? || m.LeftPadded?) && r < |m.extents|
    ensures r == 0 ==> Stride(m, r) == 1
    ensures r == 1 ==> Stride(m, r) == if m.Left? then m.extents[0] else m.stride1
    ensures r > 1 ==> Stride(m, r) == Stride(m, r - 1) * m.extents[r - 1]
  {
    var e := m.extents;
    if r > 0 {
      PrefixStep(e, r - 1);
      if m.LeftPadded? { PaddedStep(m.stride1, e, 1, r); }
    }
    assert e[..0] == [];
  }

  lemma PaddedStep(s: nat, e: seq<nat>, lo: nat, hi: nat)
    requires lo <= hi <= |e|
    ensures lo == hi ==> s * Product(e[lo..hi]) == s
    ensures lo < hi ==> s * Product(e[lo..hi]) == s * Product(e[lo..hi - 1]) * e[hi - 1]
  {
    if lo < hi {
      assert e[lo..hi] == e[lo..][..hi - lo] && e[lo..hi - 1] == e[lo..][..hi - lo - 1];
      PrefixStep(e[lo..], hi - lo - 1);
      MulAssoc(s, Product(e[lo..hi - 1]), e[hi - 1]);
    }
  }

  /** Row by row, from the last dimension backwards; padding sets the last but one stride. */
  lemma RightStrides(m: Mapping, r: nat)
    requires (m.Right? || m.RightPadded?) && r < |m.extents|
    ensures r == |m.extents| - 1 ==> Stride(m, r) == 1
    ensures r == |m.extents| - 2 ==> Stride(m, r) == if m.Right? then m.extents[r + 1] else m.strideRm2
    ensures r < |m.extents| - 2 ==> Stride(m, r) == Stride(m, r + 1) * m.extents[r + 1]
  {
    var e, n := m.extents, |m.extents|;
    if r < n - 1 {
      if m.Right? {
        assert e[r + 1..][1..] == e[r + 2..] && e[r + 1..][0] == e[r + 1];
        var p := Product(e[r + 2..]);
        assert Product(e[r + 1..]) == e[r + 1] * p;
        assert r == n - 2 ==> p == 1;
        assert r < n - 2 ==> Stride(m, r + 1) == p;
        assert e[r + 1] * p == p * e[r + 1];
      } else {
        assert r < n - 2 ==> e[r + 1..n - 1][1..] == e[r + 2..n - 1] && e[r + 1..n - 1][0] == e[r + 1];
        if r < n - 2 { PaddedHead(m.strideRm2, e[r + 1], Product(e[r + 2..n - 1])); }
      }
    }
  }

  lemma PaddedHead(s: nat, x: nat, p: nat)
    ensures s * (x * p) == s * p * x
  {
    MulAssoc(s, p, x);
    assert x * p == p * x;
  }

  /** stride(r) of a left padded mapping, as its loop computes it. */
  method LeftPaddedStrideOf(m: Mapping, r: nat) returns (result: nat)
    requires m.LeftPadded? && r < |m.extents|
    ensures result == Stride(m, r)
  {
    if r == 0 {
      return 1;
    }
    result := m.stride1;
    LeftStrides(m, 1);
    for k := 1 to r
      invariant result == Stride(m, k)
    {
      LeftStrides(m, k + 1);
      result := result * m.extents[k];
    }
  }

  // ----- The mapping

  lemma {:induction false} DotStep(a: seq<nat>, s: seq<nat>, r: nat)
    requires |a| == |s| && r < |a|
    ensures Dot(a[r := a[r] + 1], s) == Dot(a, s) + s[r]
  {
    var b := a[r := a[r] + 1];
    if r == 0 {
      assert b[1..] == a[1..];
      assert (a[0] + 1) * s[0] == a[0] * s[0] + s[0];
    } else {
      assert b[1..] == a[1..][r - 1 := a[1..][r - 1] + 1];
      DotStep(a[1..], s[1..], r - 1);
    }
  }

  lemma {:induction false} DotZero(a: seq<nat>, s: seq<nat>)
    requires |a| == |s| && forall r | 0 <= r < |a| :: a[r] == 0
    ensures Dot(a, s) == 0
  {
    if a != [] { DotZero(a[1..], s[1..]); }
  }

  /** The first element is at place zero, and a step along a dimension moves by exactly its stride. */
  lemma MovesByStride(m: Mapping, idx: seq<nat>, r: nat)
    requires WellFormed(m) && |idx| == |m.extents| && r < |idx|
    ensures At(m, idx[r := idx[r] + 1]) == At(m, idx) + Stride(m, r)
    ensures (forall q | 0 <= q < |idx| :: idx[q] == 0) ==> At(m, idx) == 0
  {
    hide Stride;
    DotStep(idx, Strides(m), r);
    if forall q | 0 <= q < |idx| :: idx[q] == 0 { DotZero(idx, Strides(m)); }
  }

  /** The span size is tight: nothing is needed for no elements, else the last place is used. */
  lemma SpanIsTight(m: Mapping) returns (idx: seq<nat>)
    requires WellFormed(m)
    ensures Empty(m.extents) ==> SpanSize(m) == 0
    ensures !Empty(m.extents) ==> InSpace(idx, m.extents) && At(m, idx) + 1 == SpanSize(m)
  {
    idx := if Empty(m.extents) then [] else Ones(m.extents);
  }

  lemma DotNothing(a: seq<nat>, s: seq<nat>)
    requires a == [] && s == []
    ensures Dot(a, s) == 0
  {
  }

  lemma DotSnoc(a: seq<nat>, s: seq<nat>, r: nat)
    requires |a| == |s| && r < |a|
    ensures Dot(a[..r + 1], s[..r + 1]) == Dot(a[..r], s[..r]) + a[r] * s[r]
  {
    assert a[..r + 1] == a[..r] + [a[r]] && s[..r + 1] == s[..r] + [s[r]];
    DotConcat(a[..r], [a[r]], s[..r], [s[r]]);
    assert Dot([a[r]], [s[r]]) == a[r] * s[r];
  }

  /** required_span_size as its loops compute it. */
  method RequiredSpanSize(m: Mapping) returns (result: nat)
    requires WellFormed(m)
    ensures result == SpanSize(m)
  {
    for r := 0 to |m.extents|
      invariant forall k | 0 <= k < r :: m.extents[k] != 0
    {
      if m.extents[r] == 0 {
        return 0;
      }
    }
    var last, strides := Ones(m.extents), Strides(m);
    hide Stride, Dot;
    DotNothing(last[..0], strides[..0]);
    result := 0;
    for r := 0 to |m.extents|
      invariant result == Dot(last[..r], strides[..r])
    {
      DotSnoc(last, strides, r);
      result := result + (m.extents[r] - 1) * Stride(m, r);
    }
    assert last[..|last|] == last && strides[..|last|] == strides;
    result := result + 1;
  }

  // ----- Exhaustive mappings

  /** Every place below the span size is used. */
  ghost predicate Onto(m: Mapping)
    requires WellFormed(m)
  {
    forall v: nat | v < SpanSize(m) :: Reached(m, v)
  }

  ghost predicate Reached(m: Mapping, v: nat)
    requires WellFormed(m)
  {
    exists idx :: InSpace(idx, m.extents) && At(m, idx) == v
  }

  /** Only the padded dimension has more than one element. */
  predicate OneColumn(m: Mapping)
    requires m.LeftPadded? || m.RightPadded?
  {
    m.extents != [] && forall k | 0 <= k < |m.extents| && k != PaddedDim(m) :: m.extents[k] == 1
  }

  lemma {:induction false} OnesRadix(radix: seq<nat>, idx: seq<nat>)
    requires |radix| == |idx| && forall r | 0 <= r < |idx| :: idx[r] == 0
    ensures Radix(radix, idx) == 0
  {
    if idx != [] { OnesRadix(radix[1..], idx[1..]); }
  }

  lemma LeftColumn(e: seq<nat>, s: nat, idx: seq<nat>)
    requires e != [] && |idx| == |e| && forall k | 0 < k < |idx| :: idx[k] == 0
    ensures At(LeftPadded(e, s), idx) == idx[0]
  {
    LeftPaddedIsRadix(e, s, idx);
    hide At;
    OnesRadix(Radices(e, s)[1..], idx[1..]);
  }

  lemma LeftColumnOnto(e: seq<nat>, s: nat, v: nat) returns (idx: seq<nat>)
    requires e != [] && !Empty(e) && (forall k | 0 < k < |e| :: e[k] == 1) && v < SpanSize(LeftPadded(e, s))
    ensures InSpace(idx, e) && At(LeftPadded(e, s), idx) == v
  {
    LeftColumn(e, s, Ones(e));
    assert SpanSize(LeftPadded(e, s)) == e[0];
    idx := seq(|e|, k requires 0 <= k < |e| => if k == 0 then v else 0);
    LeftColumn(e, s, idx);
  }

  lemma ColumnOnto(m: Mapping, v: nat) returns (idx: seq<nat>)
    requires (m.LeftPadded? || m.RightPadded?) && OneColumn(m) && !Empty(m.extents) && v < SpanSize(m)
    ensures InSpace(idx, m.extents) && At(m, idx) == v
  {
    hide At, SpanSize, Strides;
    match m
    case LeftPadded(e, s) =>
      idx := LeftColumnOnto(e, s, v);
    case RightPadded(e, s) =>
      ReversedSpan(e, s);
      var r := LeftColumnOnto(Reversed(e), s, v);
      idx := Reversed(r);
      assert Reversed(idx) == r;
      RightIsLeftReversed(e, s, idx);
  }

  /**
    is_exhaustive answers no for some mappings that do reach every place: those with one column
    only.  A padded mapping with elements is onto exactly if is_exhaustive says so or it has
    one column.
   */
  lemma OntoExactly(m: Mapping)
    requires Padded(m) && !Empty(m.extents)
    ensures Onto(m) <==> IsExhaustive(m) || OneColumn(m)
  {
    hide At, SpanSize, Strides;
    if IsExhaustive(m) {
      forall v: nat | v < SpanSize(m) ensures Reached(m, v) {
        var idx := ExhaustiveIsOnto(m, v);
      }
    } else if OneColumn(m) {
      forall v: nat | v < SpanSize(m) ensures Reached(m, v) {
        var idx := ColumnOnto(m, v);
      }
    } else {
      MissesPlace(m);
    }
  }

  /** Not exhaustive means really padded. */
  lemma ReallyPadded(m: Mapping)
    requires Padded(m) && !IsExhaustive(m)
    ensures |m.extents| > 1
    ensures m.extents[PaddedDim(m)] < if m.LeftPadded? then m.stride1 else m.strideRm2
  {
    if m.LeftPadded? { LeftStrides(m, 1); } else { RightStrides(m, |m.extents| - 2); }
    hide Stride;
  }

  lemma MissesPlace(m: Mapping)
    requires Padded(m) && !Empty(m.extents) && !IsExhaustive(m) && !OneColumn(m)
    ensures !Onto(m)
  {
    hide At, SpanSize, Strides;
    ReallyPadded(m);
    var e, gap := m.extents, m.extents[PaddedDim(m)];
    var k :| 0 <= k < |e| && k != PaddedDim(m) && e[k] != 1;
    assert e[k] != 0;
    var zero := seq(|e|, r requires 0 <= r < |e| => 0);
    assert InSpace(zero, e);
    PaddingLeavesGap(m, k, zero);
    forall idx | InSpace(idx, e) ensures At(m, idx) != gap {
      PaddingLeavesGap(m, k, idx);
    }
    assert !Reached(m, gap);
  }

  /** Such a mapping: one column of two elements, padded to four. */
  lemma OntoButNotExhaustive()
    ensures var m := LeftPadded([2, 1], 4); Padded(m) && Onto(m) && !IsExhaustive(m)
  {
    var m := LeftPadded([2, 1], 4);
    LeftStrides(m, 1);
    OntoExactly(m);
  }
}
