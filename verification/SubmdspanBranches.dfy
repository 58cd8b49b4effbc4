/**
  The shortcuts: when slicing a left, right or padded mapping may keep the layout or
  produce a padded one, and why the shortcut's strides are the generic ones.
 */
module SubmdspanBranches {
  import opened Layout
  import opened PaddedLayout
  import opened Submdspan

  function Rank(slices: seq<Slice>): nat { |InvMap(slices, 0)| }

  // ----- Which slices survive

  ghost predicate AllIndex(slices: seq<Slice>) {
    forall k | 0 <= k < |slices| :: slices[k].Index?
  }

  ghost predicate NoIndex(slices: seq<Slice>) {
    forall k | 0 <= k < |slices| :: !slices[k].Index?
  }

  lemma {:induction false} InvMapConcat(a: seq<Slice>, b: seq<Slice>, c: nat)
    ensures InvMap(a + b, c) == InvMap(a, c) + InvMap(b, c + |a|)
  {
    if a == [] {
      assert a + b == b;
    } else {
      assert (a + b)[1..] == a[1..] + b && (a + b)[0] == a[0];
      InvMapConcat(a[1..], b, c + 1);
    }
  }

  lemma {:induction false} InvMapAllIndex(a: seq<Slice>, c: nat)
    ensures AllIndex(a) <==> InvMap(a, c) == []
  {
    if a != [] {
      InvMapAllIndex(a[1..], c + 1);
      if AllIndex(a) { assert AllIndex(a[1..]); }
      if InvMap(a, c) == [] { assert forall k | 0 < k < |a| :: a[1..][k - 1] == a[k]; }
    }
  }

  lemma {:induction false} InvMapNoIndex(a: seq<Slice>, c: nat)
    requires NoIndex(a)
    ensures |InvMap(a, c)| == |a| && forall j | 0 <= j < |a| :: InvMap(a, c)[j] == c + j
  {
    if a != [] { InvMapNoIndex(a[1..], c + 1); }
  }

  // ----- Layout preservation

  /** The first `dr` slices survive with unit stride, all but the last of them whole. */
  predicate LeftPreserving(slices: seq<Slice>, dr: nat) {
    dr == 0 ||
    (&& dr <= |slices|
     && (forall k | 0 <= k < dr - 1 :: slices[k].Full?)
     && (slices[dr - 1].Full? || slices[dr - 1].Unit?)
     && (forall k | dr <= k < |slices| :: slices[k].Index?))
  }

  /** The last `dr` slices survive with unit stride, all but the first of them whole. */
  predicate RightPreserving(slices: seq<Slice>, dr: nat) {
    dr == 0 ||
    (&& dr <= |slices|
     && (forall k | |slices| - dr < k < |slices| :: slices[k].Full?)
     && (slices[|slices| - dr].Full? || slices[|slices| - dr].Unit?)
     && (forall k | 0 <= k < |slices| - dr :: slices[k].Index?))
  }

  lemma RankBound(slices: seq<Slice>)
    ensures Rank(slices) <= |slices|
  {
    RankAtMost(slices, 0);
  }

  lemma {:induction false} RankAtMost(slices: seq<Slice>, c: nat)
    ensures |InvMap(slices, c)| <= |slices|
  {
    if slices != [] { RankAtMost(slices[1..], c + 1); }
  }

  /** ll_preserving, with its separate search when one dimension survives. */
  method CheckLeftPreserving(slices: seq<Slice>, dr: nat) returns (b: bool)
    requires dr == Rank(slices)
    ensures b <==> LeftPreserving(slices, dr)
  {
    RankBound(slices);
    var sr := |slices|;
    if dr == 0 {
      return true;
    }
    if dr == 1 {
      var firstRange := sr;
      for k := 0 to sr
        invariant firstRange == sr && forall j | 0 <= j < k :: slices[j].Index?
      {
        if !slices[k].Index? {
          firstRange := k;
          break;
        }
      }
      if firstRange == sr { return false; }
      if !IsUnitStride(slices[firstRange]) { return false; }
      for k := 0 to firstRange
        invariant forall j | 0 <= j < k :: slices[j].Full?
      {
        if !slices[k].Full? { return false; }
      }
      for k := firstRange + 1 to sr
        invariant forall j | firstRange < j < k :: slices[j].Index?
      {
        if !slices[k].Index? { return false; }
      }
      return true;
    }
    for k := 0 to dr - 1
      invariant forall j | 0 <= j < k :: slices[j].Full?
    {
      if !slices[k].Full? { return false; }
    }
    if !IsUnitStride(slices[dr - 1]) { return false; }
    for k := dr to sr
      invariant forall j | dr <= j < k :: slices[j].Index?
    {
      if !slices[k].Index? { return false; }
    }
    b := true;
  }

  /** lr_preserving, searching from the right when one dimension survives. */
  method CheckRightPreserving(slices: seq<Slice>, dr: nat) returns (b: bool)
    requires dr == Rank(slices)
    ensures b <==> RightPreserving(slices, dr)
  {
    RankBound(slices);
    var sr := |slices|;
    if dr == 0 {
      return true;
    }
    if dr == 1 {
      var lastRange := sr;
      for k := sr downto 0
        invariant lastRange == sr && forall j | k <= j < sr :: slices[j].Index?
      {
        if !slices[k].Index? {
          lastRange := k;
          break;
        }
      }
      if lastRange == sr { return false; }
      assert lastRange + 1 < sr ==> slices[lastRange + 1].Index?;
      if !IsUnitStride(slices[lastRange]) { return false; }
      for k := lastRange + 1 to sr
        invariant forall j | lastRange < j < k :: slices[j].Full?
      {
        if !slices[k].Full? { return false; }
      }
      for k := 0 to lastRange
        invariant forall j | 0 <= j < k :: slices[j].Index?
      {
        if !slices[k].Index? { return false; }
      }
      return true;
    }
    for k := sr - dr + 1 to sr
      invariant forall j | sr - dr < j < k :: slices[j].Full?
    {
      if !slices[k].Full? { return false; }
    }
    if !IsUnitStride(slices[sr - dr]) { return false; }
    for k := 0 to sr - dr
      invariant forall j | 0 <= j < k :: slices[j].Index?
    {
      if !slices[k].Index? { return false; }
    }
    b := true;
  }

  // ----- Padded preservation

  /** `u` is the padded dimension of a left padded result. */
  predicate LeftPaddedAt(slices: seq<Slice>, dr: nat, u: nat) {
    && 2 <= dr && 1 <= u && u + dr - 2 < |slices|
    && (slices[0].Full? || slices[0].Unit?)
    && (forall k | 1 <= k < u :: !slices[k].Full? && !slices[k].Unit?)
    && (slices[u].Full? || slices[u].Unit?)
    && (forall k | u <= k < u + dr - 2 :: slices[k].Full?)
    && (slices[u + dr - 2].Full? || slices[u + dr - 2].Unit?)
  }

  /** `u` is the padded dimension of a right padded result. */
  predicate RightPaddedAt(slices: seq<Slice>, dr: nat, u: nat) {
    && 2 <= dr <= u + 2 && u + 1 < |slices|
    && (slices[|slices| - 1].Full? || slices[|slices| - 1].Unit?)
    && (forall k | u < k < |slices| - 1 :: !slices[k].Full? && !slices[k].Unit?)
    && (slices[u].Full? || slices[u].Unit?)
    && (forall k | u - (dr - 2) < k <= u :: slices[k].Full?)
    && (slices[u - (dr - 2)].Full? || slices[u - (dr - 2)].Unit?)
  }

  /** left_padded_stride_index: the padded dimension, or the rank when there is none. */
  method LeftPaddedIndex(slices: seq<Slice>, dr: nat) returns (u: nat)
    ensures u != |slices| ==> LeftPaddedAt(slices, dr, u)
    ensures u == |slices| ==> forall v :: !LeftPaddedAt(slices, dr, v)
  {
    var sr := |slices|;
    if dr < 2 || sr < 2 {
      return sr;
    }
    if !IsUnitStride(slices[0]) {
      return sr;
    }
    u := sr;
    for k := 1 to sr
      invariant u == sr && forall j | 1 <= j < k :: !IsUnitStride(slices[j])
    {
      if IsUnitStride(slices[k]) {
        u := k;
        break;
      }
    }
    if u == sr || dr - 2 > sr - 1 - u {
      return sr;
    }
    var finalUnit := u + dr - 2;
    for k := u to finalUnit
      invariant forall j | u <= j < k :: slices[j].Full?
    {
      if !slices[k].Full? { return sr; }
    }
    if !IsUnitStride(slices[finalUnit]) { u := sr; }
  }

  /** right_padded_stride_index */
  method RightPaddedIndex(slices: seq<Slice>, dr: nat) returns (u: nat)
    ensures u != |slices| ==> RightPaddedAt(slices, dr, u)
    ensures u == |slices| ==> forall v :: !RightPaddedAt(slices, dr, v)
  {
    var sr := |slices|;
    if dr < 2 || sr < 2 {
      return sr;
    }
    if !IsUnitStride(slices[sr - 1]) {
      return sr;
    }
    u := sr;
    for k := sr - 1 downto 0
      invariant u == sr && forall j | k <= j < sr - 1 :: !IsUnitStride(slices[j])
    {
      if IsUnitStride(slices[k]) {
        u := k;
        break;
      }
    }
    if u == sr || dr - 2 > u {
      return sr;
    }
    var finalUnit := u - (dr - 2);
    for k := finalUnit + 1 to u + 1
      invariant forall j | finalUnit < j < k :: slices[j].Full?
    {
      if !slices[k].Full? { return sr; }
    }
    if !IsUnitStride(slices[finalUnit]) { u := sr; }
  }

  // ----- The surviving dimensions of each shortcut

  lemma UnitFactor(s: Slice)
    requires IsUnitStride(s)
    ensures Factor(s) == 1 && !s.Index?
  {
  }

  lemma InvMapPrefix(slices: seq<Slice>, dr: nat)
    requires dr <= |slices| && NoIndex(slices[..dr]) && AllIndex(slices[dr..])
    ensures Rank(slices) == dr && forall j | 0 <= j < dr :: InvMap(slices, 0)[j] == j
  {
    hide InvMap, NoIndex, AllIndex;
    assert slices == slices[..dr] + slices[dr..];
    InvMapConcat(slices[..dr], slices[dr..], 0);
    InvMapNoIndex(slices[..dr], 0);
    InvMapAllIndex(slices[dr..], dr);
  }

  lemma InvMapSuffix(slices: seq<Slice>, d: nat)
    requires d <= |slices| && AllIndex(slices[..d]) && NoIndex(slices[d..])
    ensures Rank(slices) == |slices| - d && forall j | 0 <= j < |slices| - d :: InvMap(slices, 0)[j] == d + j
  {
    hide InvMap, NoIndex, AllIndex;
    assert slices == slices[..d] + slices[d..];
    InvMapConcat(slices[..d], slices[d..], 0);
    InvMapAllIndex(slices[..d], 0);
    InvMapNoIndex(slices[d..], d);
  }

  /** The dimension map of four consecutive stretches of slices. */
  lemma InvMapSplit(slices: seq<Slice>, i: nat, j: nat, k: nat)
    requires i <= j <= k <= |slices|
    ensures InvMap(slices, 0) ==
            InvMap(slices[..i], 0) + (InvMap(slices[i..j], i) + (InvMap(slices[j..k], j) + InvMap(slices[k..], k)))
  {
    hide InvMap;
    var a, b, c, d := slices[..i], slices[i..j], slices[j..k], slices[k..];
    assert slices == a + (b + (c + d));
    InvMapConcat(a, b + (c + d), 0);
    InvMapConcat(b, c + d, i);
    InvMapConcat(c, d, j);
  }

  /** Slice 0 and the block from `u` are all that survive, since they already make up the rank. */
  lemma InvMapLeftPadded(slices: seq<Slice>, dr: nat, u: nat)
    requires LeftPaddedAt(slices, dr, u) && dr == Rank(slices)
    ensures InvMap(slices, 0)[0] == 0 && forall j | 1 <= j < dr :: InvMap(slices, 0)[j] == u + j - 1
    ensures forall k | 1 <= k < u :: slices[k].Index?
  {
    hide InvMap;
    var a, b, c, d := slices[..1], slices[1..u], slices[u..u + dr - 1], slices[u + dr - 1..];
    InvMapSplit(slices, 1, u, u + dr - 1);
    InvMapNoIndex(a, 0);
    InvMapNoIndex(c, u);
    assert |InvMap(b, 1)| == 0;
    InvMapAllIndex(b, 1);
    assert forall k | 1 <= k < u :: slices[k] == b[k - 1];
  }

  lemma InvMapRightPadded(slices: seq<Slice>, dr: nat, u: nat)
    requires RightPaddedAt(slices, dr, u) && dr == Rank(slices)
    ensures InvMap(slices, 0)[dr - 1] == |slices| - 1
    ensures forall j | 0 <= j < dr - 1 :: InvMap(slices, 0)[j] == u - (dr - 2) + j
    ensures forall k | u < k < |slices| - 1 :: slices[k].Index?
  {
    hide InvMap, NoIndex;
    var f, n := u - (dr - 2), |slices|;
    assert 0 <= f && u + 1 < n && dr >= 2;
    hide RightPaddedAt;
    var a, b, c, d := slices[..f], slices[f..u + 1], slices[u + 1..n - 1], slices[n - 1..];
    InvMapSplit(slices, f, u + 1, n - 1);
    RightPaddedSurvivors(slices, dr, u, b, d);
    InvMapNoIndex(b, f);
    InvMapNoIndex(d, n - 1);
    InvMapAllIndex(c, u + 1);
    var ia, ib, ic, id := InvMap(a, 0), InvMap(b, f), InvMap(c, u + 1), InvMap(d, n - 1);
    assert |ia| == 0 && |ic| == 0;
    OnlyMiddle(InvMap(slices, 0), ia, ib, ic, id);
    assert forall k | u < k < n - 1 :: slices[k] == c[k - u - 1];
  }

  lemma OnlyMiddle(im: seq<nat>, a: seq<nat>, b: seq<nat>, c: seq<nat>, d: seq<nat>)
    requires im == a + (b + (c + d)) && |a| == |c| == 0 && |d| == 1
    ensures |im| == |b| + 1 && im[|b|] == d[0] && forall j | 0 <= j < |b| :: im[j] == b[j]
  {
  }

  lemma RightPaddedSurvivors(slices: seq<Slice>, dr: nat, u: nat, b: seq<Slice>, d: seq<Slice>)
    requires RightPaddedAt(slices, dr, u)
    requires b == slices[u - (dr - 2)..u + 1] && d == slices[|slices| - 1..]
    ensures NoIndex(b) && NoIndex(d)
  {
    forall k | 0 <= k < |b| ensures !b[k].Index? {
      assert b[k] == slices[u - (dr - 2) + k];
    }
  }

  // ----- Shortcuts that keep the layout

  /** Entry `j` of the sub-extents and of the generic strides, for a surviving unit-stride slice. */
  lemma UnitEntry(m: Mapping, slices: seq<Slice>, j: nat, k: nat)
    requires WellFormed(m) && |slices| == |m.extents| && j < Rank(slices)
    requires InvMap(slices, 0)[j] == k && k < |slices| && IsUnitStride(slices[k])
    ensures |SubExtents(slices, m.extents)| == |SubStrides(slices, Strides(m))| == Rank(slices)
    ensures SubStrides(slices, Strides(m))[j] == Stride(m, k)
    ensures SubExtents(slices, m.extents)[j] == Count(slices[k], m.extents[k])
    ensures slices[k].Full? ==> SubExtents(slices, m.extents)[j] == m.extents[k]
  {
    hide InvMap, SubExtents, SubStrides, Stride, IsUnitStride, Factor;
    SubEntry(slices, m.extents, 0, j);
    SubEntry(slices, Strides(m), 0, j);
    UnitFactor(slices[k]);
  }

  lemma LeftKeeps(e: seq<nat>, slices: seq<Slice>, dr: nat)
    requires |slices| == |e| && dr == Rank(slices) && LeftPreserving(slices, dr)
    ensures Agrees(Left(SubExtents(slices, e)), Left(e), slices)
  {
    hide InvMap, SubExtents, SubStrides, Product;
    if dr > 0 {
      InvMapPrefix(slices, dr);
      var m, sub := Left(e), SubExtents(slices, e);
      SubLengths(slices, e, 0);
      SubLengths(slices, Strides(m), 0);
      forall j | 0 <= j < dr
        ensures SubStrides(slices, Strides(m))[j] == Stride(m, j) && (j < dr - 1 ==> sub[j] == e[j])
      {
        UnitEntry(m, slices, j, j);
      }
      forall j | 0 <= j < dr ensures Stride(Left(sub), j) == Stride(m, j) {
        assert sub[..j] == e[..j];
      }
      assert Strides(Left(sub)) == SubStrides(slices, Strides(m));
    } else {
      SubLengths(slices, e, 0);
      SubLengths(slices, Strides(Left(e)), 0);
      assert Strides(Left(SubExtents(slices, e))) == [];
    }
  }

  lemma RightKeeps(e: seq<nat>, slices: seq<Slice>, dr: nat)
    requires |slices| == |e| && dr == Rank(slices) && RightPreserving(slices, dr)
    ensures Agrees(Right(SubExtents(slices, e)), Right(e), slices)
  {
    hide InvMap, SubExtents, SubStrides, Product;
    if dr > 0 {
      var d := |slices| - dr;
      InvMapSuffix(slices, d);
      var m, sub := Right(e), SubExtents(slices, e);
      SubLengths(slices, e, 0);
      SubLengths(slices, Strides(m), 0);
      forall j | 0 <= j < dr
        ensures SubStrides(slices, Strides(m))[j] == Stride(m, d + j) && (j > 0 ==> sub[j] == e[d + j])
      {
        UnitEntry(m, slices, j, d + j);
      }
      forall j | 0 <= j < dr ensures Stride(Right(sub), j) == Stride(m, d + j) {
        assert sub[j + 1..] == e[d + j + 1..];
      }
      assert Strides(Right(sub)) == SubStrides(slices, Strides(m));
    } else {
      SubLengths(slices, e, 0);
      SubLengths(slices, Strides(Right(e)), 0);
      assert Strides(Right(SubExtents(slices, e))) == [];
    }
  }

  // ----- Shortcuts that pad

  /** A source whose first (last) dimension is contiguous and whose padding has room. */
  predicate LeftLike(m: Mapping) { m.Left? || (m.LeftPadded? && Padded(m)) }
  predicate RightLike(m: Mapping) { m.Right? || (m.RightPadded? && Padded(m)) }

  lemma StrideChainLeft(m: Mapping, u: nat, k: nat)
    requires LeftLike(m) && 1 <= u && u + k < |m.extents|
    ensures Stride(m, u + k) == Stride(m, u) * Product(m.extents[u..u + k])
  {
    var e := m.extents;
    if m.Left? {
      assert e[..u + k] == e[..u] + e[u..u + k];
      ProductConcat(e[..u], e[u..u + k]);
    } else {
      assert e[1..u + k] == e[1..u] + e[u..u + k];
      ProductConcat(e[1..u], e[u..u + k]);
      MulAssoc(m.stride1, Product(e[1..u]), Product(e[u..u + k]));
    }
  }

  /** The stride of dimension `u` has room for the first extent, if the ones between are not empty. */
  lemma StrideHasRoomLeft(m: Mapping, u: nat)
    requires LeftLike(m) && 1 <= u < |m.extents| && forall k | 1 <= k < u :: m.extents[k] > 0
    ensures m.extents[0] <= Stride(m, u)
  {
    var e := m.extents;
    var p := Product(e[1..u]);
    ProductPositive(e[1..u]);
    if m.Left? {
      assert e[..u][1..] == e[1..u] && e[..u][0] == e[0];
      MulMono(1, p, e[0]);
    } else {
      MulMono(1, p, m.stride1);
    }
  }

  lemma FirstUnitFits(slices: seq<Slice>, e: seq<nat>)
    requires ValidSlices(slices, e) && |e| > 0 && IsUnitStride(slices[0])
    ensures Count(slices[0], e[0]) <= e[0]
  {
    assert ValidSlice(slices[0], e[0]);
  }

  /** What left_padded_stride_index yields: a padded mapping with the generic strides. */
  lemma LeftPads(m: Mapping, slices: seq<Slice>, dr: nat, u: nat)
    requires LeftLike(m) && ValidSlices(slices, m.extents) && dr == Rank(slices) && LeftPaddedAt(slices, dr, u)
    ensures var sub := SubExtents(slices, m.extents);
            && |sub| == dr
            && Agrees(LeftPadded(sub, LeastMultipleAtLeast(Stride(m, u), sub[0])), m, slices)
  {
    hide InvMap, SubExtents, SubStrides, Product, Stride, LeastMultipleAtLeast;
    var e, sub := m.extents, SubExtents(slices, m.extents);
    InvMapLeftPadded(slices, dr, u);
    SubLengths(slices, e, 0);
    SubLengths(slices, Strides(m), 0);
    UnitEntry(m, slices, 0, 0);
    FirstUnitFits(slices, e);
    if !Empty(sub) {
      forall k | 1 <= k < u ensures e[k] > 0 { assert ValidSlice(slices[k], e[k]); }
      StrideHasRoomLeft(m, u);
      RoundsToPadding(Stride(m, u), sub[0]);
      var dst := LeftPadded(sub, Stride(m, u));
      forall j | 0 <= j < dr ensures Strides(dst)[j] == SubStrides(slices, Strides(m))[j] {
        LeftPadsAt(m, slices, dr, u, j, sub, dst);
      }
    }
  }

  lemma LeftPadsAt(m: Mapping, slices: seq<Slice>, dr: nat, u: nat, j: nat, sub: seq<nat>, dst: Mapping)
    requires LeftLike(m) && |slices| == |m.extents| && dr == Rank(slices) && LeftPaddedAt(slices, dr, u) && j < dr
    requires sub == SubExtents(slices, m.extents) && |sub| == dr && dst == LeftPadded(sub, Stride(m, u))
    ensures |SubStrides(slices, Strides(m))| == dr
    ensures Stride(dst, j) == SubStrides(slices, Strides(m))[j]
  {
    hide InvMap, SubExtents, SubStrides, Product;
    InvMapLeftPadded(slices, dr, u);
    if j == 0 {
      UnitEntry(m, slices, 0, 0);
      EmptyProduct(m.extents[..0]);
    } else {
      UnitEntry(m, slices, j, u + j - 1);
      StrideChainLeft(m, u, j - 1);
      forall i | 1 <= i < j ensures sub[i] == m.extents[u + i - 1] {
        UnitEntry(m, slices, i, u + i - 1);
      }
      assert sub[1..j] == m.extents[u..u + j - 1];
    }
  }

  lemma EmptyProduct(a: seq<nat>)
    requires a == []
    ensures Product(a) == 1
  {
  }

  lemma StrideChainRight(m: Mapping, u: nat, k: nat)
    requires RightLike(m) && u + 1 < |m.extents| && k <= u
    ensures Stride(m, u - k) == Stride(m, u) * Product(m.extents[u - k + 1..u + 1])
  {
    var e, n := m.extents, |m.extents|;
    var mid := e[u - k + 1..u + 1];
    hide Product;
    if m.Right? {
      assert e[u - k + 1..] == mid + e[u + 1..];
      ProductConcat(mid, e[u + 1..]);
    } else {
      StrideChainPadded(m, u, k);
    }
  }

  lemma StrideChainPadded(m: Mapping, u: nat, k: nat)
    requires m.RightPadded? && u + 1 < |m.extents| && k <= u
    ensures Stride(m, u - k) == Stride(m, u) * Product(m.extents[u - k + 1..u + 1])
  {
    var e, n := m.extents, |m.extents|;
    var mid, rest := e[u - k + 1..u + 1], e[u + 1..n - 1];
    hide Product;
    assert e[u - k + 1..n - 1] == mid + rest;
    ProductConcat(mid, rest);
    var a, b := Product(mid), Product(rest);
    assert Stride(m, u - k) == m.strideRm2 * (a * b) && Stride(m, u) == m.strideRm2 * b;
    hide Stride;
    MulCommute(a, b);
    MulAssoc(m.strideRm2, b, a);
  }

  lemma MulCommute(a: nat, b: nat)
    ensures a * b == b * a
  {
  }

  lemma StrideHasRoomRight(m: Mapping, u: nat)
    requires RightLike(m) && u + 1 < |m.extents| && forall k | u < k < |m.extents| - 1 :: m.extents[k] > 0
    ensures m.extents[|m.extents| - 1] <= Stride(m, u)
  {
    var e, n := m.extents, |m.extents|;
    var p := Product(e[u + 1..n - 1]);
    ProductPositive(e[u + 1..n - 1]);
    if m.Right? {
      assert e[u + 1..] == e[u + 1..n - 1] + [e[n - 1]];
      ProductConcat(e[u + 1..n - 1], [e[n - 1]]);
      assert Product([e[n - 1]]) == e[n - 1];
      MulMono(1, p, e[n - 1]);
    } else {
      MulMono(1, p, m.strideRm2);
    }
  }

  /** What right_padded_stride_index yields. */
  lemma RightPads(m: Mapping, slices: seq<Slice>, dr: nat, u: nat)
    requires RightLike(m) && ValidSlices(slices, m.extents) && dr == Rank(slices) && RightPaddedAt(slices, dr, u)
    ensures var sub := SubExtents(slices, m.extents);
            && |sub| == dr
            && Agrees(RightPadded(sub, LeastMultipleAtLeast(Stride(m, u), sub[dr - 1])), m, slices)
  {
    hide InvMap, SubExtents, SubStrides, Product, Stride, LeastMultipleAtLeast;
    var e, sub := m.extents, SubExtents(slices, m.extents);
    InvMapRightPadded(slices, dr, u);
    SubLengths(slices, e, 0);
    SubLengths(slices, Strides(m), 0);
    UnitEntry(m, slices, dr - 1, |e| - 1);
    assert ValidSlice(slices[|e| - 1], e[|e| - 1]);
    if !Empty(sub) {
      forall k | u < k < |e| - 1 ensures e[k] > 0 { assert ValidSlice(slices[k], e[k]); }
      StrideHasRoomRight(m, u);
      RoundsToPadding(Stride(m, u), sub[dr - 1]);
      var dst := RightPadded(sub, Stride(m, u));
      forall j | 0 <= j < dr ensures Strides(dst)[j] == SubStrides(slices, Strides(m))[j] {
        RightPadsAt(m, slices, dr, u, j, sub, dst);
      }
    }
  }

  lemma RightPadsAt(m: Mapping, slices: seq<Slice>, dr: nat, u: nat, j: nat, sub: seq<nat>, dst: Mapping)
    requires RightLike(m) && |slices| == |m.extents| && dr == Rank(slices) && RightPaddedAt(slices, dr, u) && j < dr
    requires sub == SubExtents(slices, m.extents) && |sub| == dr && dst == RightPadded(sub, Stride(m, u))
    ensures |SubStrides(slices, Strides(m))| == dr
    ensures Stride(dst, j) == SubStrides(slices, Strides(m))[j]
  {
    hide InvMap, SubExtents, SubStrides, Product;
    InvMapRightPadded(slices, dr, u);
    var n := |slices|;
    if j == dr - 1 {
      UnitEntry(m, slices, j, n - 1);
      EmptyProduct(m.extents[n..]);
    } else {
      var k := dr - 2 - j;
      UnitEntry(m, slices, j, u - k);
      StrideChainRight(m, u, k);
      forall i | j < i < dr - 1 ensures sub[i] == m.extents[u - (dr - 2) + i] {
        UnitEntry(m, slices, i, u - (dr - 2) + i);
      }
      assert sub[j + 1..dr - 1] == m.extents[u - k + 1..u + 1];
    }
  }

  // ----- submdspan_mapping

  datatype Result = Result(mapping: Mapping, offset: nat)

  /** The element law and the span law together. */
  ghost predicate Correct(m: Mapping, slices: seq<Slice>, r: Result)
    requires WellFormed(m) && |slices| == |m.extents|
  {
    && WellFormed(r.mapping)
    && r.mapping.extents == SubExtents(slices, m.extents)
    && |r.mapping.extents| == |InvMap(slices, 0)|
    && r.offset + SpanSize(r.mapping) <= SpanSize(m)
    && forall idx | InSpace(idx, r.mapping.extents) ::
         && InSpace(Expand(slices, idx), m.extents)
         && At(r.mapping, idx) + r.offset == At(m, Expand(slices, idx))
  }

  lemma AgreesIsCorrect(dst: Mapping, m: Mapping, slices: seq<Slice>)
    requires WellFormed(m) && ValidSlices(slices, m.extents) && Agrees(dst, m, slices)
    ensures Correct(m, slices, Result(dst, Offset(m, slices)))
  {
    hide Offset, Expand, At, SpanSize, SubExtents, InvMap, SubStrides;
    SubLengths(slices, m.extents, 0);
    SpanLaw(dst, m, slices);
    forall idx | InSpace(idx, dst.extents)
      ensures InSpace(Expand(slices, idx), m.extents)
      ensures At(dst, idx) + Offset(m, slices) == At(m, Expand(slices, idx))
    {
      ElementLaw(dst, m, slices, idx);
    }
  }

  lemma StridedAgrees(m: Mapping, slices: seq<Slice>)
    requires WellFormed(m) && |slices| == |m.extents|
    ensures Agrees(Strided(SubExtents(slices, m.extents), BuildSubStrides(slices, Strides(m))), m, slices)
  {
    BuildIsRecursion(slices, Strides(m));
    SubLengths(slices, m.extents, 0);
    SubLengths(slices, Strides(m), 0);
    var dst := Strided(SubExtents(slices, m.extents), BuildSubStrides(slices, Strides(m)));
    assert Strides(dst) == dst.strides;
  }

  /** A scalar result, or one contiguous dimension. */
  lemma ScalarAgrees(m: Mapping, slices: seq<Slice>)
    requires WellFormed(m) && |slices| == |m.extents| && Rank(slices) == 0
    ensures Agrees(Left(SubExtents(slices, m.extents)), m, slices)
    ensures Agrees(Right(SubExtents(slices, m.extents)), m, slices)
  {
    SubLengths(slices, m.extents, 0);
    SubLengths(slices, Strides(m), 0);
    assert Strides(Left(SubExtents(slices, m.extents))) == [];
    assert Strides(Right(SubExtents(slices, m.extents))) == [];
  }

  /** One surviving dimension whose source stride is one. */
  lemma ContiguousAgrees(m: Mapping, slices: seq<Slice>, k: nat)
    requires WellFormed(m) && |slices| == |m.extents| && Rank(slices) == 1 && k < |slices|
    requires IsUnitStride(slices[k]) && Stride(m, k) == 1 && (k == 0 || k == |slices| - 1)
    ensures Agrees(Left(SubExtents(slices, m.extents)), m, slices)
    ensures Agrees(Right(SubExtents(slices, m.extents)), m, slices)
  {
    OnlySurvivor(slices, k, 0);
    UnitEntry(m, slices, 0, k);
    var sub := SubExtents(slices, m.extents);
    assert sub[..0] == [] && sub[1..] == [];
    assert Strides(Left(sub)) == [1] && Strides(Right(sub)) == [1];
  }

  lemma {:induction false} OnlySurvivor(slices: seq<Slice>, k: nat, c: nat)
    requires k < |slices| && !slices[k].Index? && |InvMap(slices, c)| == 1
    ensures InvMap(slices, c)[0] == c + k
  {
    if k > 0 {
      assert slices[1..][k - 1] == slices[k];
      if slices[0].Index? {
        OnlySurvivor(slices[1..], k - 1, c + 1);
      } else {
        InvMapAllIndex(slices[1..], c + 1);
      }
    }
  }

  /**
    Which layout the result has.  The offset is the common one; a left source, or with `padded`
    a left padded one, keeps its layout or is padded where the pattern of the slices allows it.
   */
  ghost predicate LeftChoice(m: Mapping, slices: seq<Slice>, r: Result)
    requires LeftLike(m) && |slices| == |m.extents|
  {
    var sub := SubExtents(slices, m.extents);
    var dr := |sub|;
    && r.offset == Offset(m, slices)
    && if m.LeftPadded? && m.extents == [] then r.mapping == m
       else if dr == 0 || (if m.Left? then LeftPreserving(slices, dr) else dr == 1 && (slices[0].Full? || slices[0].Unit?))
         then r.mapping == Left(sub)
       else if exists u :: LeftPaddedAt(slices, dr, u) then
         exists u :: LeftPaddedAt(slices, dr, u) && r.mapping == LeftPadded(sub, LeastMultipleAtLeast(Stride(m, u), sub[0]))
       else r.mapping == Strided(sub, SubStrides(slices, Strides(m)))
  }

  ghost predicate RightChoice(m: Mapping, slices: seq<Slice>, r: Result)
    requires RightLike(m) && |slices| == |m.extents|
  {
    var sub, last := SubExtents(slices, m.extents), |slices| - 1;
    var dr := |sub|;
    && r.offset == Offset(m, slices)
    && if m.RightPadded? && m.extents == [] then r.mapping == m
       else if dr == 0 || (if m.Right? then RightPreserving(slices, dr)
                           else dr == 1 && last >= 0 && (slices[last].Full? || slices[last].Unit?))
         then r.mapping == Right(sub)
       else if exists u :: RightPaddedAt(slices, dr, u) then
         exists u :: RightPaddedAt(slices, dr, u) && r.mapping == RightPadded(sub, LeastMultipleAtLeast(Stride(m, u), sub[dr - 1]))
       else r.mapping == Strided(sub, SubStrides(slices, Strides(m)))
  }

  /** submdspan_mapping of a left mapping. */
  method SubmdspanLeft(e: seq<nat>, slices: seq<Slice>) returns (r: Result)
    requires ValidSlices(slices, e)
    ensures Correct(Left(e), slices, r) && LeftChoice(Left(e), slices, r)
  {
    hide Correct, Agrees, InvMap, SubExtents, SubStrides, LeftPreserving, LeftPaddedAt;
    var m := Left(e);
    var sub := SubExtents(slices, e);
    SubLengths(slices, e, 0);
    var dr := |sub|;
    var mapping;
    if dr == 0 {
      ScalarAgrees(m, slices);
      mapping := Left(sub);
    } else {
      var keeps := CheckLeftPreserving(slices, dr);
      if keeps {
        LeftKeeps(e, slices, dr);
        mapping := Left(sub);
      } else {
        var u := LeftPaddedIndex(slices, dr);
        if u != |e| {
          LeftPads(m, slices, dr, u);
          LeftPaddedInRange(slices, dr, u);
          mapping := LeftPadded(sub, LeastMultipleAtLeast(Stride(m, u), sub[0]));
        } else {
          StridedAgrees(m, slices);
          BuildIsRecursion(slices, Strides(m));
          mapping := Strided(sub, BuildSubStrides(slices, Strides(m)));
        }
      }
    }
    AgreesIsCorrect(mapping, m, slices);
    r := Result(mapping, Offset(m, slices));
  }

  lemma LeftPaddedInRange(slices: seq<Slice>, dr: nat, u: nat)
    requires LeftPaddedAt(slices, dr, u)
    ensures u < |slices| && dr >= 2
  {
  }

  lemma RightPaddedInRange(slices: seq<Slice>, dr: nat, u: nat)
    requires RightPaddedAt(slices, dr, u)
    ensures u < |slices| && dr >= 2
  {
  }

  /** submdspan_mapping of a right mapping. */
  method SubmdspanRight(e: seq<nat>, slices: seq<Slice>) returns (r: Result)
    requires ValidSlices(slices, e)
    ensures Correct(Right(e), slices, r) && RightChoice(Right(e), slices, r)
  {
    hide Correct, Agrees, InvMap, SubExtents, SubStrides, RightPreserving, RightPaddedAt;
    var m := Right(e);
    var sub := SubExtents(slices, e);
    SubLengths(slices, e, 0);
    var dr := |sub|;
    var mapping;
    if dr == 0 {
      ScalarAgrees(m, slices);
      mapping := Right(sub);
    } else {
      var keeps := CheckRightPreserving(slices, dr);
      if keeps {
        RightKeeps(e, slices, dr);
        mapping := Right(sub);
      } else {
        var u := RightPaddedIndex(slices, dr);
        if u != |e| {
          RightPads(m, slices, dr, u);
          RightPaddedInRange(slices, dr, u);
          mapping := RightPadded(sub, LeastMultipleAtLeast(Stride(m, u), sub[dr - 1]));
        } else {
          StridedAgrees(m, slices);
          BuildIsRecursion(slices, Strides(m));
          mapping := Strided(sub, BuildSubStrides(slices, Strides(m)));
        }
      }
    }
    AgreesIsCorrect(mapping, m, slices);
    r := Result(mapping, Offset(m, slices));
  }

  /** submdspan_mapping of a strided mapping. */
  method SubmdspanStrided(m: Mapping, slices: seq<Slice>) returns (r: Result)
    requires m.Strided? && WellFormed(m) && ValidSlices(slices, m.extents)
    ensures Correct(m, slices, r) && r.offset == Offset(m, slices)
    ensures r.mapping == Strided(SubExtents(slices, m.extents), SubStrides(slices, Strides(m)))
  {
    hide Correct, Agrees;
    StridedAgrees(m, slices);
    BuildIsRecursion(slices, Strides(m));
    var mapping := Strided(SubExtents(slices, m.extents), BuildSubStrides(slices, Strides(m)));
    AgreesIsCorrect(mapping, m, slices);
    r := Result(mapping, Offset(m, slices));
  }

  lemma RankZeroPadded(m: Mapping, slices: seq<Slice>)
    requires (m.LeftPadded? || m.RightPadded?) && m.extents == [] && slices == []
    ensures Agrees(m, m, slices) && Offset(m, slices) == 0
  {
    assert Strides(m) == [];
  }

  /** submdspan_mapping of a left padded mapping. */
  method SubmdspanLeftPadded(m: Mapping, slices: seq<Slice>) returns (r: Result)
    requires m.LeftPadded? && Padded(m) && ValidSlices(slices, m.extents)
    ensures Correct(m, slices, r) && LeftChoice(m, slices, r)
  {
    hide Correct, Agrees, InvMap, SubExtents, SubStrides, LeftPaddedAt;
    var e := m.extents;
    var mapping := m;
    if |e| == 0 {
      RankZeroPadded(m, slices);
    } else {
      var sub := SubExtents(slices, e);
      SubLengths(slices, e, 0);
      var dr := |sub|;
      if dr == 0 {
        ScalarAgrees(m, slices);
        mapping := Left(sub);
      } else if dr == 1 && IsUnitStride(slices[0]) {
        ContiguousAgrees(m, slices, 0);
        mapping := Left(sub);
      } else {
        var u := LeftPaddedIndex(slices, dr);
        if u != |e| {
          LeftPads(m, slices, dr, u);
          LeftPaddedInRange(slices, dr, u);
          mapping := LeftPadded(sub, LeastMultipleAtLeast(Stride(m, u), sub[0]));
        } else {
          StridedAgrees(m, slices);
          BuildIsRecursion(slices, Strides(m));
          mapping := Strided(sub, BuildSubStrides(slices, Strides(m)));
        }
      }
    }
    AgreesIsCorrect(mapping, m, slices);
    r := Result(mapping, Offset(m, slices));
  }

  /** submdspan_mapping of a right padded mapping. */
  method SubmdspanRightPadded(m: Mapping, slices: seq<Slice>) returns (r: Result)
    requires m.RightPadded? && Padded(m) && ValidSlices(slices, m.extents)
    ensures Correct(m, slices, r) && RightChoice(m, slices, r)
  {
    hide Correct, Agrees, InvMap, SubExtents, SubStrides, RightPaddedAt;
    var e := m.extents;
    var mapping := m;
    if |e| == 0 {
      RankZeroPadded(m, slices);
    } else {
      var sub := SubExtents(slices, e);
      SubLengths(slices, e, 0);
      var dr := |sub|;
      if dr == 0 {
        ScalarAgrees(m, slices);
        mapping := Right(sub);
      } else if dr == 1 && IsUnitStride(slices[|e| - 1]) {
        ContiguousAgrees(m, slices, |e| - 1);
        mapping := Right(sub);
      } else {
        var u := RightPaddedIndex(slices, dr);
        if u != |e| {
          RightPads(m, slices, dr, u);
          RightPaddedInRange(slices, dr, u);
          mapping := RightPadded(sub, LeastMultipleAtLeast(Stride(m, u), sub[dr - 1]));
        } else {
          StridedAgrees(m, slices);
          BuildIsRecursion(slices, Strides(m));
          mapping := Strided(sub, BuildSubStrides(slices, Strides(m)));
        }
      }
    }
    AgreesIsCorrect(mapping, m, slices);
    r := Result(mapping, Offset(m, slices));
  }
}
