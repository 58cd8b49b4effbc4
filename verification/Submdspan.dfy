/**
  Slicing a mapping.  Each layout has shortcuts that keep the layout or turn it into
  a padded one; the generic answer is always a strided mapping.  `Unit` is a slice
  whose stride is the compile-time constant one, `Range` one whose stride is only
  known at run time; only the former may take a shortcut.
 */
module Submdspan {
  import opened Layout
  import opened PaddedLayout

  datatype Slice =
    | Index(i: nat)
    | Full
    | Unit(offset: nat, count: nat)
    | Range(offset: nat, count: nat, stride: nat)

  predicate IsUnitStride(s: Slice) { s.Full? || s.Unit? }

  /** first_of */
  function First(s: Slice): nat {
    match s
    case Index(i) => i
    case Full => 0
    case Unit(o, _) => o
    case Range(o, _, _) => o
  }

  /** Extent of the dimension a slice leaves. */
  function Count(s: Slice, e: nat): nat {
    match s
    case Unit(_, c) => c
    case Range(_, c, _) => c
    case _ => e
  }

  /** Distance between neighbouring elements of the slice. */
  function Step(s: Slice): nat { if s.Range? then s.stride else 1 }

  /** Stride factor of the result: a slice of at most one element contributes one. */
  function Factor(s: Slice): nat { if s.Range? && s.count > 1 then s.stride else 1 }

  predicate ValidSlice(s: Slice, e: nat) {
    match s
    case Index(i) => i < e
    case Full => true
    case Unit(o, c) => o + c <= e
    case Range(o, c, st) => if c == 0 then o <= e else o + (c - 1) * st < e && (c > 1 ==> st > 0)
  }

  ghost predicate ValidSlices(slices: seq<Slice>, e: seq<nat>) {
    |slices| == |e| && forall k | 0 <= k < |e| :: ValidSlice(slices[k], e[k])
  }

  // ----- Ranges given by their ends

  /** canonical_range_slice: `[first, last)` in steps of `stride`. */
  function CanonicalRange(first: nat, last: nat, stride: nat): Slice
    requires first <= last && stride > 0
  {
    var span := last - first;
    if span == 0 then Range(first, 0, 1) else Range(first, 1 + (span - 1) / stride, stride)
  }

  /** The canonical slice has exactly the elements `first + k * stride` below `last`. */
  lemma CanonicalRangeExact(first: nat, last: nat, stride: nat, k: nat)
    requires first <= last && stride > 0
    ensures var s := CanonicalRange(first, last, stride);
            && First(s) == first
            && (k < s.count <==> first + k * stride < last)
            && (last <= k ==> ValidSlice(s, k))
  {
    var s := CanonicalRange(first, last, stride);
    var span := last - first;
    if span > 0 {
      var q := (span - 1) / stride;
      assert span - 1 == q * stride + (span - 1) % stride;
      assert (q + 1) * stride == q * stride + stride;
      if k <= q { MulMono(k, q, stride); } else { MulMono(q + 1, k, stride); }
    }
  }

  // ----- Sub-extents, offsets and the generic strides

  function SubExtents(slices: seq<Slice>, e: seq<nat>): seq<nat>
    requires |slices| == |e|
  {
    if slices == [] then []
    else (if slices[0].Index? then [] else [Count(slices[0], e[0])]) + SubExtents(slices[1..], e[1..])
  }

  function Firsts(slices: seq<Slice>): (f: seq<nat>)
    ensures |f| == |slices|
  {
    seq(|slices|, k requires 0 <= k < |slices| => First(slices[k]))
  }

  predicate OutOfBounds(slices: seq<Slice>, e: seq<nat>)
    requires |slices| == |e|
  {
    exists k | 0 <= k < |e| :: First(slices[k]) == e[k]
  }

  /** Offset of the first element; past the end when some slice starts at its extent. */
  function Offset(m: Mapping, slices: seq<Slice>): nat
    requires WellFormed(m) && |slices| == |m.extents|
  {
    if OutOfBounds(slices, m.extents) then SpanSize(m) else At(m, Firsts(slices))
  }

  /** inv_map_rank: source dimensions that survive, counting from `c`. */
  function InvMap(slices: seq<Slice>, c: nat): seq<nat> {
    if slices == [] then []
    else (if slices[0].Index? then [] else [c]) + InvMap(slices[1..], c + 1)
  }

  /** Strides of the generic result. */
  function BuildSubStrides(slices: seq<Slice>, strides: seq<nat>): seq<nat>
    requires |slices| == |strides|
  {
    var inv := InvMap(slices, 0);
    InvMapBounds(slices, 0);
    seq(|inv|, j requires 0 <= j < |inv| => strides[inv[j]] * Factor(slices[inv[j]]))
  }

  lemma {:induction false} InvMapBounds(slices: seq<Slice>, c: nat)
    ensures forall j | 0 <= j < |InvMap(slices, c)| ::
              && c <= InvMap(slices, c)[j] < c + |slices|
              && !slices[InvMap(slices, c)[j] - c].Index?
  {
    if slices != [] {
      InvMapBounds(slices[1..], c + 1);
    }
  }

  // ----- The same by recursion over the slices

  function SubStrides(slices: seq<Slice>, strides: seq<nat>): seq<nat>
    requires |slices| == |strides|
  {
    if slices == [] then []
    else (if slices[0].Index? then [] else [strides[0] * Factor(slices[0])]) + SubStrides(slices[1..], strides[1..])
  }

  lemma {:induction false} SubLengths(slices: seq<Slice>, e: seq<nat>, c: nat)
    requires |slices| == |e|
    ensures |SubExtents(slices, e)| == |SubStrides(slices, e)| == |InvMap(slices, c)|
  {
    if slices != [] { SubLengths(slices[1..], e[1..], c + 1); }
  }

  /** Entry `j` of both recursions belongs to source dimension `InvMap[j]`. */
  lemma {:induction false} SubEntry(slices: seq<Slice>, s: seq<nat>, c: nat, j: nat)
    requires |slices| == |s| && j < |InvMap(slices, c)|
    ensures |SubExtents(slices, s)| == |SubStrides(slices, s)| == |InvMap(slices, c)|
    ensures c <= InvMap(slices, c)[j] < c + |slices|
    ensures var k := InvMap(slices, c)[j] - c;
            && !slices[k].Index?
            && SubExtents(slices, s)[j] == Count(slices[k], s[k])
            && SubStrides(slices, s)[j] == s[k] * Factor(slices[k])
  {
    SubLengths(slices, s, c);
    SubLengths(slices[1..], s[1..], c + 1);
    if slices[0].Index? {
      SubEntry(slices[1..], s[1..], c + 1, j);
    } else if j > 0 {
      SubEntry(slices[1..], s[1..], c + 1, j - 1);
    }
  }

  lemma BuildIsRecursion(slices: seq<Slice>, strides: seq<nat>)
    requires |slices| == |strides|
    ensures BuildSubStrides(slices, strides) == SubStrides(slices, strides)
  {
    SubLengths(slices, strides, 0);
    forall j | 0 <= j < |InvMap(slices, 0)|
      ensures BuildSubStrides(slices, strides)[j] == SubStrides(slices, strides)[j]
    {
      SubEntry(slices, strides, 0, j);
    }
  }

  // ----- What the result must satisfy

  /** Where index `i` of the result lies in the source, along one surviving dimension. */
  function Coordinate(s: Slice, i: nat): nat { First(s) + i * Step(s) }

  /** The source index that index `idx` of the result stands for. */
  function Expand(slices: seq<Slice>, idx: seq<nat>): (r: seq<nat>)
    requires |idx| == |InvMap(slices, 0)|
    ensures |r| == |slices|
    decreases slices
  {
    if slices == [] then []
    else
      InvMapShift(slices[1..], 0, 1);
      if slices[0].Index? then [slices[0].i] + Expand(slices[1..], idx)
      else [Coordinate(slices[0], idx[0])] + Expand(slices[1..], idx[1..])
  }

  lemma {:induction false} InvMapShift(slices: seq<Slice>, c: nat, d: nat)
    ensures |InvMap(slices, c)| == |InvMap(slices, d)|
  {
    if slices != [] { InvMapShift(slices[1..], c + 1, d + 1); }
  }

  lemma HeadInSpace(s: Slice, e: nat, i: nat)
    requires ValidSlice(s, e)
    ensures s.Index? ==> s.i < e
    ensures !s.Index? && i < Count(s, e) ==> Coordinate(s, i) < e
  {
    if s.Range? && i < s.count { MulMono(i, s.count - 1, s.stride); }
  }

  /** Expansion stays inside the source index space. */
  lemma {:induction false} ExpandInSpace(slices: seq<Slice>, e: seq<nat>, idx: seq<nat>)
    requires ValidSlices(slices, e) && InSpace(idx, SubExtents(slices, e))
    ensures |idx| == |InvMap(slices, 0)| && InSpace(Expand(slices, idx), e)
    decreases slices
  {
    hide Coordinate, Count, ValidSlice;
    SubLengths(slices, e, 0);
    if slices != [] {
      InvMapShift(slices[1..], 0, 1);
      SubLengths(slices[1..], e[1..], 0);
      var s := slices[0];
      var rest := if s.Index? then idx else idx[1..];
      assert !s.Index? ==> SubExtents(slices, e)[1..] == SubExtents(slices[1..], e[1..]);
      HeadInSpace(s, e[0], if s.Index? then 0 else idx[0]);
      ExpandInSpace(slices[1..], e[1..], rest);
      assert Expand(slices, idx)[1..] == Expand(slices[1..], rest);
      var x := Expand(slices, idx);
      forall r | 0 <= r < |e| ensures x[r] < e[r] {
        if r > 0 { assert x[r] == x[1..][r - 1] && e[r] == e[1..][r - 1]; }
      }
    }
  }

  /** The arithmetic heart: a sliced dot product splits into offset and sub-strides. */
  lemma {:induction false} ExpandLinear(slices: seq<Slice>, e: seq<nat>, strides: seq<nat>, idx: seq<nat>)
    requires ValidSlices(slices, e) && |strides| == |e| && InSpace(idx, SubExtents(slices, e))
    ensures |idx| == |InvMap(slices, 0)| == |SubStrides(slices, strides)|
    ensures Dot(Expand(slices, idx), strides) == Dot(Firsts(slices), strides) + Dot(idx, SubStrides(slices, strides))
    decreases slices
  {
    SubLengths(slices, e, 0);
    SubLengths(slices, strides, 0);
    if slices != [] {
      InvMapShift(slices[1..], 0, 1);
      SubLengths(slices[1..], e[1..], 0);
      assert Firsts(slices)[1..] == Firsts(slices[1..]);
      var s := slices[0];
      var rest := if s.Index? then idx else idx[1..];
      assert Expand(slices, idx)[1..] == Expand(slices[1..], rest);
      assert s.Index? ==> SubStrides(slices, strides) == SubStrides(slices[1..], strides[1..]);
      assert !s.Index? ==> SubExtents(slices, e)[1..] == SubExtents(slices[1..], e[1..]);
      assert !s.Index? ==> SubStrides(slices, strides)[1..] == SubStrides(slices[1..], strides[1..]);
      ExpandLinear(slices[1..], e[1..], strides[1..], rest);
      hide Dot;
      DotUnfold(Expand(slices, idx), strides);
      DotUnfold(Firsts(slices), strides);
      if !s.Index? {
        DotUnfold(idx, SubStrides(slices, strides));
        HeadLinear(s, strides[0], idx[0]);
        hide First, Coordinate, Factor, Count, Firsts, SubStrides;
      }
    }
  }

  lemma DotUnfold(a: seq<nat>, b: seq<nat>)
    requires |a| == |b| && a != []
    ensures Dot(a, b) == a[0] * b[0] + Dot(a[1..], b[1..])
  {
  }

  lemma HeadLinear(s: Slice, stride: nat, i: nat)
    requires !s.Index? && (s.Range? ==> i < s.count)
    ensures Coordinate(s, i) * stride == First(s) * stride + i * (stride * Factor(s))
  {
    if s.Range? && s.count <= 1 {
      assert i == 0;
    } else {
      assert Step(s) == Factor(s);
      MulAssoc(i, stride, Factor(s));
      assert i * Step(s) * stride == i * stride * Step(s);
    }
  }

  // ----- A result whose strides agree with the generic ones is correct

  /** `dst` is a mapping of the sub-extents whose strides are the generic ones, unless it is empty. */
  ghost predicate Agrees(dst: Mapping, m: Mapping, slices: seq<Slice>)
    requires WellFormed(m) && |slices| == |m.extents|
  {
    && WellFormed(dst)
    && dst.extents == SubExtents(slices, m.extents)
    && (!Empty(dst.extents) ==> Strides(dst) == SubStrides(slices, Strides(m)))
  }

  /** Within bounds, the first element of the slice is an element of the source. */
  lemma FirstsInSpace(m: Mapping, slices: seq<Slice>)
    requires WellFormed(m) && ValidSlices(slices, m.extents) && !OutOfBounds(slices, m.extents)
    ensures InSpace(Firsts(slices), m.extents)
  {
    forall k | 0 <= k < |slices| ensures Firsts(slices)[k] < m.extents[k] {
      assert ValidSlice(slices[k], m.extents[k]);
    }
  }

  /** A slice that starts at its extent selects nothing. */
  lemma OutOfBoundsIsEmpty(m: Mapping, slices: seq<Slice>)
    requires WellFormed(m) && ValidSlices(slices, m.extents) && OutOfBounds(slices, m.extents)
    ensures Empty(SubExtents(slices, m.extents))
  {
    var k :| 0 <= k < |slices| && First(slices[k]) == m.extents[k];
    assert ValidSlice(slices[k], m.extents[k]);
    assert !slices[k].Index? && Count(slices[k], m.extents[k]) == 0;
    EmptyEntry(slices, m.extents, k);
  }

  lemma {:induction false} EmptyEntry(slices: seq<Slice>, e: seq<nat>, k: nat)
    requires |slices| == |e| && k < |e| && !slices[k].Index? && Count(slices[k], e[k]) == 0
    ensures Empty(SubExtents(slices, e))
  {
    var sub, tail := SubExtents(slices, e), SubExtents(slices[1..], e[1..]);
    if k == 0 {
      assert sub[0] == 0;
    } else {
      EmptyEntry(slices[1..], e[1..], k - 1);
      var r :| 0 <= r < |tail| && tail[r] == 0;
      assert sub[if slices[0].Index? then r else r + 1] == 0;
    }
  }

  /** Element law: index `idx` of the result is index `Expand` of the source. */
  lemma ElementLaw(dst: Mapping, m: Mapping, slices: seq<Slice>, idx: seq<nat>)
    requires WellFormed(m) && ValidSlices(slices, m.extents) && Agrees(dst, m, slices)
    requires InSpace(idx, dst.extents)
    ensures |idx| == |InvMap(slices, 0)| && InSpace(Expand(slices, idx), m.extents)
    ensures At(dst, idx) + Offset(m, slices) == At(m, Expand(slices, idx))
  {
    hide OutOfBounds;
    if OutOfBounds(slices, m.extents) { OutOfBoundsIsEmpty(m, slices); }
    SubLengths(slices, m.extents, 0);
    assert !Empty(dst.extents);
    ExpandInSpace(slices, m.extents, idx);
    ExpandLinear(slices, m.extents, Strides(m), idx);
  }

  /** The result never reaches past the end of the source. */
  lemma SpanLaw(dst: Mapping, m: Mapping, slices: seq<Slice>)
    requires WellFormed(m) && ValidSlices(slices, m.extents) && Agrees(dst, m, slices)
    ensures Offset(m, slices) + SpanSize(dst) <= SpanSize(m)
  {
    if Empty(dst.extents) {
      if !OutOfBounds(slices, m.extents) {
        FirstsInSpace(m, slices);
        AtBelowSpan(m, Firsts(slices));
      }
    } else {
      var last := Ones(dst.extents);
      hide Offset, Expand;
      ElementLaw(dst, m, slices, last);
      AtBelowSpan(m, Expand(slices, last));
    }
  }
}
