/**
  Which elements a slice selects, told from the slice's own fields: every index of the result
  stands for a selected source index, and every selected source index is the image of exactly
  one index of the result.
 */
module SubmdspanMeaning {
  import opened Layout
  import opened PaddedLayout
  import opened Submdspan

  // ----- Surviving dimensions

  /** The map lists the dimensions that are not fixed by an index, all of them, in order. */
  lemma {:induction false} SurvivorsExactly(slices: seq<Slice>, c: nat)
    ensures forall x: nat :: x in InvMap(slices, c) <==> c <= x < c + |slices| && !slices[x - c].Index?
    ensures forall i, j | 0 <= i < j < |InvMap(slices, c)| :: InvMap(slices, c)[i] < InvMap(slices, c)[j]
  {
    if slices != [] {
      var tail, rest := slices[1..], InvMap(slices[1..], c + 1);
      SurvivorsExactly(tail, c + 1);
      hide InvMap;
      var head := if slices[0].Index? then [] else [c];
      assert InvMap(slices, c) == head + rest by { InvMapUnfold(slices, c); }
      forall x: nat ensures x in head + rest <==> c <= x < c + |slices| && !slices[x - c].Index? {
        assert c < x < c + |slices| ==> tail[x - c - 1] == slices[x - c];
      }
      assert forall j | 0 <= j < |rest| :: rest[j] in rest;
    }
  }

  lemma InvMapUnfold(slices: seq<Slice>, c: nat)
    requires slices != []
    ensures InvMap(slices, c) == (if slices[0].Index? then [] else [c]) + InvMap(slices[1..], c + 1)
  {
  }

  // ----- One dimension

  /** Source coordinate `x` is the `i`-th that the slice selects. */
  predicate Nth(s: Slice, i: nat, x: nat) {
    match s
    case Index(at) => x == at
    case Full => x == i
    case Unit(o, _) => x == o + i
    case Range(o, _, st) => x == o + i * st
  }

  predicate IsStep(o: nat, st: nat, i: nat, x: nat) { x == o + i * st }

  /** `x` is one of the `c` coordinates from `o` in steps of `st`. */
  ghost predicate OnGrid(o: nat, c: nat, st: nat, x: nat) {
    exists i: nat :: i < c && IsStep(o, st, i, x)
  }

  /** The slice of an extent `e` selects source coordinate `x`. */
  ghost predicate Selects(s: Slice, e: nat, x: nat) {
    match s
    case Index(at) => x == at
    case Full => x < e
    case Unit(o, c) => o <= x < o + c
    case Range(o, c, st) => OnGrid(o, c, st, x)
  }

  lemma CoordinateIsNth(s: Slice, i: nat)
    requires !s.Index?
    ensures Nth(s, i, Coordinate(s, i))
  {
  }

  lemma CoordinateSelected(s: Slice, e: nat, i: nat)
    requires !s.Index? && i < Count(s, e)
    ensures Selects(s, e, Coordinate(s, i))
  {
    assert s.Range? ==> IsStep(s.offset, s.stride, i, Coordinate(s, i));
  }

  // ----- All dimensions

  /** What is left of an index once the first slice has had its share. */
  function Rest(s: Slice, idx: seq<nat>): seq<nat>
    requires s.Index? || idx != []
  {
    if s.Index? then idx else idx[1..]
  }

  lemma ExpandUnfold(slices: seq<Slice>, idx: seq<nat>)
    requires |idx| == |InvMap(slices, 0)| && slices != []
    ensures slices[0].Index? || idx != []
    ensures |Rest(slices[0], idx)| == |InvMap(slices[1..], 0)|
    ensures Expand(slices, idx) ==
      [if slices[0].Index? then slices[0].i else Coordinate(slices[0], idx[0])] + Expand(slices[1..], Rest(slices[0], idx))
  {
    InvMapShift(slices[1..], 0, 1);
    InvMapUnfold(slices, 0);
    hide Coordinate, InvMap;
  }

  lemma SubUnfold(slices: seq<Slice>, e: seq<nat>, idx: seq<nat>)
    requires |slices| == |e| && slices != [] && InSpace(idx, SubExtents(slices, e))
    ensures |idx| == |InvMap(slices, 0)|
    ensures slices[0].Index? || (idx != [] && idx[0] < Count(slices[0], e[0]))
    ensures InSpace(Rest(slices[0], idx), SubExtents(slices[1..], e[1..]))
  {
    SubExtentsUnfold(slices, e);
    SubLengths(slices, e, 0);
    hide Count, SubExtents, SubStrides, InvMap;
    if !slices[0].Index? { InSpaceTail(idx, Count(slices[0], e[0]), SubExtents(slices[1..], e[1..])); }
  }

  lemma InSpaceTail(idx: seq<nat>, n: nat, tail: seq<nat>)
    requires InSpace(idx, [n] + tail)
    ensures idx != [] && idx[0] < n && InSpace(idx[1..], tail)
  {
    forall r | 0 <= r < |tail| ensures idx[1..][r] < tail[r] {
      assert ([n] + tail)[r + 1] == tail[r];
    }
  }

  lemma SubExtentsUnfold(slices: seq<Slice>, e: seq<nat>)
    requires |slices| == |e| && slices != []
    ensures SubExtents(slices, e) ==
      (if slices[0].Index? then [] else [Count(slices[0], e[0])]) + SubExtents(slices[1..], e[1..])
  {
    hide Count;
  }

  /** Entry by entry: index `j` of the result moves along dimension `InvMap[j]` of the source as its slice says. */
  lemma {:induction false} ExpandEntry(slices: seq<Slice>, idx: seq<nat>, c: nat, j: nat)
    requires |idx| == |InvMap(slices, 0)| == |InvMap(slices, c)| && j < |idx|
    ensures c <= InvMap(slices, c)[j] < c + |slices|
    ensures var k := InvMap(slices, c)[j] - c; !slices[k].Index? && Nth(slices[k], idx[j], Expand(slices, idx)[k])
    decreases slices
  {
    hide Expand, Nth, Coordinate;
    InvMapShift(slices[1..], 0, c + 1);
    ExpandUnfold(slices, idx);
    if slices[0].Index? {
      ExpandEntry(slices[1..], idx, c + 1, j);
    } else if j > 0 {
      ExpandEntry(slices[1..], idx[1..], c + 1, j - 1);
    } else {
      CoordinateIsNth(slices[0], idx[0]);
    }
  }

  lemma {:induction false} ExpandFixed(slices: seq<Slice>, idx: seq<nat>, k: nat)
    requires |idx| == |InvMap(slices, 0)| && k < |slices| && slices[k].Index?
    ensures Expand(slices, idx)[k] == slices[k].i
    decreases slices
  {
    hide Expand, Coordinate;
    ExpandUnfold(slices, idx);
    if k > 0 { ExpandFixed(slices[1..], Rest(slices[0], idx), k - 1); }
  }

  /**
    The meaning of a slice, from its fields alone: along a unit range the source coordinate is
    the offset plus the index, along a strided one the offset plus the index times the stride,
    along a full dimension the index itself, and a dimension given by an index stays there.
   */
  lemma SliceMeaning(slices: seq<Slice>, e: seq<nat>, idx: seq<nat>, j: nat)
    requires |slices| == |e| && |idx| == |InvMap(slices, 0)| && j < |idx|
    ensures |SubExtents(slices, e)| == |idx| && InvMap(slices, 0)[j] < |slices|
    ensures var k := InvMap(slices, 0)[j]; var s, x, n := slices[k], Expand(slices, idx)[k], SubExtents(slices, e)[j];
      && !s.Index?
      && (s.Full? ==> x == idx[j] && n == e[k])
      && (s.Unit? ==> x == s.offset + idx[j] && n == s.count)
      && (s.Range? ==> x == s.offset + idx[j] * s.stride && n == s.count)
    ensures forall k | 0 <= k < |slices| && slices[k].Index? :: Expand(slices, idx)[k] == slices[k].i
  {
    SubEntry(slices, e, 0, j);
    ExpandEntry(slices, idx, 0, j);
    forall k | 0 <= k < |slices| && slices[k].Index? ensures Expand(slices, idx)[k] == slices[k].i {
      ExpandFixed(slices, idx, k);
    }
    hide InvMap, Expand, SubExtents, SubStrides;
  }

  /** The strides of the generic result: the source's, times the step of a range of several elements. */
  lemma StrideMeaning(slices: seq<Slice>, strides: seq<nat>, j: nat)
    requires |slices| == |strides| && j < |InvMap(slices, 0)|
    ensures |SubStrides(slices, strides)| == |InvMap(slices, 0)| && InvMap(slices, 0)[j] < |slices|
    ensures var k := InvMap(slices, 0)[j];
      SubStrides(slices, strides)[j] ==
        if slices[k].Range? && slices[k].count > 1 then strides[k] * slices[k].stride else strides[k]
  {
    SubEntry(slices, strides, 0, j);
    hide InvMap, SubExtents, SubStrides;
  }

  // ----- Both directions

  /** Every index of the result stands for a source index that is selected in every dimension. */
  lemma {:induction false} ExpandedIsSelected(slices: seq<Slice>, e: seq<nat>, idx: seq<nat>)
    requires |slices| == |e| && InSpace(idx, SubExtents(slices, e))
    ensures |idx| == |InvMap(slices, 0)|
    ensures forall k | 0 <= k < |slices| :: Selects(slices[k], e[k], Expand(slices, idx)[k])
    decreases slices
  {
    SubLengths(slices, e, 0);
    if slices != [] {
      hide Expand, InvMap, SubExtents, SubStrides, Coordinate, Selects, Count;
      var s := slices[0];
      SubUnfold(slices, e, idx);
      ExpandUnfold(slices, idx);
      ExpandedIsSelected(slices[1..], e[1..], Rest(s, idx));
      if !s.Index? { CoordinateSelected(s, e[0], idx[0]); } else { FixedSelected(s, e[0]); }
      var x := Expand(slices, idx);
      forall k | 0 <= k < |slices| ensures Selects(slices[k], e[k], x[k]) {
        if k > 0 { assert slices[k] == slices[1..][k - 1] && e[k] == e[1..][k - 1] && x[k] == x[1..][k - 1]; }
      }
    }
  }

  lemma FixedSelected(s: Slice, e: nat)
    requires s.Index?
    ensures Selects(s, e, s.i)
  {
  }

  /** Which index of the result stands for a selected coordinate. */
  lemma NthOf(s: Slice, e: nat, x: nat) returns (i: nat)
    requires !s.Index? && Selects(s, e, x)
    ensures i < Count(s, e) && Coordinate(s, i) == x
  {
    if s.Full? {
      i := x;
    } else if s.Unit? {
      i := x - s.offset;
    } else {
      i :| i < s.count && IsStep(s.offset, s.stride, i, x);
    }
  }

  /** Conversely, every source index selected in all dimensions is reached. */
  lemma {:induction false} SelectedIsExpanded(slices: seq<Slice>, e: seq<nat>, x: seq<nat>) returns (idx: seq<nat>)
    requires |slices| == |e| == |x| && forall k | 0 <= k < |x| :: Selects(slices[k], e[k], x[k])
    ensures InSpace(idx, SubExtents(slices, e)) && |idx| == |InvMap(slices, 0)| && Expand(slices, idx) == x
    decreases slices
  {
    if slices == [] {
      idx := [];
    } else {
      hide Selects, Coordinate, Count, Expand, SubExtents, InvMap;
      SubExtentsUnfold(slices, e);
      InvMapUnfold(slices, 0);
      assert forall k | 0 <= k < |x| - 1 :: slices[1..][k] == slices[k + 1] && e[1..][k] == e[k + 1] && x[1..][k] == x[k + 1];
      var rest := SelectedIsExpanded(slices[1..], e[1..], x[1..]);
      InvMapShift(slices[1..], 0, 1);
      var s := slices[0];
      assert Selects(s, e[0], x[0]);
      if s.Index? {
        idx := rest;
        OnlyFixed(s, e[0], x[0]);
      } else {
        var i := NthOf(s, e[0], x[0]);
        idx := [i] + rest;
        assert idx[1..] == rest;
      }
      ExpandUnfold(slices, idx);
      assert x == [x[0]] + x[1..];
    }
  }

  lemma OnlyFixed(s: Slice, e: nat, x: nat)
    requires s.Index? && Selects(s, e, x)
    ensures x == s.i
  {
  }

  lemma NthInjective(s: Slice, e: nat, i: nat, j: nat)
    requires ValidSlice(s, e) && !s.Index? && i < j < Count(s, e)
    ensures Coordinate(s, i) < Coordinate(s, j)
  {
    if s.Range? {
      MulMono(i + 1, j, s.stride);
      assert (i + 1) * s.stride == i * s.stride + s.stride;
    }
  }

  lemma ConsInjective(x: nat, p: seq<nat>, y: nat, q: seq<nat>)
    requires [x] + p == [y] + q
    ensures x == y && p == q
  {
    assert ([x] + p)[0] == x && ([y] + q)[0] == y && ([x] + p)[1..] == p && ([y] + q)[1..] == q;
  }

  lemma SameParts(a: seq<nat>, b: seq<nat>)
    requires a != [] && b != [] && a[0] == b[0] && a[1..] == b[1..]
    ensures a == b
  {
    assert a == [a[0]] + a[1..] && b == [b[0]] + b[1..];
  }

  lemma ValidParts(slices: seq<Slice>, e: seq<nat>)
    requires ValidSlices(slices, e) && slices != []
    ensures ValidSlice(slices[0], e[0]) && ValidSlices(slices[1..], e[1..])
  {
    hide ValidSlice;
  }

  /** No source index is reached twice. */
  lemma {:induction false} ExpandInjective(slices: seq<Slice>, e: seq<nat>, a: seq<nat>, b: seq<nat>)
    requires ValidSlices(slices, e) && InSpace(a, SubExtents(slices, e)) && InSpace(b, SubExtents(slices, e))
    ensures |a| == |b| == |InvMap(slices, 0)|
    ensures Expand(slices, a) == Expand(slices, b) ==> a == b
    decreases slices
  {
    SubLengths(slices, e, 0);
    if slices != [] {
      hide ValidSlice, ValidSlices, Coordinate, Count, Expand, SubExtents, SubStrides, InvMap, InSpace;
      var s := slices[0];
      ValidParts(slices, e);
      SubUnfold(slices, e, a);
      SubUnfold(slices, e, b);
      ExpandUnfold(slices, a);
      ExpandUnfold(slices, b);
      ExpandInjective(slices[1..], e[1..], Rest(s, a), Rest(s, b));
      if Expand(slices, a) == Expand(slices, b) {
        var p, q := Expand(slices[1..], Rest(s, a)), Expand(slices[1..], Rest(s, b));
        if s.Index? {
          ConsInjective(s.i, p, s.i, q);
        } else {
          ConsInjective(Coordinate(s, a[0]), p, Coordinate(s, b[0]), q);
          if a[0] < b[0] { NthInjective(s, e[0], a[0], b[0]); }
          if b[0] < a[0] { NthInjective(s, e[0], b[0], a[0]); }
          SameParts(a, b);
        }
      }
    }
  }

  // ----- The offset

  /** `x` is where the slice begins. */
  predicate Begins(s: Slice, x: nat) {
    match s
    case Index(at) => x == at
    case Full => x == 0
    case Unit(o, _) => x == o
    case Range(o, _, _) => x == o
  }

  /** The offset is that of the slices' beginnings, unless one of them begins at its extent: then it is the span. */
  lemma OffsetExactly(m: Mapping, slices: seq<Slice>, x: seq<nat>)
    requires WellFormed(m) && |slices| == |m.extents| == |x| && forall k | 0 <= k < |x| :: Begins(slices[k], x[k])
    ensures Offset(m, slices) == if exists k :: 0 <= k < |x| && x[k] == m.extents[k] then SpanSize(m) else At(m, x)
  {
    assert x == Firsts(slices);
    assert OutOfBounds(slices, m.extents) <==> exists k :: 0 <= k < |x| && x[k] == m.extents[k];
  }
}
