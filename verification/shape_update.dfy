/**
 * The shape-merging step of array-construction discovery (`update_shape` in
 * array_coercion.c).  `shape` is the running output shape: one slot per
 * possible dimension, -1 while no extent is known.  `maxNdim` is the running
 * dimension limit, which a ragged input shrinks.
 */
module ShapeUpdate {
  import opened Wrappers

  /** The three outputs of one call: success flag, new limit, new shape. */
  datatype Update = Update(ok: bool, maxNdim: int, shape: seq<int>)

  /** Slot `k` still accepts extent `d`: it is unset, or it already holds `d`. */
  predicate Compatible(slot: int, d: nat) {
    slot == -1 || slot == d
  }

  /** How many of the new dimensions are compared: all of them, or only those
      that still fit below the limit. */
  function CheckedDims(curr: nat, maxNdim: int, newShape: seq<nat>): int {
    if curr + |newShape| > maxNdim then maxNdim - curr else |newShape|
  }

  /** The first of the `n` compared dimensions whose slot holds a different
      extent, or `n` when there is none. */
  function FirstMismatch(shape: seq<int>, curr: nat, newShape: seq<nat>, n: int, j: nat): (k: nat)
    requires n <= |newShape| && curr + n <= |shape|
    requires j <= n || n < 0
    ensures n < 0 ==> k == j
    ensures n >= 0 ==> j <= k <= n
    ensures n >= 0 && k < n ==> !Compatible(shape[curr + k], newShape[k])
    ensures forall i :: j <= i < k && i < n ==> Compatible(shape[curr + i], newShape[i])
    decreases if n < 0 then 0 else n - j
  {
    if n < 0 || j >= n then j
    else if !Compatible(shape[curr + j], newShape[j]) then j
    else FirstMismatch(shape, curr, newShape, n, j + 1)
  }

  /** `shape` with the unset slots among the first `j` new dimensions filled. */
  function Fill(shape: seq<int>, curr: nat, newShape: seq<nat>, j: nat): (r: seq<int>)
    requires j <= |newShape| && curr + j <= |shape|
    ensures |r| == |shape|
  {
    seq(|shape|, k requires 0 <= k < |shape| =>
      if curr <= k < curr + j && shape[k] == -1 then newShape[k - curr] else shape[k])
  }

  /** The limit left after a mismatch at compared dimension `i`, where `n`
      dimensions were compared against a limit `maxNdim`. */
  function TrimmedLimit(variant: Variant, sequence: bool, curr: nat, maxNdim: int, n: int, i: nat): int {
    if sequence then curr
    else match variant
      case AsWritten => maxNdim - (n + i)
      case Intended => maxNdim - (n - i)
  }

  /** One call of `update_shape`. */
  function UpdateShape(curr: nat, maxNdim: int, shape: seq<int>, newShape: seq<nat>,
                       sequence: bool, variant: Variant): (u: Update)
    requires maxNdim <= |shape|
    ensures |u.shape| == |shape|
    // the limit never grows, and a sequence that fits leaves it alone
    ensures u.maxNdim <= maxNdim
    ensures sequence && u.ok ==> u.maxNdim == maxNdim
    // only unset slots among the compared dimensions are written
    ensures forall k :: 0 <= k < |shape| && shape[k] != -1 ==> u.shape[k] == shape[k]
    ensures forall k :: 0 <= k < |shape| && u.shape[k] != shape[k] ==>
              curr <= k < curr + CheckedDims(curr, maxNdim, newShape) && u.shape[k] == newShape[k - curr]
    // the intended trimming never drops the limit below the current depth
    ensures variant == Intended ==> u.maxNdim >= (if curr <= maxNdim then curr else maxNdim)
  {
    var over := curr + |newShape| > maxNdim;
    var n := CheckedDims(curr, maxNdim, newShape);
    var ok0 := if over then false
               else if !sequence && maxNdim != curr + |newShape| then shape[curr + |newShape|] < 0
               else true;
    var max0 := if !over && !sequence then curr + |newShape| else maxNdim;
    var j := FirstMismatch(shape, curr, newShape, n, 0);
    var filled := if n < 0 then shape else Fill(shape, curr, newShape, j);
    if 0 <= n && j < n then Update(false, TrimmedLimit(variant, sequence, curr, max0, n, j), filled)
    else Update(ok0, max0, filled)
  }

  /** Success exactly when everything fits and every slot agrees; then the new
      extents are in place. */
  lemma UpdateShapeSucceeds(curr: nat, maxNdim: int, shape: seq<int>, newShape: seq<nat>,
                            sequence: bool, variant: Variant)
    requires maxNdim <= |shape|
    ensures var u := UpdateShape(curr, maxNdim, shape, newShape, sequence, variant);
            && (u.ok <==>
                 && curr + |newShape| <= maxNdim
                 && (sequence || maxNdim == curr + |newShape| || shape[curr + |newShape|] < 0)
                 && forall i :: 0 <= i < |newShape| ==> Compatible(shape[curr + i], newShape[i]))
            && (u.ok ==> forall i :: 0 <= i < |newShape| ==> u.shape[curr + i] == newShape[i])
  {
  }

  /** When the limit is final (a failure, or an array-like that fits), every
      dimension below it has a known extent, given that those above the
      current depth do. */
  lemma UpdateShapeKnownBelow(curr: nat, maxNdim: int, shape: seq<int>, newShape: seq<nat>,
                              sequence: bool, variant: Variant)
    requires maxNdim <= |shape|
    ensures var u := UpdateShape(curr, maxNdim, shape, newShape, sequence, variant);
            (!sequence || !u.ok) && (forall k :: 0 <= k < curr && k < |shape| ==> shape[k] >= 0) ==>
              forall k :: 0 <= k < u.maxNdim ==> u.shape[k] >= 0
  {
    var n := CheckedDims(curr, maxNdim, newShape);
    var j := FirstMismatch(shape, curr, newShape, n, 0);
    var filled := if n < 0 then shape else Fill(shape, curr, newShape, j);
    assert forall k :: curr <= k < curr + j && 0 <= n ==> filled[k] >= 0 by {
      forall k | curr <= k < curr + j && 0 <= n ensures filled[k] >= 0 {
        assert Compatible(shape[curr + (k - curr)], newShape[k - curr]);
      }
    }
  }

  lemma Mismatched(curr: nat, maxNdim: int, shape: seq<int>, newShape: seq<nat>,
                   sequence: bool, variant: Variant, i: nat, filled: seq<int>)
    requires maxNdim <= |shape|
    requires 0 <= i < CheckedDims(curr, maxNdim, newShape)
    requires i == FirstMismatch(shape, curr, newShape, CheckedDims(curr, maxNdim, newShape), 0)
    requires filled == Fill(shape, curr, newShape, i)
    ensures UpdateShape(curr, maxNdim, shape, newShape, sequence, variant) ==
              Update(false, TrimmedLimit(variant, sequence, curr,
                       if curr + |newShape| <= maxNdim && !sequence then curr + |newShape| else maxNdim,
                       CheckedDims(curr, maxNdim, newShape), i), filled)
  {
  }

  lemma Matched(curr: nat, maxNdim: int, shape: seq<int>, newShape: seq<nat>,
                sequence: bool, variant: Variant, filled: seq<int>)
    requires maxNdim <= |shape|
    requires var n := CheckedDims(curr, maxNdim, newShape);
             (n >= 0 ==> FirstMismatch(shape, curr, newShape, n, 0) == n && filled == Fill(shape, curr, newShape, n))
             && (n < 0 ==> filled == shape)
    ensures UpdateShape(curr, maxNdim, shape, newShape, sequence, variant) ==
              Update(curr + |newShape| <= maxNdim
                       && (sequence || maxNdim == curr + |newShape| || shape[curr + |newShape|] < 0),
                     if curr + |newShape| <= maxNdim && !sequence then curr + |newShape| else maxNdim,
                     filled)
  {
  }

  /** The loop of `update_shape` as the source writes it: it walks the compared
      dimensions, fills unset slots and stops at the first mismatch.  It computes
      exactly `UpdateShape`. */
  method UpdateShapeLoop(curr: nat, maxNdim: int, shape: seq<int>, newShape: seq<nat>,
                         sequence: bool, variant: Variant)
    returns (ok: bool, maxOut: int, shapeOut: seq<int>)
    requires maxNdim <= |shape|
    ensures Update(ok, maxOut, shapeOut) == UpdateShape(curr, maxNdim, shape, newShape, sequence, variant)
  {
    ok := true;
    maxOut := maxNdim;
    shapeOut := shape;
    var newNdim: int := |newShape|;
    if curr + newNdim > maxOut {
      ok := false;
      newNdim := maxOut - curr;
    } else if !sequence && maxOut != curr + newNdim {
      maxOut := curr + newNdim;
      if shapeOut[maxOut] >= 0 {
        ok := false;
      }
    }
    ghost var max0 := maxOut;
    ghost var ok0 := ok;
    ghost var j := FirstMismatch(shape, curr, newShape, newNdim, 0);
    var i := 0;
    while i < newNdim
      invariant newNdim == CheckedDims(curr, maxNdim, newShape)
      invariant 0 <= i && (newNdim >= 0 ==> i <= newNdim)
      invariant i <= j
      invariant newNdim >= 0 ==> j <= newNdim
      invariant maxOut == max0 && ok == ok0
      invariant newNdim >= 0 ==> shapeOut == Fill(shape, curr, newShape, i)
      invariant newNdim < 0 ==> shapeOut == shape
      decreases newNdim - i
    {
      var currDim := shapeOut[curr + i];
      var newDim := newShape[i];
      assert currDim == shape[curr + i];
      if currDim == -1 {
        shapeOut := shapeOut[curr + i := newDim];
        assert shapeOut == Fill(shape, curr, newShape, i + 1);
      } else if newDim != currDim {
        assert j == i;
        ok := false;
        maxOut := TrimmedLimit(variant, sequence, curr, maxOut, newNdim, i);
        Mismatched(curr, maxNdim, shape, newShape, sequence, variant, i, shapeOut);
        return;
      }
      i := i + 1;
    }
    Matched(curr, maxNdim, shape, newShape, sequence, variant, shapeOut);
  }
}
