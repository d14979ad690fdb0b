/** The index arithmetic of the handle layer, free of any engine state:
    reading a support indicator array and splitting the variables of a
    manager into current-state (even) and next-state (odd) indices. */
module Indices {

  /** The positions of `ind` holding a positive entry, in ascending order:
      the list `support_index` builds from `Cudd_SupportIndex`'s array. */
  function Positions(ind: seq<int>): (r: seq<nat>)
    ensures forall k :: 0 <= k < |r| ==> r[k] < |ind| && ind[r[k]] > 0
    ensures forall i, j :: 0 <= i < j < |r| ==> r[i] < r[j]
    decreases |ind|
  {
    if |ind| == 0 then []
    else
      var last := |ind| - 1;
      Positions(ind[..last]) + (if ind[last] > 0 then [last] else [])
  }

  /** The loop of `support_index`: walk the array once and push every index
      whose entry is positive. */
  method CollectPositions(ind: seq<int>) returns (ret: seq<nat>)
    ensures ret == Positions(ind)
  {
    ret := [];
    var i: nat := 0;
    while i < |ind|
      invariant i <= |ind|
      invariant ret == Positions(ind[..i])
    {
      PositionsStep(ind, i);
      ret := ret + (if ind[i] > 0 then [i] else []);
      i := i + 1;
    }
    assert ind[..|ind|] == ind;
  }

  lemma PositionsStep(ind: seq<int>, i: nat)
    requires i < |ind|
    ensures Positions(ind[..i + 1]) == Positions(ind[..i]) + (if ind[i] > 0 then [i] else [])
  {
    assert ind[..i + 1][..i] == ind[..i];
  }

  /** Every position with a positive entry is reported. */
  lemma {:induction false} PositionsComplete(ind: seq<int>, i: nat)
    requires i < |ind| && ind[i] > 0
    ensures i in Positions(ind)
    decreases |ind|
  {
    var last := |ind| - 1;
    if i < last {
      PositionsComplete(ind[..last], i);
    }
  }

  /** Sorted and duplicate-free: no position is reported twice. */
  lemma PositionsDistinct(ind: seq<int>)
    ensures forall i, j :: 0 <= i < |Positions(ind)| && 0 <= j < |Positions(ind)| && i != j ==>
              Positions(ind)[i] != Positions(ind)[j]
  {
    var r := Positions(ind);
    forall i, j | 0 <= i < |r| && 0 <= j < |r| && i != j ensures r[i] != r[j] {
      if i < j {
        assert r[i] < r[j];
      } else {
        assert r[j] < r[i];
      }
    }
  }

  /** `(0..n).filter(|x| x % 2 == parity)`. */
  function WithParity(n: nat, parity: nat): (r: seq<nat>)
    requires parity < 2
    ensures |r| == (n + 1 - parity) / 2
    ensures forall k :: 0 <= k < |r| ==> r[k] == 2 * k + parity && r[k] < n
    decreases n
  {
    if n == 0 then []
    else WithParity(n - 1, parity) + (if (n - 1) % 2 == parity then [n - 1] else [])
  }

  /** Exactly the indices below `n` of the given parity. */
  lemma WithParityMembers(n: nat, parity: nat, x: nat)
    requires parity < 2
    ensures x in WithParity(n, parity) <==> x < n && x % 2 == parity
  {
  }

  /** The index lists `next_state` hands to `swap_vars` pair each even index
      with the odd index after it, and have the same length exactly when the
      variable count is even. */
  lemma NextStatePairs(n: nat)
    ensures |WithParity(n, 0)| == |WithParity(n, 1)| <==> n % 2 == 0
    ensures forall k :: 0 <= k < |WithParity(n, 1)| ==>
              k < |WithParity(n, 0)| && WithParity(n, 1)[k] == WithParity(n, 0)[k] + 1
  {
  }
}
