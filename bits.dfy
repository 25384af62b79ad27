/** The membership bitmask returned by each step of the synchronized reader:
    bit i is set iff reader i has a record at the current site. */
module Bits {
  import opened Wrappers

  /** 2^k; `1<<k` in the C code for k <= 30. */
  function Pow2(k: nat): (r: nat)
    ensures r >= 1
  {
    if k == 0 then 1 else 2 * Pow2(k - 1)
  }

  /** The test `mask & 1<<i` of a non-negative mask. */
  predicate Bit(mask: nat, i: nat)
  {
    if i == 0 then mask % 2 == 1 else Bit(mask / 2, i - 1)
  }

  /** The readers among 0..k-1 whose bit is set. */
  ghost function SetBits(mask: nat, k: nat): set<nat>
  {
    set i: nat | i < k && Bit(mask, i)
  }

  /** The number of set bits among bits 0..k-1, counted in increasing index order. */
  function CountBits(mask: nat, k: nat): (n: nat)
    ensures n <= k
  {
    if k == 0 then 0 else CountBits(mask, k - 1) + (if Bit(mask, k - 1) then 1 else 0)
  }

  /** The lowest index below k whose bit is set, if any. */
  function FirstSet(mask: nat, k: nat): (r: Option<nat>)
    ensures r.Some? ==> r.value < k && Bit(mask, r.value)
    ensures r.Some? ==> forall j :: 0 <= j < r.value ==> !Bit(mask, j)
    ensures r.None? ==> forall j :: 0 <= j < k ==> !Bit(mask, j)
  {
    if k == 0 then None
    else match FirstSet(mask, k - 1)
      case Some(i) => Some(i)
      case None => if Bit(mask, k - 1) then Some(k - 1) else None
  }

  /** The count is the size of the set of contributing readers. */
  lemma {:induction false} CountBitsIsCardinality(mask: nat, k: nat)
    ensures CountBits(mask, k) == |SetBits(mask, k)|
  {
    if k == 0 {
      assert SetBits(mask, 0) == {};
    } else {
      CountBitsIsCardinality(mask, k - 1);
      if Bit(mask, k - 1) {
        assert SetBits(mask, k) == SetBits(mask, k - 1) + {k - 1};
      } else {
        assert SetBits(mask, k) == SetBits(mask, k - 1);
      }
    }
  }

  /** No reader contributes exactly when the count is zero. */
  lemma {:induction false} CountZeroIffNoBit(mask: nat, k: nat)
    ensures CountBits(mask, k) == 0 <==> FirstSet(mask, k).None?
  {
    if k > 0 {
      CountZeroIffNoBit(mask, k - 1);
    }
  }

  /** The count reaches k exactly when every reader below k contributes. */
  lemma {:induction false} CountFullIffAllBits(mask: nat, k: nat)
    ensures CountBits(mask, k) == k ==> forall i :: 0 <= i < k ==> Bit(mask, i)
    ensures (forall i :: 0 <= i < k ==> Bit(mask, i)) ==> CountBits(mask, k) == k
  {
    if k > 0 {
      CountFullIffAllBits(mask, k - 1);
      if !Bit(mask, k - 1) {
        assert CountBits(mask, k) == CountBits(mask, k - 1) <= k - 1;
      }
    }
  }

  /** A non-zero mask below 2^k has a set bit below k. */
  lemma {:induction false} NonzeroHasBit(mask: nat, k: nat)
    requires 0 < mask < Pow2(k)
    ensures FirstSet(mask, k).Some?
  {
    if mask % 2 == 1 {
      assert k > 0 && Bit(mask, 0);
    } else {
      assert k > 0;
      NonzeroHasBit(mask / 2, k - 1);
      var i := FirstSet(mask / 2, k - 1).value;
      assert Bit(mask, i + 1);
    }
  }
}
