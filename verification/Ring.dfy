/** Positions in a ring of descriptors, counted without end: the k-th position ever used is
  * slot `Slot(k, n)`. */
module Ring {
  import Arith

  function Slot(k: nat, n: nat): (i: nat)
    requires 0 < n
    ensures i < n
  {
    if k < n then k else Slot(k - n, n)
  }

  lemma {:induction false} SlotIsMod(k: nat, n: nat)
    requires 0 < n
    ensures Slot(k, n) == k % n
  {
    if k >= n {
      SlotIsMod(k - n, n);
      Arith.ModAdd(k - n, n);
    } else {
      Arith.DivUnique(k, n, 0, k);
    }
  }

  /** Stepping an index with wrap-around, as all the ring loops do. */
  lemma {:induction false} SlotStep(k: nat, n: nat)
    requires 0 < n
    ensures Slot(k + 1, n) == if Slot(k, n) + 1 >= n then 0 else Slot(k, n) + 1
  {
    if k >= n {
      SlotStep(k - n, n);
    }
  }

  lemma SlotRound(k: nat, n: nat)
    requires 0 < n
    ensures Slot(k + n, n) == Slot(k, n)
  {
  }

  /** Two positions less than a round apart use different slots. */
  lemma {:induction false} SlotDistinct(i: nat, j: nat, n: nat)
    requires 0 < n && i < j < i + n
    ensures Slot(i, n) != Slot(j, n)
  {
    if i >= n {
      SlotDistinct(i - n, j - n, n);
    } else if j >= n {
      assert Slot(j, n) == j - n;
    }
  }

  lemma SlotsDistinct(from: nat, n: nat)
    requires 0 < n
    ensures forall i, j {:trigger Slot(i, n), Slot(j, n)} | from <= i < j < from + n :: Slot(i, n) != Slot(j, n)
  {
    forall i, j | from <= i < j < from + n
      ensures Slot(i, n) != Slot(j, n)
    {
      SlotDistinct(i, j, n);
    }
  }

  /** Every slot is the slot of a position in any window of one round. */
  lemma {:induction false} SlotCover(from: nat, n: nat, i: nat) returns (k: nat)
    requires 0 < n && i < n
    ensures from <= k < from + n && Slot(k, n) == i
  {
    if from <= i {
      k := i;
    } else if from < n {
      k := i + n;
    } else {
      k := SlotCover(from - n, n, i);
      k := k + n;
      SlotRound(k - n, n);
    }
  }
}
