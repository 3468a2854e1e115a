/** Remainders, counted down so that the proofs which use them need no division. */
module Remainder {

  function Rem(i: nat, n: nat): (r: nat)
    requires n > 0
    ensures r < n
  {
    if i < n then i else Rem(i - n, n)
  }

  /** A multiple of `n` that is not zero is at least `n` away from zero. */
  lemma Multiple(d: int, n: int)
    requires n > 0
    ensures d >= 1 ==> d * n >= n
    ensures d <= -1 ==> d * n <= -n
  {}

  lemma QuotientUnique(k: int, n: int, q: int, r: int)
    requires n > 0 && k == q * n + r && 0 <= r < n
    ensures k / n == q && k % n == r
  {
    Multiple(k / n - q, n);
    assert (k / n - q) * n == r - k % n;
  }

  /** Quotient and remainder of a number below `n * p`. */
  lemma QuotientBelow(k: int, n: int, p: int)
    requires p > 0 && 0 <= k < n * p
    ensures 0 <= k / p < n && k == (k / p) * p + k % p
  {
    var q := k / p;
    assert k == q * p + k % p;
    assert q >= n ==> q * p >= n * p;
    assert q <= -1 ==> q * p <= -p;
  }

  /** It is the remainder that the code computes. */
  lemma {:induction false} RemIsRemainder(i: nat, n: nat)
    requires n > 0
    ensures Rem(i, n) == i % n
  {
    if i >= n {
      RemIsRemainder(i - n, n);
      QuotientUnique(i, n, (i - n) / n + 1, (i - n) % n);
    }
  }

  /** Moving on by at most `n` wraps around at most once. */
  lemma {:induction false} RemShift(i: nat, d: nat, n: nat)
    requires n > 0 && d <= n
    ensures var r := Rem(i, n) + d;
            Rem(i + d, n) == if r < n then r else r - n
    decreases i
  {
    if i >= n {
      RemShift(i - n, d, n);
    }
  }
}

/** Positions of a bounded ring: position `pos` lives in slot `pos % capacity`. */
module Ring {
  import opened Remainder

  function Slot(pos: nat, cap: nat): (slot: nat)
    requires cap > 0
    ensures slot < cap
  {
    Rem(pos, cap)
  }

  /** Two positions less than one lap apart that share a slot are the same position. */
  lemma SlotInjective(i: nat, j: nat, cap: nat)
    requires cap > 0
    requires i <= j < i + cap
    requires Slot(i, cap) == Slot(j, cap)
    ensures i == j
  {
    RemShift(i, j - i, cap);
  }

  /** Inside any window of `cap` consecutive positions, slots are pairwise different. */
  lemma WindowInjective(lo: nat, cap: nat)
    requires cap > 0
    ensures forall i: nat, j: nat {:trigger Slot(i, cap), Slot(j, cap)} ::
              lo <= i < lo + cap && lo <= j < lo + cap && Slot(i, cap) == Slot(j, cap) ==> i == j
  {
    forall i: nat, j: nat | lo <= i < lo + cap && lo <= j < lo + cap && Slot(i, cap) == Slot(j, cap)
      ensures i == j
    {
      if i <= j { SlotInjective(i, j, cap); } else { SlotInjective(j, i, cap); }
    }
  }

  /** One lap later is the same slot. */
  lemma SlotNextLap(pos: nat, cap: nat)
    requires cap > 0
    ensures Slot(pos + cap, cap) == Slot(pos, cap)
  {
    RemShift(pos, cap, cap);
  }

  /** Moving on from the cursor's index and from the position itself ends in the same slot. */
  lemma SlotPlus(pos: nat, i: nat, cap: nat)
    requires cap > 0 && i <= cap
    ensures Slot(Slot(pos, cap) + i, cap) == Slot(pos + i, cap)
  {
    RemShift(pos, i, cap);
    RemShift(Slot(pos, cap), i, cap);
  }

  /** The next index of a ring cursor is the slot of the next position. */
  lemma SlotSuccessor(pos: nat, cap: nat)
    requires cap > 0
    ensures Slot(Slot(pos, cap) + 1, cap) == Slot(pos + 1, cap)
  {
    SlotPlus(pos, 1, cap);
  }

  /** How many items two wrapped indices are apart. */
  function Distance(read: nat, write: nat, cap: nat): (d: nat)
    requires read < cap && write < cap
    ensures d < cap
  {
    if write >= read then write - read else cap - (read - write)
  }

  /** The distance between two cursors, less than one lap apart, from their slots alone. */
  lemma RingDistance(head: nat, tail: nat, cap: nat)
    requires cap > 0 && head <= tail < head + cap
    ensures tail - head == Distance(Slot(head, cap), Slot(tail, cap), cap)
  {
    RemShift(head, tail - head, cap);
  }

  /** Any number of laps apart, slots still tell the distance up to whole laps. */
  lemma {:induction false} LapsForgotten(head: nat, tail: nat, cap: nat)
    requires cap > 0 && head <= tail
    ensures Distance(Slot(head, cap), Slot(tail, cap), cap) == Slot(tail - head, cap)
    decreases tail
  {
    if tail < head + cap {
      RingDistance(head, tail, cap);
    } else {
      SlotNextLap(tail - cap, cap);
      LapsForgotten(head, tail - cap, cap);
      SlotNextLap(tail - cap - head, cap);
    }
  }

  /** Every position has a representative in every later window of `cap` positions. */
  lemma {:induction false} Representative(pos: nat, lo: nat, cap: nat) returns (j: nat)
    requires cap > 0
    requires pos <= lo
    ensures lo <= j < lo + cap
    ensures Slot(j, cap) == Slot(pos, cap)
    decreases lo - pos
  {
    if pos == lo {
      j := pos;
    } else {
      SlotNextLap(pos, cap);
      if pos + cap <= lo {
        j := Representative(pos + cap, lo, cap);
      } else {
        j := pos + cap;
      }
    }
  }
}
