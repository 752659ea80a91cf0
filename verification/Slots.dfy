/** Positions that only grow and the slots of a buffer they fall on; a run of
    positions lies in the buffer as at most two contiguous pieces. */
module Slots {
  import opened Words

  /** The buffer slot of a position. */
  function Slot(position: nat, n: nat): (k: nat)
    requires n > 0
    ensures k < n
  {
    position % n
  }

  /** The slot `d` positions further on, without a division. */
  lemma SlotAhead(from: nat, d: nat, n: nat)
    requires d < n
    ensures Slot(from + d, n) == if Slot(from, n) + d < n then Slot(from, n) + d else Slot(from, n) + d - n
  {
    assert from == (from / n) * n + Slot(from, n);
    if Slot(from, n) + d < n {
      QuotientIsUnique(from + d, n, from / n, Slot(from, n) + d);
    } else {
      QuotientIsUnique(from + d, n, from / n + 1, Slot(from, n) + d - n);
    }
  }

  /** The position of the window from `from` on that uses slot `k`. */
  function PositionOf(from: nat, k: nat, n: nat): (t: nat)
    requires k < n
    ensures from <= t < from + n
  {
    if k >= Slot(from, n) then from + (k - Slot(from, n)) else from + (n - Slot(from, n) + k)
  }

  lemma PositionHasSlot(from: nat, k: nat, n: nat)
    requires k < n
    ensures Slot(PositionOf(from, k, n), n) == k
  {
    SlotAhead(from, PositionOf(from, k, n) - from, n);
  }

  /** How much of a run fits before the end of the buffer. */
  function FirstRun(from: nat, count: nat, n: nat): (first: nat)
    requires n > 0
    ensures first <= count && Slot(from, n) + first <= n
  {
    if count < n - Slot(from, n) then count else n - Slot(from, n)
  }

  /** `copy_nonoverlapping` into a buffer. */
  function Splice<X>(buf: seq<X>, at: nat, piece: seq<X>): (r: seq<X>)
    requires at + |piece| <= |buf|
    ensures |r| == |buf|
    ensures forall k :: 0 <= k < |buf| ==> r[k] == if at <= k < at + |piece| then piece[k - at] else buf[k]
  {
    buf[..at] + piece + buf[at + |piece|..]
  }

  /** Item `j` of a run lies in one of the two contiguous pieces. */
  lemma TwoRunsItem(from: nat, count: nat, n: nat, j: nat)
    requires j < count <= n
    ensures var start, first := Slot(from, n), FirstRun(from, count, n);
            Slot(from + j, n) == if j < first then start + j else j - first
  {
    SlotAhead(from, j, n);
  }
}
