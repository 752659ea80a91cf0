/** The index arithmetic of a ring: head, length and two capacities, the one asked
    for and the power of two it is rounded up to. Every sum is a machine word and
    every wrap is a mask. */
module RingCursor {
  import opened Words
  import opened Wrappers

  datatype InitError = ZeroCapacity | CapacityOverflow(askedCap: nat)

  /** The slot of an index that runs at most once past the end of the storage. */
  function Wrap(x: nat, cap: nat): (k: nat)
    requires x < 2 * cap
    ensures k < cap
  {
    if x < cap then x else x - cap
  }

  lemma SmallWord(x: nat)
    requires x < WORD
    ensures Word(x) == x
  {
  }

  lemma MaskIsWrap(x: nat, cap: nat)
    requires IsPowerOfTwo(cap) && x < 2 * cap <= WORD
    ensures BitAnd(Word(x), cap - 1) == Wrap(x, cap)
  {
    SmallWord(x);
    MaskIsRemainder(x, cap);
    QuotientIsUnique(x, cap, if x < cap then 0 else 1, Wrap(x, cap));
  }

  /** One slot back, with a subtraction that wraps below zero. */
  lemma MaskOneBack(head: nat, cap: nat)
    requires IsPowerOfTwo(cap) && cap <= WORD && head < cap
    ensures BitAnd(WrappingSub(head, 1), cap - 1) == if head == 0 then cap - 1 else head - 1
  {
    MaskOfWord(head - 1, cap);
    QuotientIsUnique(head - 1, cap, if head == 0 then -1 else 0, if head == 0 then cap - 1 else head - 1);
  }

  lemma {:induction false} NoPowerBetween(p: nat, q: nat)
    requires IsPowerOfTwo(p) && IsPowerOfTwo(q) && q < p
    ensures 2 * q <= p
    decreases q
  {
    if q > 1 { NoPowerBetween(p / 2, q / 2); }
  }

  /** `checked_next_power_of_two`: the smallest power of two that is not less, if it fits a word. */
  method NextPowerOfTwo(n: nat) returns (result: Option<nat>)
    requires 0 < n < WORD
    ensures result.None? <==> n > WORD / 2
    ensures result.Some? ==> IsPowerOfTwo(result.value) && n <= result.value <= WORD / 2
    ensures result.Some? ==> forall q: nat :: n <= q < result.value ==> !IsPowerOfTwo(q)
  {
    WordIsPowerOfTwo();
    assert IsPowerOfTwo(WORD / 2);
    if n > WORD / 2 {
      return None;
    }
    var p := 1;
    while p < n
      invariant IsPowerOfTwo(p) && p <= WORD / 2 && (p == 1 || p < 2 * n)
      decreases 2 * n - p
    {
      NoPowerBetween(WORD / 2, p);
      p := 2 * p;
    }
    forall q: nat | n <= q < p ensures !IsPowerOfTwo(q) {
      if IsPowerOfTwo(q) { NoPowerBetween(p, q); }
    }
    result := Some(p);
  }

  class RingCursor {
    const cap: nat
    const mask: nat
    const requestedCap: nat
    var head: nat
    var nElem: nat

    /** In particular `head + n_elem` fits a machine word. */
    ghost predicate Valid()
      reads this
    {
      && IsPowerOfTwo(cap) && 1 <= requestedCap <= cap <= WORD / 2 && mask == cap - 1
      && head < cap && nElem <= requestedCap
    }

    constructor (cap: nat, requestedCap: nat)
      requires IsPowerOfTwo(cap) && 1 <= requestedCap <= cap <= WORD / 2
      ensures Valid() && this.cap == cap && this.requestedCap == requestedCap && head == nElem == 0
    {
      this.cap, this.mask, this.requestedCap, head, nElem := cap, cap - 1, requestedCap, 0, 0;
    }

    /** `try_new`: fails exactly on zero and when the rounding overflows. */
    static method TryNew(requested: nat) returns (result: Result<RingCursor, InitError>)
      requires requested < WORD
      ensures match result
              case Err(ZeroCapacity) => requested == 0
              case Err(CapacityOverflow(asked)) => requested > WORD / 2 && asked == requested
              case Ok(c) =>
                && 0 < requested <= WORD / 2 && fresh(c) && c.Valid() && c.requestedCap == requested && c.nElem == 0
                && forall q: nat :: requested <= q < c.cap ==> !IsPowerOfTwo(q)
    {
      if requested == 0 {
        return Err(ZeroCapacity);
      }
      var rounded := NextPowerOfTwo(requested);
      if rounded.None? {
        return Err(CapacityOverflow(requested));
      }
      var c := new RingCursor(rounded.value, requested);
      result := Ok(c);
    }

    /** The slot of the `i`th element. */
    ghost function At(i: nat): (k: nat)
      requires Valid() && i <= nElem
      reads this
      ensures k < cap
    {
      Wrap(head + i, cap)
    }

    method Tail() returns (k: nat)
      requires Valid()
      ensures k == At(nElem)
    {
      hide Word, BitAnd, IsPowerOfTwo;
      MaskIsWrap(head + nElem, cap);
      k := BitAnd(Word(head + nElem), mask);
    }

    /** `checked_physical_index`. The sum is computed before the test: past the window it may
        leave the word, and then does so without an effect on the answer. */
    method CheckedPhysicalIndex(i: nat) returns (index: Option<nat>, overflow: bool)
      requires Valid() && i < WORD
      ensures index.Some? <==> i < nElem
      ensures index.Some? ==> index.value == At(i)
      ensures overflow <==> i >= WORD - head
      ensures overflow ==> index.None?
    {
      var sum := head + i;
      overflow := sum >= WORD;
      var k := BitAnd(Word(sum), mask);
      if i < nElem {
        MaskIsWrap(sum, cap);
        index := Some(k);
      } else {
        index := None;
      }
    }

    method PushHeadIndex() returns (k: nat)
      requires Valid()
      modifies this
      ensures Valid() && k == head == (if old(head) == 0 then cap - 1 else old(head) - 1)
      ensures nElem == if old(nElem) == requestedCap then old(nElem) else old(nElem) + 1
    {
      MaskOneBack(head, cap);
      head := BitAnd(WrappingSub(head, 1), mask);
      if nElem != requestedCap {
        nElem := nElem + 1;
      }
      k := head;
    }

    method PushTailIndex() returns (k: nat)
      requires Valid()
      modifies this
      ensures Valid() && k == old(At(nElem))
      ensures if old(nElem) == requestedCap then head == Wrap(old(head) + 1, cap) && nElem == old(nElem)
              else head == old(head) && nElem == old(nElem) + 1
    {
      hide Word, BitAnd, IsPowerOfTwo;
      k := Tail();
      if nElem == requestedCap {
        MaskIsWrap(head + 1, cap);
        head := BitAnd(Word(head + 1), mask);
      } else {
        nElem := nElem + 1;
      }
    }

    method TryPushHeadIndex() returns (k: Option<nat>)
      requires Valid()
      modifies this
      ensures Valid() && (k.None? <==> old(nElem) == requestedCap)
      ensures k.None? ==> head == old(head) && nElem == old(nElem)
      ensures k.Some? ==> k.value == head == (if old(head) == 0 then cap - 1 else old(head) - 1) && nElem == old(nElem) + 1
    {
      if nElem == requestedCap {
        return None;
      }
      var slot := PushHeadIndex();
      k := Some(slot);
    }

    method TryPushTailIndex() returns (k: Option<nat>)
      requires Valid()
      modifies this
      ensures Valid() && head == old(head) && (k.None? <==> old(nElem) == requestedCap)
      ensures k.None? ==> nElem == old(nElem)
      ensures k.Some? ==> k.value == old(At(nElem)) && nElem == old(nElem) + 1
    {
      if nElem == requestedCap {
        return None;
      }
      var slot := PushTailIndex();
      k := Some(slot);
    }

    method PopHeadIndex() returns (k: Option<nat>)
      requires Valid()
      modifies this
      ensures Valid() && (k.None? <==> old(nElem) == 0)
      ensures k.None? ==> head == old(head) && nElem == old(nElem)
      ensures k.Some? ==> k.value == old(head) && head == Wrap(old(head) + 1, cap) && nElem == old(nElem) - 1
    {
      hide Word, BitAnd, IsPowerOfTwo;
      if nElem == 0 {
        return None;
      }
      nElem := nElem - 1;
      k := Some(head);
      MaskIsWrap(head + 1, cap);
      head := BitAnd(Word(head + 1), mask);
    }

    method PopTailIndex() returns (k: Option<nat>)
      requires Valid()
      modifies this
      ensures Valid() && head == old(head) && (k.None? <==> old(nElem) == 0)
      ensures k.None? ==> nElem == old(nElem)
      ensures k.Some? ==> nElem == old(nElem) - 1 && k.value == At(nElem)
    {
      if nElem == 0 {
        return None;
      }
      nElem := nElem - 1;
      var slot := Tail();
      k := Some(slot);
    }

    /** The live window of any storage of the right length, in two pieces. */
    method AsSlices<T>(values: seq<T>) returns (first: seq<T>, second: seq<T>)
      requires Valid() && |values| == cap
      ensures head + |first| <= cap && (second != [] ==> first != [] && head + |first| == cap)
      ensures |first + second| == nElem && forall i :: 0 <= i < nElem ==> (first + second)[i] == values[At(i)]
    {
      if nElem == 0 {
        return [], [];
      }
      var firstLen := if cap - head < nElem then cap - head else nElem;
      first, second := values[head..head + firstLen], values[0..nElem - firstLen];
    }

    method Skip(count: nat) returns (skipped: nat)
      requires Valid()
      modifies this
      ensures Valid() && skipped == (if old(nElem) < count then old(nElem) else count)
      ensures head == Wrap(old(head) + skipped, cap) && nElem == old(nElem) - skipped
    {
      hide Word, BitAnd, IsPowerOfTwo;
      skipped := if nElem < count then nElem else count;
      MaskIsWrap(head + skipped, cap);
      head := BitAnd(Word(head + skipped), mask);
      nElem := nElem - skipped;
    }
  }

  /** The sum of `checked_physical_index` does overflow: one element at head 1 of a ring of
      two, peeked at the largest word. The answer is right all the same. */
  method OverflowingPeek() returns (cursor: RingCursor, index: Option<nat>, overflow: bool)
    ensures cursor.Valid() && cursor.head == 1 && cursor.nElem == 1
    ensures index.None? && overflow
  {
    cursor := new RingCursor(2, 2);
    var k := cursor.PushHeadIndex();
    index, overflow := cursor.CheckedPhysicalIndex(WORD - 1);
  }
}
