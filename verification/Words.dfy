/** Machine words: the `usize` counters of the rings wrap at 2^64 and a buffer
    index is taken with a bit mask. The state machines keep their counters
    unbounded and look at them through `Word`; the lemmas here say when that
    view loses nothing. */
module Words {

  const WORD: int := 0x1_0000_0000_0000_0000

  /** The value a `usize` holds for the unbounded counter `x` (also below zero). */
  function Word(x: int): (w: nat)
    ensures w < WORD
  {
    x % WORD
  }

  /** `a.wrapping_sub(b)` on machine words. */
  function WrappingSub(a: nat, b: nat): nat {
    Word(a - b)
  }

  /** `a & b`, bit by bit. */
  function BitAnd(a: nat, b: nat): nat {
    if a == 0 || b == 0 then 0
    else 2 * BitAnd(a / 2, b / 2) + (if a % 2 == 1 && b % 2 == 1 then 1 else 0)
  }

  predicate IsPowerOfTwo(n: nat) {
    n == 1 || (n > 0 && n % 2 == 0 && IsPowerOfTwo(n / 2))
  }

  /** The capacities `Ring::new` accepts at compile time. */
  predicate IsCapacity(n: nat) {
    n >= 2 && IsPowerOfTwo(n) && n <= WORD / 2
  }

  lemma MultipleAtLeast(d: int, n: int)
    requires d >= 1 && n >= 0
    ensures d * n >= n
  {
  }

  lemma SmallMultiple(d: int, n: int)
    requires -n < d * n < n
    ensures d == 0
  {
    if d >= 1 {
      MultipleAtLeast(d, n);
    } else if d <= -1 {
      MultipleAtLeast(-d, n);
    }
  }

  lemma QuotientIsUnique(x: int, n: nat, q: int, r: int)
    requires n > 0 && x == q * n + r && 0 <= r < n
    ensures x % n == r && x / n == q
  {
    var p := x / n;
    assert x == p * n + x % n;
    assert (p - q) * n == r - x % n;
    SmallMultiple(p - q, n);
  }

  lemma HalfRemainder(x: nat, n: nat)
    requires n >= 2 && n % 2 == 0
    ensures x % n == 2 * (x / 2 % (n / 2)) + x % 2
  {
    var h := n / 2;
    var q := x / 2 / h;
    assert x / 2 == q * h + x / 2 % h;
    assert q * n == 2 * (q * h);
    QuotientIsUnique(x, n, q, 2 * (x / 2 % h) + x % 2);
  }

  /** The mask is the remainder, because the capacity is a power of two. */
  lemma {:induction false} MaskIsRemainder(x: nat, n: nat)
    requires IsPowerOfTwo(n)
    ensures BitAnd(x, n - 1) == x % n
    decreases n
  {
    if n > 1 {
      HalfRemainder(x, n);
      MaskIsRemainder(x / 2, n / 2);
      assert (n - 1) / 2 == n / 2 - 1 && (n - 1) % 2 == 1;
    }
  }

  lemma {:induction false} ProductOfPowers(a: nat, b: nat)
    requires IsPowerOfTwo(a) && IsPowerOfTwo(b)
    ensures IsPowerOfTwo(a * b)
  {
    if a > 1 {
      ProductOfPowers(a / 2, b);
      var half := a / 2 * b;
      assert a * b == 2 * half;
      assert IsPowerOfTwo(2 * half);
    }
  }

  lemma WordIsPowerOfTwo()
    ensures IsPowerOfTwo(WORD)
  {
    ProductOfPowers(2, 2);
    ProductOfPowers(4, 4);
    ProductOfPowers(16, 16);
    ProductOfPowers(256, 256);
    ProductOfPowers(0x1_0000, 0x1_0000);
    ProductOfPowers(0x1_0000_0000, 0x1_0000_0000);
  }

  lemma {:induction false} PowersDivide(n: nat, m: nat)
    requires IsPowerOfTwo(n) && IsPowerOfTwo(m) && n <= m
    ensures m % n == 0
    decreases n
  {
    if n > 1 {
      PowersDivide(n / 2, m / 2);
      var q := m / 2 / (n / 2);
      assert m / 2 == q * (n / 2);
      assert m == q * n;
      QuotientIsUnique(m, n, q, 0);
    }
  }

  lemma RemainderOfRemainder(x: int, m: nat, n: nat)
    requires n > 0 && m > 0 && m % n == 0
    ensures x % m % n == x % n
  {
    var k, p, w := m / n, x / m, x % m;
    assert m == k * n;
    assert x == p * m + w;
    assert p * m == (p * k) * n;
    assert w == (w / n) * n + w % n;
    assert x == (p * k + w / n) * n + w % n;
    QuotientIsUnique(x, n, p * k + w / n, w % n);
  }

  /** Wrapping a counter does not change the slot it selects: masking the word
      gives the remainder of the unbounded counter. */
  lemma MaskOfWord(x: int, n: nat)
    requires IsPowerOfTwo(n) && n <= WORD
    ensures Word(x) % n == x % n && BitAnd(Word(x), n - 1) == x % n
  {
    WordIsPowerOfTwo();
    PowersDivide(n, WORD);
    MaskIsRemainder(Word(x), n);
    RemainderOfRemainder(x, WORD, n);
  }

  /** `word & (n - 1)`, the way every ring computes a buffer index. */
  method MaskIndex(word: nat, n: nat) returns (k: nat)
    requires IsPowerOfTwo(n)
    ensures k == word % n && k < n
  {
    MaskIsRemainder(word, n);
    k := BitAnd(word, n - 1);
  }

  /** Counters less than a full wrap apart are equal exactly when their words are. */
  lemma SameWord(a: int, b: int)
    requires -WORD < a - b < WORD
    ensures Word(a) == Word(b) <==> a == b
  {
  }

  /** Wrapping once at the end or at every step makes no difference. */
  lemma WordOfSum(x: int, y: int)
    ensures Word(Word(x) + y) == Word(x + y)
  {
    assert x == (x / WORD) * WORD + Word(x);
    QuotientIsUnique(x + y, WORD, x / WORD + (Word(x) + y) / WORD, (Word(x) + y) % WORD);
  }

  /** A machine word read as a signed number. */
  function Signed(w: nat): int {
    if w < WORD / 2 then w else w - WORD
  }

  /** The signed difference of the words of two counters is their difference exactly
      when that is in the signed range. */
  lemma SignedDifference(a: int, b: int)
    ensures Signed(WrappingSub(Word(a), Word(b))) == a - b <==> -(WORD / 2) <= a - b < WORD / 2
  {
    var w: int := Word(b);
    WordOfSum(a, -w);
    assert b == (b / WORD) * WORD + Word(b);
    assert a - Word(b) == (a - b) + (b / WORD) * WORD;
    QuotientIsUnique(a - Word(b), WORD, (a - b) / WORD + b / WORD, Word(a - b));
    assert Word(Word(a) - w) == Word(a - b);
  }

  /** Two tickets less than one lap apart never share a slot. */
  lemma DistinctSlots(t: int, u: int, n: nat)
    requires t < u < t + n
    ensures t % n != u % n
  {
    assert u == (u / n) * n + u % n;
    assert t == (t / n) * n + t % n;
    if t % n == u % n {
      assert u - t == (u / n - t / n) * n;
      SmallMultiple(u / n - t / n, n);
    }
  }

  /** One lap later the slot is the same. */
  lemma NextLap(t: int, n: nat)
    requires n > 0
    ensures (t + n) % n == t % n
  {
    assert t == (t / n) * n + t % n;
    QuotientIsUnique(t + n, n, t / n + 1, t % n);
  }
}
