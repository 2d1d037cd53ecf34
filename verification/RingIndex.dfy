/** The index arithmetic of the ring buffer: counters that wrap at 2^64, masked to a storage whose
    size is a power of two. */
module RingIndex {
  import opened Collections

  const WRAP: int := 0x1_0000_0000_0000_0000
  const HALF: int := 0x8000_0000_0000_0000

  lemma {:induction false} Pow2Split(k: nat, n: nat)
    requires k <= n
    ensures Pow2(n) == Pow2(n - k) * Pow2(k)
    decreases n
  {
    if k < n {
      Pow2Split(k, n - 1);
      assert 2 * (Pow2(n - 1 - k) * Pow2(k)) == (2 * Pow2(n - 1 - k)) * Pow2(k);
    }
  }

  lemma {:induction false} Pow2Mono(k: nat, n: nat)
    requires k <= n
    ensures Pow2(k) <= Pow2(n)
    decreases n
  {
    if k < n { Pow2Mono(k, n - 1); }
  }

  /** The capacities a ring may have. */
  predicate Capacity(size: nat, log: nat) {
    log <= 63 && size == Pow2(log)
  }

  /** The place in the storage of the i-th element from the counter `base` on. */
  function Place(base: nat, i: nat, size: nat): (r: nat)
    requires size > 0
    ensures r < size
  {
    (base + i) % size
  }

  lemma ModIs(x: int, q: int, r: int, n: nat)
    requires n > 0 && 0 <= r < n && x == q * n + r
    ensures x % n == r
  {
    var d := x / n - q;
    assert x == x / n * n + x % n;
    assert (x / n - q) * n == x / n * n - q * n;
    assert d * n == r - x % n;
    Small(d, n);
  }

  /** A multiple of n between -n and n is zero. */
  lemma Small(d: int, n: int)
    requires n > 0
    ensures -n < d * n < n ==> d == 0
  {
    assert d >= 1 ==> d * n >= n;
    assert d <= -1 ==> d * n <= -n;
  }

  lemma PlacesDiffer(base: nat, i: nat, j: nat, size: nat)
    requires i < j < i + size
    ensures Place(base, i, size) != Place(base, j, size)
  {
    var a, b := base + i, base + j;
    if a % size == b % size {
      assert a == a / size * size + a % size && b == b / size * size + b % size;
      assert (b / size - a / size) * size == b / size * size - a / size * size;
      Small(b / size - a / size, size);
    }
  }

  lemma WrapIs64()
    ensures Pow2(64) == WRAP
  {
    assert Pow2(8) == 0x100;
    Pow2Split(8, 16);
    Pow2Split(16, 32);
    Pow2Split(32, 64);
  }
}
