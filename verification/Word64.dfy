/** 64-bit unsigned arithmetic, the power-of-two test and the index mask of the ring buffers. */
module Word64 {

  const TWO64: nat := 0x1_0000_0000_0000_0000

  type u64 = n: nat | n < TWO64

  /** The value a `uint64_t` holds for the unbounded count `n`. */
  function Wrap(n: int): (u: u64) {
    n % TWO64
  }

  function Add(a: u64, b: u64): u64 {
    Wrap(a + b)
  }

  function Sub(a: u64, b: u64): u64 {
    Wrap(a - b)
  }

  function Pow2(k: nat): nat {
    if k == 0 then 1 else 2 * Pow2(k - 1)
  }

  /** The bitwise AND of two unsigned numbers, bit by bit from the lowest. */
  function BitAnd(x: nat, y: nat): (r: nat)
    ensures r <= x && r <= y
    decreases x
  {
    if x == 0 || y == 0 then 0 else (x % 2) * (y % 2) + 2 * BitAnd(x / 2, y / 2)
  }

  ghost predicate IsPow2(c: nat) {
    exists k: nat :: c == Pow2(k)
  }

  /** The condition the ring buffer template asserts on its capacity. */
  predicate PassesCapacityAssert(c: nat) {
    c > 0 && BitAnd(c, c - 1) == 0
  }

  lemma {:induction false} Pow2Positive(k: nat)
    ensures Pow2(k) > 0
  {
    if k > 0 {
      Pow2Positive(k - 1);
    }
  }

  /** The template's assertion accepts exactly the powers of two. */
  lemma {:induction false} CapacityAssertExact(c: nat)
    ensures PassesCapacityAssert(c) <==> IsPow2(c)
    decreases c
  {
    if c == 0 {
      forall k: nat ensures Pow2(k) != 0 { Pow2Positive(k); }
    } else if c == 1 {
      assert Pow2(0) == 1;
    } else if c % 2 == 1 {
      BitAndTopBits(c / 2);
      forall k: nat ensures Pow2(k) != c {
        if k > 0 { assert Pow2(k) % 2 == 0; }
      }
    } else {
      CapacityAssertExact(c / 2);
      assert (c - 1) / 2 == c / 2 - 1;
      if IsPow2(c) {
        var k: nat :| c == Pow2(k);
        assert c / 2 == Pow2(k - 1);
      }
      if IsPow2(c / 2) {
        var k: nat :| c / 2 == Pow2(k);
        assert c == Pow2(k + 1);
      }
    }
  }

  lemma {:induction false} BitAndTopBits(x: nat)
    ensures BitAnd(x, x) == x
    decreases x
  {
    if x > 0 {
      BitAndTopBits(x / 2);
    }
  }

  /** Masking with capacity - 1 is reduction modulo the capacity. */
  lemma {:induction false} MaskIsMod(x: nat, k: nat)
    ensures Pow2(k) > 0 && BitAnd(x, Pow2(k) - 1) == x % Pow2(k)
    decreases k
  {
    hide BitAnd;
    Pow2Positive(k);
    if k > 0 {
      Pow2Positive(k - 1);
      MaskIsMod(x / 2, k - 1);
      MaskTwice(x, Pow2(k - 1), Pow2(k));
    } else {
      MaskNothing(x);
    }
  }

  lemma MaskNothing(x: nat)
    ensures BitAnd(x, 0) == x % 1
  {
  }

  lemma {:induction false} MaskTwice(x: nat, m: nat, p: nat)
    requires m > 0 && p == 2 * m && BitAnd(x / 2, m - 1) == (x / 2) % m
    ensures BitAnd(x, p - 1) == x % p
  {
    BitAndOdd(x, m);
    ModTwice(x, m);
  }

  lemma {:induction false} BitAndOdd(x: nat, m: nat)
    requires m > 0
    ensures BitAnd(x, 2 * m - 1) == x % 2 + 2 * BitAnd(x / 2, m - 1)
  {
    assert (2 * m - 1) / 2 == m - 1 && (2 * m - 1) % 2 == 1;
  }

  lemma ModTwice(x: nat, m: nat)
    requires m > 0
    ensures x % (2 * m) == x % 2 + 2 * ((x / 2) % m)
  {
    var q, r := x / 2 / m, (x / 2) % m;
    assert x / 2 == q * m + r;
    assert x == (2 * m) * q + (x % 2 + 2 * r);
    DivModUnique(x, 2 * m, q, x % 2 + 2 * r);
  }

  lemma MulGap(d: nat, a: int, b: int)
    requires a < b
    ensures d * a + d <= d * b
  {
    assert d * b == d * a + d + d * (b - a - 1);
  }

  lemma DivModUnique(x: int, d: nat, q: int, r: nat)
    requires x == d * q + r && r < d
    ensures x / d == q && x % d == r
  {
    if x / d > q {
      MulGap(d, q, x / d);
    } else if x / d < q {
      MulGap(d, x / d, q);
    }
  }

  lemma {:induction false} Pow2Sum(j: nat, k: nat)
    ensures Pow2(j + k) == Pow2(j) * Pow2(k)
    decreases k
  {
    if k > 0 {
      Pow2Sum(j, k - 1);
      assert Pow2(j + k) == 2 * Pow2(j + (k - 1));
    }
  }

  lemma {:induction false} Pow2Monotone(j: nat, k: nat)
    requires j <= k
    ensures Pow2(j) <= Pow2(k)
    decreases k
  {
    Pow2Positive(j);
    if j < k {
      Pow2Monotone(j, k - 1);
    }
  }

  lemma Pow2Of64()
    ensures Pow2(64) == TWO64
  {
    assert Pow2(8) == 256;
    Pow2Sum(8, 8);
    Pow2Sum(16, 16);
    Pow2Sum(32, 32);
  }

  lemma {:induction false} ModOfMod(w: nat, c: nat, n: nat)
    requires c > 0 && n > 0
    ensures (w % (c * n)) % c == w % c
  {
    var q := w / (c * n);
    var r := w % (c * n);
    assert w == (c * n) * q + r;
    assert w == c * (n * q + r / c) + r % c by {
      assert r == c * (r / c) + r % c;
      assert (c * n) * q == c * (n * q);
      assert c * (n * q + r / c) == c * (n * q) + c * (r / c);
    }
    DivModUnique(w, c, n * q + r / c, r % c);
  }

  /** A capacity that fits in `size_t` and passes the template's assertion divides 2^64. */
  lemma CapacityDivides(c: nat) returns (k: nat, n: nat)
    requires PassesCapacityAssert(c) && c < TWO64
    ensures c == Pow2(k) && n > 0 && c * n == TWO64
  {
    CapacityAssertExact(c);
    k :| c == Pow2(k);
    Pow2Of64();
    if k > 64 {
      Pow2Monotone(64, k);
    }
    n := Pow2(64 - k);
    Pow2Positive(64 - k);
    Pow2Sum(k, 64 - k);
  }

  /** The mask of a stored (wrapped) index is the unbounded index modulo the capacity. */
  lemma MaskOfWrapped(w: nat, c: nat)
    requires PassesCapacityAssert(c) && c < TWO64
    ensures BitAnd(Wrap(w), c - 1) == w % c
  {
    var k, n := CapacityDivides(c);
    MaskIsMod(Wrap(w), k);
    ModOfMod(w, c, n);
  }

  /** The wrapped difference of two stored indices is the unbounded difference. */
  lemma SubOfWrapped(w: nat, r: nat)
    requires r <= w < r + TWO64
    ensures Sub(Wrap(w), Wrap(r)) == w - r
  {
    var qw, qr := w / TWO64, r / TWO64;
    assert Wrap(w) - Wrap(r) == TWO64 * (qr - qw) + (w - r);
    DivModUnique(Wrap(w) - Wrap(r), TWO64, qr - qw, w - r);
  }

  /** Two stored indices at most one capacity apart are equal only when the counts are. */
  lemma WrappedEqual(w: nat, r: nat)
    requires r <= w < r + TWO64
    ensures Wrap(w) == Wrap(r) <==> w == r
  {
    SubOfWrapped(w, r);
  }

  lemma AddOne(a: u64)
    requires a + 1 < TWO64
    ensures Add(a, 1) == a + 1
  {
  }

  lemma AddOfWrapped(w: nat, d: nat)
    requires d < TWO64
    ensures Add(Wrap(w), d) == Wrap(w + d)
  {
    var q, r := w / TWO64, w % TWO64;
    var q', r' := (r + d) / TWO64, (r + d) % TWO64;
    assert w + d == TWO64 * (q + q') + r';
    DivModUnique(w + d, TWO64, q + q', r');
  }

  /** Two counts less than one capacity apart share a slot only when they are equal. */
  lemma SlotsDistinct(i: nat, j: nat, c: nat)
    requires c > 0 && i < j < i + c
    ensures i % c != j % c
  {
    var sum := i % c + (j - i);
    if sum < c {
      DivModUnique(j, c, i / c, sum);
    } else {
      DivModUnique(j, c, i / c + 1, sum - c);
    }
  }
}
