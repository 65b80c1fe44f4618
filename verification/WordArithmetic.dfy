/** Arithmetic on the free-running 64-bit counters of the source. */
module WordArithmetic {

  const WORD: nat := 0x1_0000_0000_0000_0000

  type Word64 = w: nat | w < WORD

  /** A counter as it is stored: reduced modulo m, or left unbounded when m is 0. */
  function Wrap(m: nat, x: int): int {
    if m == 0 then x else x % m
  }

  lemma MultipleBounds(d: int, m: int)
    requires 0 <= m
    ensures d >= 1 ==> d * m >= m
    ensures d <= -1 ==> d * m <= -m
  {
    if d >= 1 {
      assert (d - 1) * m >= 0;
    } else if d <= -1 {
      assert (-1 - d) * m >= 0;
    }
  }

  lemma ModIsUnique(x: int, q: int, r: int, m: nat)
    requires 0 <= r < m
    requires x == q * m + r
    ensures x % m == r
  {
    var k := x / m;
    assert x == k * m + x % m;
    var d := k - q;
    assert d * m == r - x % m;
    MultipleBounds(d, m);
  }

  lemma SmallMod(n: int, m: nat)
    requires 0 <= n < m
    ensures n % m == n
  {
    ModIsUnique(n, 0, n, m);
  }

  /** Subtracting two wrapped counters gives the true distance while it is below the modulus. */
  lemma WrappedDistance(m: nat, hi: int, lo: int)
    requires 0 < m
    requires 0 <= hi - lo < m
    ensures (hi % m - lo % m) % m == hi - lo
  {
    var qh, ql := hi / m, lo / m;
    assert hi % m - lo % m == (ql - qh) * m + (hi - lo);
    ModIsUnique(hi % m - lo % m, ql - qh, hi - lo, m);
  }

  /** A capacity that divides the modulus sees the same slot for a counter and its wrapped form. */
  lemma WrappedSlot(m: nat, capacity: nat, n: nat)
    requires 0 < capacity && 0 < m && m % capacity == 0
    ensures (n % m) % capacity == n % capacity
  {
    var k := m / capacity;
    var q := n / m;
    var s := (n % m) / capacity;
    assert m == k * capacity;
    assert n == q * (k * capacity) + n % m;
    assert q * (k * capacity) == (q * k) * capacity;
    assert n == (q * k + s) * capacity + (n % m) % capacity;
    ModIsUnique(n, q * k + s, (n % m) % capacity, capacity);
  }

  /** Counters less than one capacity apart use different slots. */
  lemma DistinctSlots(capacity: nat, i: nat, j: nat)
    requires 0 < capacity
    requires i < j < i + capacity
    ensures i % capacity != j % capacity
  {
    var d := j / capacity - i / capacity;
    assert j - i == d * capacity + (j % capacity - i % capacity);
    MultipleBounds(d, capacity);
  }

  lemma SuccessorOfRemainder(m: nat, q: int, r: int)
    requires 1 < m && 0 <= r < m
    ensures (r + 1) % m == (q * m + r + 1) % m
  {
    if r + 1 < m {
      SmallMod(r + 1, m);
      ModIsUnique(q * m + r + 1, q, r + 1, m);
    } else {
      assert (q + 1) * m == q * m + m;
      ModIsUnique(m, 1, 0, m);
      ModIsUnique(q * m + r + 1, q + 1, 0, m);
    }
  }

  lemma WrappedSuccessor(m: nat, n: nat)
    requires 1 < m
    ensures (n % m + 1) % m == (n + 1) % m
  {
    SuccessorOfRemainder(m, n / m, n % m);
  }

  /** Subtracting two wrapped counters gives their wrapped difference. */
  lemma WrappedDifference(m: nat, a: int, b: int)
    requires 0 < m
    ensures (a % m - b % m) % m == (a - b) % m
  {
    var x := a % m - b % m;
    var q, r := x / m, x % m;
    var k := a / m - b / m + q;
    assert a - b == (a / m) * m - (b / m) * m + q * m + r;
    assert k * m == (a / m) * m - (b / m) * m + q * m;
    ModIsUnique(a - b, k, r, m);
  }

  /** What a counter that is behind by `lead` shows modulo m. */
  lemma WrappedLead(m: nat, lead: int)
    requires 0 < m
    ensures 0 <= -lead < m ==> (-lead) % m == -lead
    ensures 0 < lead < m ==> (-lead) % m == m - lead
    ensures (-lead) % m == (0 - lead % m) % m
  {
    if 0 <= -lead < m {
      SmallMod(-lead, m);
    } else if 0 < lead < m {
      ModIsUnique(-lead, -1, m - lead, m);
    }
    SmallMod(0, m);
    WrappedDifference(m, 0, lead);
  }

  /** Two wrapped counters less than the modulus apart are equal exactly when the counters are. */
  lemma WrappedEquality(m: nat, hi: int, lo: int)
    requires 0 < m && 0 <= hi - lo < m
    ensures hi % m == lo % m <==> hi == lo
  {
    WrappedDistance(m, hi, lo);
  }

  // ------------------------------------------------------------------ powers of two

  function Pow2(n: nat): (p: nat)
    ensures p > 0
  {
    if n == 0 then 1 else 2 * Pow2(n - 1)
  }

  lemma Pow2By4(n: nat)
    ensures Pow2(n + 4) == 16 * Pow2(n)
  {
    assert Pow2(n + 2) == 4 * Pow2(n);
    assert Pow2(n + 4) == 4 * Pow2(n + 2);
  }

  lemma Pow2By16(n: nat)
    ensures Pow2(n + 16) == 65536 * Pow2(n)
  {
    Pow2By4(n);
    Pow2By4(n + 4);
    Pow2By4(n + 8);
    Pow2By4(n + 12);
  }

  lemma WordIsPow2()
    ensures Pow2(64) == WORD
  {
    var zero := 0;
    Pow2By16(zero);
    Pow2By16(zero + 16);
    Pow2By16(zero + 32);
    Pow2By16(zero + 48);
  }
}
