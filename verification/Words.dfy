/** Fixed-width machine words, kept as bounded integers so that every wrap-around is written out. */
module Words {
  const TWO_8: int := 0x100
  const TWO_16: int := 0x1_0000
  const TWO_24: int := 0x100_0000
  const TWO_31: int := 0x8000_0000
  const TWO_32: int := 0x1_0000_0000
  const TWO_40: int := 0x100_0000_0000
  const TWO_47: int := 0x8000_0000_0000
  const TWO_48: int := 0x1_0000_0000_0000
  const TWO_63: int := 0x8000_0000_0000_0000
  const TWO_64: int := 0x1_0000_0000_0000_0000

  type U8 = x: int | 0 <= x < TWO_8
  type U16 = x: int | 0 <= x < TWO_16
  type U32 = x: int | 0 <= x < TWO_32
  type U64 = x: int | 0 <= x < TWO_64

  /** `roundup<8>`: the least multiple of eight that is not below x. */
  function RoundUp8(x: nat): (r: nat)
    ensures x <= r < x + 8 && r % 8 == 0
  {
    (x + 7) / 8 * 8
  }
}

/** Integer division with variable divisors, which the solver needs led by the hand. */
module Remainders {
  lemma Steps(a: int, b: int, n: int)
    requires 0 < n
    ensures a < b ==> a * n + n <= b * n
  {
    if a < b {
      var d := b - a - 1;
      assert d * n >= 0;
      assert (a + 1 + d) * n == a * n + n + d * n;
    }
  }

  lemma ModUnique(x: int, n: int, q: int, r: int)
    requires 0 < n && x == q * n + r && 0 <= r < n
    ensures x % n == r && x / n == q
  {
    Steps(q, x / n, n);
    Steps(x / n, q, n);
  }

  lemma ModShift(x: int, n: int, q: int)
    requires 0 < n
    ensures (x + q * n) % n == x % n && (x + q * n) / n == x / n + q
  {
    assert x + q * n == (x / n + q) * n + x % n;
    ModUnique(x + q * n, n, x / n + q, x % n);
  }

  /** A remainder by a multiple keeps the remainder by the factor. */
  lemma ModMod(x: int, n: int, m: int)
    requires 0 < n && 0 < m
    ensures 0 < n * m && x % (n * m) % n == x % n
  {
    var q := x / (n * m);
    assert x == x % (n * m) + q * m * n;
    ModShift(x % (n * m), n, q * m);
  }

  /** Indices less than n apart are different modulo n. */
  lemma WindowInjective(w: int, v: int, n: int)
    requires 0 < n && w < v < w + n
    ensures w % n != v % n
  {
    Steps(w / n, v / n, n);
    Steps(v / n, w / n, n);
  }

  lemma Multiple(q: int, n: int)
    requires 0 < n
    ensures q * n % n == 0
  {
    ModUnique(q * n, n, q, 0);
  }
}

module Powers {
  import opened Words

  function Pow2(k: nat): (p: nat)
    ensures 0 < p
  {
    if k == 0 then 1 else 2 * Pow2(k - 1)
  }

  lemma {:induction false} Pow2Adds(a: nat, b: nat)
    ensures Pow2(a + b) == Pow2(a) * Pow2(b)
  {
    if a > 0 {
      Pow2Adds(a - 1, b);
    }
  }

  lemma {:induction false} Pow2Grows(a: nat, b: nat)
    ensures a < b ==> 2 * Pow2(a) <= Pow2(b)
    decreases b
  {
    if a + 1 < b {
      Pow2Grows(a, b - 1);
    }
  }

  lemma Pow2Doubles(k: nat)
    requires 0 < k
    ensures Pow2(k) == 2 * Pow2(k - 1)
  {
  }

  lemma SmallPowers()
    ensures Pow2(2) == 4 && Pow2(3) == 8
  {
    assert Pow2(1) == 2;
  }

  lemma Pow2Is47()
    ensures Pow2(16) == TWO_16 && Pow2(47) == TWO_47
  {
    hide Pow2;
    SmallPowers();
    Pow2Adds(2, 2);
    Pow2Adds(4, 4);
    Pow2Adds(8, 8);
    Pow2Adds(16, 16);
    Pow2Adds(4, 3);
    Pow2Adds(8, 7);
    Pow2Adds(32, 15);
  }

  /** The smallest power of two that is not below x. */
  function NextPowerOfTwo(x: nat, s: nat): (p: nat)
    ensures x <= p && Pow2(s) <= p && (p == Pow2(s) || p < 2 * x)
    decreases x - Pow2(s)
  {
    if Pow2(s) < x then NextPowerOfTwo(x, s + 1) else Pow2(s)
  }

  lemma {:induction false} NextPowerOfTwoIsPower(x: nat, s: nat) returns (k: nat)
    ensures s <= k && NextPowerOfTwo(x, s) == Pow2(k)
    decreases x - Pow2(s)
  {
    if Pow2(s) < x {
      k := NextPowerOfTwoIsPower(x, s + 1);
    } else {
      k := s;
    }
  }

  const PAGE_SIZE: int := 0x20_0000

  /** The size of a pool for a configured one: at least a minimum, in whole huge pages, a power of two. */
  function PoolSize(configured: nat, minimum: nat): nat {
    var size := if configured < minimum then minimum else configured;
    NextPowerOfTwo((size + PAGE_SIZE - 1) / PAGE_SIZE * PAGE_SIZE, 0)
  }

  lemma PoolSizeIs(configured: nat, minimum: nat) returns (k: nat)
    requires 0 < minimum
    ensures PoolSize(configured, minimum) == Pow2(k) && 21 <= k
    ensures configured <= PoolSize(configured, minimum) && PoolSize(configured, minimum) % PAGE_SIZE == 0
    ensures var size := if configured < minimum then minimum else configured;
            PoolSize(configured, minimum) == PAGE_SIZE || PoolSize(configured, minimum) < 2 * (size + PAGE_SIZE)
  {
    hide Pow2, NextPowerOfTwo;
    var size := if configured < minimum then minimum else configured;
    var rounded := (size + PAGE_SIZE - 1) / PAGE_SIZE * PAGE_SIZE;
    k := NextPowerOfTwoIsPower(rounded, 0);
    Pow2Is21();
    if k < 21 {
      Pow2Grows(k, 21);
    } else {
      Pow2Adds(21, k - 21);
      WholePages(Pow2(k - 21));
    }
    assert Pow2(0) == 1 by { FirstPower(); }
  }

  lemma FirstPower()
    ensures Pow2(0) == 1
  {
  }

  lemma WholePages(n: nat)
    ensures PAGE_SIZE * n % PAGE_SIZE == 0
  {
  }

  lemma WholePagesWords(size: nat)
    requires size % PAGE_SIZE == 0
    ensures size % 8 == 0
  {
  }

  lemma Pow2Is21()
    ensures Pow2(21) == PAGE_SIZE
  {
    hide Pow2;
    SmallPowers();
    Pow2Adds(2, 2);
    Pow2Adds(4, 4);
    Pow2Adds(8, 8);
    Pow2Adds(16, 4);
    Pow2Doubles(21);
  }
}
