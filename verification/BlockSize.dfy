/** Rounding to blocks with a bit mask, as the tar code does it on 64-bit sizes. */
module BlockSize {
  import opened Words

  function Pow2(k: nat): (p: nat)
    ensures p > 0
  {
    if k == 0 then 1 else 2 * Pow2(k - 1)
  }

  /** Bitwise conjunction. */
  function And(a: nat, b: nat): nat {
    if a == 0 || b == 0 then 0 else (a % 2) * (b % 2) + 2 * And(a / 2, b / 2)
  }

  /** Bitwise complement of a 64-bit value. */
  function Not(x: nat): nat
    requires x < WORD64
  {
    WORD64 - 1 - x
  }

  function Align(n: nat, block: nat): nat
    requires 0 < block < WORD64
  {
    And(n, Not(block - 1))
  }

  function XAlign(n: nat, block: nat): nat
    requires 0 < block < WORD64
  {
    if n - Align(n, block) != 0 then (Align(n, block) + block) % WORD64 else n
  }

  lemma NextMultiple(x: nat, y: nat, d: nat)
    requires x < y
    ensures x * d + d <= y * d
  {
    var k := y - x - 1;
    assert (x + 1 + k) * d == x * d + d + k * d;
  }

  lemma QuotientUnique(a: nat, d: nat, q: nat, r: nat)
    requires d > 0 && a == q * d + r && r < d
    ensures a / d == q && a % d == r
  {
    var q', r' := a / d, a % d;
    assert a == d * q' + r' && d * q' == q' * d;
    if q' < q {
      NextMultiple(q', q, d);
    } else if q < q' {
      NextMultiple(q, q', d);
    }
  }

  lemma ModSplits(n: nat, m: nat)
    requires m > 0
    ensures n % (2 * m) == n % 2 + 2 * ((n / 2) % m)
  {
    var q, r := (n / 2) / m, (n / 2) % m;
    assert n / 2 == q * m + r;
    assert n == q * (2 * m) + (n % 2 + 2 * r);
    QuotientUnique(n, 2 * m, q, n % 2 + 2 * r);
  }

  lemma {:induction false} AllOnes(n: nat, w: nat)
    requires n < Pow2(w)
    ensures And(n, Pow2(w) - 1) == n
  {
    if n > 0 {
      assert w > 0;
      AllOnes(n / 2, w - 1);
      assert (Pow2(w) - 1) / 2 == Pow2(w - 1) - 1 && (Pow2(w) - 1) % 2 == 1;
    }
  }

  /** A mask of `w` bits whose low `k` bits are clear removes the remainder modulo 2^k. */
  lemma {:induction false} MaskClears(n: nat, k: nat, w: nat)
    requires k <= w && n < Pow2(w)
    ensures Pow2(k) <= Pow2(w) && And(n, Pow2(w) - Pow2(k)) == n - n % Pow2(k)
  {
    if k == 0 {
      AllOnes(n, w);
    } else {
      MaskClears(n / 2, k - 1, w - 1);
      ModSplits(n, Pow2(k - 1));
      EvenMask(n, Pow2(w - 1) - Pow2(k - 1));
    }
  }

  lemma EvenMask(n: nat, m: nat)
    ensures And(n, 2 * m) == 2 * And(n / 2, m)
  {
    assert (2 * m) % 2 == 0 && (2 * m) / 2 == m;
  }

  lemma WordIsPow2()
    ensures Pow2(64) == WORD64
  {
    assert Pow2(2) == 4;
    Squares(2, 4);
    Squares(4, 0x10);
    Squares(8, 0x100);
    Squares(16, 0x1_0000);
    Squares(32, 0x1_0000_0000);
  }

  lemma Squares(k: nat, p: nat)
    requires Pow2(k) == p
    ensures Pow2(2 * k) == p * p
  {
    Pow2Adds(k, k);
  }

  lemma Doubles(x: nat, y: nat)
    ensures (2 * x) * y == 2 * (x * y)
  {
  }

  lemma {:induction false} Pow2Adds(a: nat, b: nat)
    ensures Pow2(a + b) == Pow2(a) * Pow2(b)
  {
    if a > 0 {
      Pow2Adds(a - 1, b);
      Doubles(Pow2(a - 1), Pow2(b));
    }
  }

  predicate IsMultiple(m: nat, block: nat)
    requires block > 0
  {
    m % block == 0
  }

  lemma BelowWord(k: nat)
    requires k < 64
    ensures 0 < Pow2(k) < WORD64
  {
    WordIsPow2();
    Pow2Adds(k, 64 - k);
    NextMultiple(1, Pow2(64 - k), Pow2(k));
    assert Pow2(64 - k) * Pow2(k) == Pow2(k) * Pow2(64 - k);
  }

  lemma AlignIsFloor(n: nat, k: nat)
    requires k < 64 && n < WORD64
    ensures 0 < Pow2(k) < WORD64 && Align(n, Pow2(k)) == n - n % Pow2(k)
  {
    BelowWord(k);
    WordIsPow2();
    MaskClears(n, k, 64);
  }

  ghost predicate IsLeastMultiple(x: nat, n: nat, block: nat)
    requires block > 0
  {
    && IsMultiple(x, block) && n <= x
    && forall m: nat :: IsMultiple(m, block) && n <= m ==> x <= m
  }

  /** Below `c` blocks the last multiple of the block is at most `c - 1` blocks, and exactly that for
      whatever lies in the last block. */
  lemma LastBlock(q: nat, r: nat, b: nat, c: nat)
    requires r < b && q * b + r < c * b
    ensures q * b + b <= c * b
    ensures q * b + r > c * b - b ==> q * b == c * b - b && r > 0
  {
    if c < q {
      NextMultiple(c, q, b);
    } else if q < c {
      NextMultiple(q, c, b);
      assert (c - 1) * b == c * b - b;
      if q < c - 1 {
        NextMultiple(q, c - 1, b);
      }
    }
  }

  lemma MultipleBelowWord(n: nat, k: nat)
    requires k < 64 && n < WORD64
    ensures 0 < Pow2(k) < WORD64
    ensures n - n % Pow2(k) <= WORD64 - Pow2(k)
    ensures n > WORD64 - Pow2(k) ==> n - n % Pow2(k) == WORD64 - Pow2(k) && n % Pow2(k) != 0
  {
    BelowWord(k);
    WordIsPow2();
    Pow2Adds(64 - k, k);
    FloorIn(n, Pow2(k), Pow2(64 - k));
  }

  lemma FloorIn(n: nat, b: nat, c: nat)
    requires b > 0 && n < c * b
    ensures n - n % b <= c * b - b
    ensures n > c * b - b ==> n - n % b == c * b - b && n % b != 0
  {
    assert n == b * (n / b) + n % b && b * (n / b) == (n / b) * b;
    LastBlock(n / b, n % b, b, c);
  }

  lemma XAlignValue(n: nat, k: nat)
    requires k < 64 && n < WORD64
    ensures 0 < Pow2(k) < WORD64
    ensures n > WORD64 - Pow2(k) ==> XAlign(n, Pow2(k)) == 0
    ensures n <= WORD64 - Pow2(k) ==>
      XAlign(n, Pow2(k)) == if n % Pow2(k) != 0 then n - n % Pow2(k) + Pow2(k) else n
  {
    AlignIsFloor(n, k);
    MultipleBelowWord(n, k);
    NoWrap(n - n % Pow2(k) + Pow2(k));
  }

  lemma NoWrap(x: nat)
    requires x <= WORD64
    ensures x % WORD64 == if x == WORD64 then 0 else x
  {
  }

  /** For every power-of-two block and 64-bit size the mask form is the least multiple of the block
      not below the size, if and only if that multiple is itself a 64-bit number. */
  lemma XAlignIsLeast(n: nat, k: nat)
    requires k < 64 && n < WORD64
    ensures 0 < Pow2(k) < WORD64
    ensures IsLeastMultiple(XAlign(n, Pow2(k)), n, Pow2(k)) <==> n <= WORD64 - Pow2(k)
  {
    XAlignValue(n, k);
    if n <= WORD64 - Pow2(k) {
      Ceiling(n, Pow2(k), XAlign(n, Pow2(k)));
    }
  }

  /** Within one block of the largest size the sum wraps around to 0. */
  lemma XAlignWraps()
    ensures XAlign(WORD64 - 1, 512) == 0
  {
    assert Pow2(3) == 8 && Pow2(6) == 8 * Pow2(3) && Pow2(9) == 8 * Pow2(6);
    XAlignValue(WORD64 - 1, 9);
  }

  lemma Ceiling(n: nat, b: nat, x: nat)
    requires b > 0 && x == if n % b != 0 then n - n % b + b else n
    ensures IsMultiple(x, b) && n <= x < n + b
    ensures forall m: nat :: IsMultiple(m, b) && n <= m ==> x <= m
  {
    var q := n / b;
    assert n == b * q + n % b && b * q == q * b;
    if n % b != 0 {
      assert (q + 1) * b == q * b + b;
      QuotientUnique(x, b, q + 1, 0);
      forall m: nat | IsMultiple(m, b) && n <= m ensures x <= m {
        assert m == b * (m / b) && b * (m / b) == (m / b) * b;
        if m / b < q {
          NextMultiple(m / b, q, b);
        } else if q < m / b {
          NextMultiple(q, m / b, b);
        }
      }
    }
  }
}
