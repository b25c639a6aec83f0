/** Shifts of unbounded numbers, one place at a time, and a little division. */
module Arith {

  /** The lowest field of a packed number, and what is left above it. */
  lemma Peel(q: int, r: int, d: int)
    requires 0 <= r < d
    ensures (q * d + r) / d == q && (q * d + r) % d == r
  {
    var x := q * d + r;
    SameQuotient(q, r, x / d, x % d, d);
  }

  lemma SameQuotient(q: int, r: int, k: int, t: int, d: int)
    requires 0 <= r < d && 0 <= t < d && q * d + r == k * d + t
    ensures q == k && r == t
  {
    assert (k - q) * d == k * d - q * d && (q - k) * d == q * d - k * d;
    if k > q {
      MulAtLeast(k - q, d);
    } else if k < q {
      MulAtLeast(q - k, d);
    }
  }

  lemma MulAtLeast(a: int, d: int)
    requires a >= 1 && d >= 0
    ensures a * d >= d
  {}

  /** x * 2^n. */
  function Up(x: int, n: nat): int {
    if n == 0 then x else 2 * Up(x, n - 1)
  }

  /** The floor of x / 2^n. */
  function Shr(x: int, n: nat): int
    decreases n
  {
    if n == 0 then x else Shr(x / 2, n - 1)
  }

  /** x mod 2^n: the n low bits of x. */
  function Low(x: int, n: nat): int
    decreases n
  {
    if n == 0 then 0 else x % 2 + 2 * Low(x / 2, n - 1)
  }

  lemma {:induction false} Split(x: int, n: nat)
    ensures x == Up(Shr(x, n), n) + Low(x, n)
    ensures 0 <= Low(x, n) < Up(1, n)
    ensures x >= 0 ==> 0 <= Shr(x, n) && 0 <= Up(Shr(x, n), n) <= x && Low(x, n) <= x
    decreases n
  {
    if n > 0 {
      Split(x / 2, n - 1);
    }
  }

  /** Packing is undone by Shr and Low. */
  lemma {:induction false} Join(a: int, b: int, n: nat)
    requires 0 <= b < Up(1, n)
    ensures Shr(Up(a, n) + b, n) == a && Low(Up(a, n) + b, n) == b
  {
    if n > 0 {
      Join(a, b / 2, n - 1);
      assert (Up(a, n) + b) / 2 == Up(a, n - 1) + b / 2;
    }
  }

  lemma {:induction false} PackBound(a: int, b: int, n: nat, k: nat)
    requires 0 <= a < Up(1, k) && 0 <= b < Up(1, n)
    ensures 0 <= Up(a, n) + b < Up(1, n + k)
  {
    if n > 0 {
      PackBound(a, b / 2, n - 1, k);
    }
  }

  lemma {:induction false} UpAdd(x: int, a: nat, b: nat)
    ensures Up(x, a + b) == Up(Up(x, a), b)
  {
    if b > 0 {
      UpAdd(x, a, b - 1);
    }
  }

  lemma {:induction false} UpPlus(x: int, y: int, n: nat)
    ensures Up(x + y, n) == Up(x, n) + Up(y, n)
  {
    if n > 0 {
      UpPlus(x, y, n - 1);
    }
  }

  lemma {:induction false} UpMinus(x: int, y: int, n: nat)
    ensures Up(x - y, n) == Up(x, n) - Up(y, n)
  {
    if n > 0 {
      UpMinus(x, y, n - 1);
    }
  }

  lemma {:induction false} ShrAdd(x: int, a: nat, b: nat)
    ensures Shr(x, a + b) == Shr(Shr(x, a), b)
    decreases a
  {
    if a > 0 {
      ShrAdd(x / 2, a - 1, b);
    }
  }

  lemma {:induction false} ShrBound(x: int, a: nat, b: nat)
    requires 0 <= x < Up(1, a + b)
    ensures 0 <= Shr(x, a) < Up(1, b)
    decreases a
  {
    if a > 0 {
      ShrBound(x / 2, a - 1, b);
    }
  }

  /** The low bits of a shifted number are its low bits, shifted. */
  lemma {:induction false} LowUp(x: int, n: nat, k: nat)
    ensures Low(Up(x, n), n + k) == Up(Low(x, k), n)
  {
    if n > 0 {
      LowUp(x, n - 1, k);
    }
  }

  lemma {:induction false} UpMonotonic(x: int, a: nat, b: nat)
    requires x >= 0 && a <= b
    ensures 0 <= Up(x, a) <= Up(x, b)
    decreases b
  {
    if a < b {
      UpMonotonic(x, a, b - 1);
    } else if a > 0 {
      UpMonotonic(x, a - 1, b - 1);
    }
  }

  lemma {:induction false} LowSmall(x: int, n: nat)
    requires 0 <= x < Up(1, n)
    ensures Low(x, n) == x && Shr(x, n) == 0
    decreases n
  {
    if n > 0 {
      LowSmall(x / 2, n - 1);
    }
  }

  // Shifts by fixed amounts.  The amount is a variable so that calls are not unrolled.

  lemma UpBy4(x: int, n: nat)
    requires n == 4
    ensures Up(x, n) == 0x10 * x
  {
    assert Up(x, n - 1) == 2 * Up(x, n - 2) && Up(x, n - 2) == 2 * Up(x, n - 3) && Up(x, n - 3) == 2 * Up(x, n - 4);
  }

  lemma ShrBy4(x: int, n: nat)
    requires n == 4
    ensures Shr(x, n) == x / 0x10
  {
    assert Shr(x, n) == Shr(x / 4, n - 2) && Shr(x / 4, n - 2) == Shr(x / 16, n - 4);
  }

  lemma UpBy8(x: int, n: nat)
    requires n == 8
    ensures Up(x, n) == 0x100 * x
  {
    UpAdd(x, n - 4, n - 4);
    UpBy4(x, n - 4);
    UpBy4(0x10 * x, n - 4);
  }

  lemma ShrBy8(x: int, n: nat)
    requires n == 8
    ensures Shr(x, n) == x / 0x100
  {
    ShrAdd(x, n - 4, n - 4);
    ShrBy4(x, n - 4);
    ShrBy4(x / 0x10, n - 4);
  }

  lemma UpBy16(x: int, n: nat)
    requires n == 16
    ensures Up(x, n) == 0x1_0000 * x
  {
    UpAdd(x, n - 8, n - 8);
    UpBy8(x, n - 8);
    UpBy8(0x100 * x, n - 8);
  }

  lemma ShrBy16(x: int, n: nat)
    requires n == 16
    ensures Shr(x, n) == x / 0x1_0000
  {
    ShrAdd(x, n - 8, n - 8);
    ShrBy8(x, n - 8);
    ShrBy8(x / 0x100, n - 8);
  }

  lemma UpBy32(x: int, n: nat)
    requires n == 32
    ensures Up(x, n) == 0x1_0000_0000 * x
  {
    UpAdd(x, n - 16, n - 16);
    UpBy16(x, n - 16);
    UpBy16(0x1_0000 * x, n - 16);
  }

  lemma ShrBy32(x: int, n: nat)
    requires n == 32
    ensures Shr(x, n) == x / 0x1_0000_0000
  {
    ShrAdd(x, n - 16, n - 16);
    ShrBy16(x, n - 16);
    ShrBy16(x / 0x1_0000, n - 16);
  }

  lemma UpBy64(x: int, n: nat)
    requires n == 64
    ensures Up(x, n) == 0x1_0000_0000_0000_0000 * x
  {
    UpAdd(x, n - 32, n - 32);
    UpBy32(x, n - 32);
    UpBy32(0x1_0000_0000 * x, n - 32);
  }

  lemma LowBy32(x: int, n: nat)
    requires n == 32
    ensures Low(x, n) == x % 0x1_0000_0000
  {
    Split(x, n);
    ShrBy32(x, n);
    UpBy32(x / 0x1_0000_0000, n);
  }

  lemma LowBy64(x: int, n: nat)
    requires n == 64
    ensures Low(x, n) == x % 0x1_0000_0000_0000_0000
  {
    Split(x, n);
    UpBy64(Shr(x, n), n);
    UpBy64(1, n);
    Peel(Shr(x, n), Low(x, n), 0x1_0000_0000_0000_0000);
  }
}
