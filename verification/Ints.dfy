/** Go's fixed-width integers, written out over unbounded integers. */
module Ints {
  const TWO_31: int := 0x8000_0000
  const TWO_32: int := 0x1_0000_0000
  const TWO_63: int := 0x8000_0000_0000_0000
  const TWO_64: int := 0x1_0000_0000_0000_0000

  /** The largest value of a Go int, hence the largest length of a slice. */
  const MAX_INT: int := TWO_63 - 1

  type byte = x: int | 0 <= x < 256
  type uint32 = x: int | 0 <= x < TWO_32
  type uint64 = x: int | 0 <= x < TWO_64
  type int32 = x: int | -TWO_31 <= x < TWO_31
  type int64 = x: int | -TWO_63 <= x < TWO_63

  /** int64(x) for an unsigned x: two's complement. */
  function ToInt64(x: uint64): int64 {
    if x < TWO_63 then x else x - TWO_64
  }

  /** uint64(x) for a signed x of any width: sign extension. */
  function ToUint64(x: int64): uint64 {
    if x < 0 then x + TWO_64 else x
  }

  /** int32(x) for an unsigned 32-bit pattern x. */
  function ToInt32(x: uint32): int32 {
    if x < TWO_31 then x else x - TWO_32
  }

  /** Signed 64-bit addition, which wraps. */
  function AddInt64(a: int64, b: int64): int64 {
    if a + b >= TWO_63 then a + b - TWO_64
    else if a + b < -TWO_63 then a + b + TWO_64
    else a + b
  }

  /** x << n, keeping every bit. */
  function Shl(x: nat, n: nat): nat {
    if n == 0 then x else 2 * Shl(x, n - 1)
  }

  /** The low n bits of x: x << k in a type of n bits is Low(Shl(x, k), n). */
  function Low(x: nat, n: nat): nat {
    if n == 0 then 0 else x % 2 + 2 * Low(x / 2, n - 1)
  }

  /** The bitwise or of two non-negative integers. */
  function Or(a: nat, b: nat): nat
    decreases a + b
  {
    if a == 0 && b == 0 then 0
    else (if a % 2 == 1 || b % 2 == 1 then 1 else 0) + 2 * Or(a / 2, b / 2)
  }

  lemma {:induction false} ShlAdd(x: nat, y: nat, n: nat)
    ensures Shl(x + y, n) == Shl(x, n) + Shl(y, n)
  {
    if n != 0 {
      ShlAdd(x, y, n - 1);
    }
  }

  lemma {:induction false} ShlShl(x: nat, m: nat, n: nat)
    ensures Shl(Shl(x, m), n) == Shl(x, m + n)
  {
    if n != 0 {
      ShlShl(x, m, n - 1);
    }
  }

  lemma ShlSeven(x: nat, n: nat)
    ensures Shl(128 * x, n) == Shl(x, n + 7)
  {
    ShlShl(x, 7, n);
    assert Shl(x, 7) == 128 * x by {
      assert Shl(x, 3) == 2 * Shl(x, 2) && Shl(x, 1) == 2 * Shl(x, 0);
      assert Shl(x, 5) == 2 * Shl(x, 4) && Shl(x, 7) == 2 * Shl(x, 6);
    }
  }

  lemma PowersOfTwo()
    ensures Shl(1, 7) == 128 && Shl(1, 32) == TWO_32 && Shl(1, 64) == TWO_64 && Shl(1, 70) == 64 * TWO_64
  {
    assert Shl(1, 2) == 4;
    ShlShl(1, 2, 2);
    ShlShl(1, 4, 3);
    ShlShl(1, 4, 4);
    ShlShl(1, 8, 8);
    Scale(256, 8, 256);
    ShlShl(1, 16, 16);
    Scale(65536, 16, 65536);
    ShlShl(1, 32, 32);
    Scale(TWO_32, 32, TWO_32);
    ShlShl(1, 64, 6);
    assert Shl(TWO_64, 6) == 64 * TWO_64;
  }

  lemma {:induction false} Scale(x: nat, n: nat, p: nat)
    requires p == Shl(1, n)
    ensures Shl(x, n) == x * p
  {
    if n != 0 {
      Scale(x, n - 1, Shl(1, n - 1));
    }
  }

  /** Reading a number seven bits at a time. */
  lemma ShlNextSeven(read: nat, bits: nat, rest: nat, n: nat)
    ensures read + Shl(bits + 128 * rest, n) == read + Shl(bits, n) + Shl(rest, n + 7)
    ensures read < Shl(1, n) && bits < 128 ==> read + Shl(bits, n) < Shl(1, n + 7)
  {
    ShlAdd(bits, 128 * rest, n);
    ShlSeven(rest, n);
    if bits < 128 {
      ShlAdd(bits, 128 - bits, n);
      ShlAdd(1, 127 - bits, n);
      ShlSeven(1, n);
    }
  }

  lemma {:induction false} LowBound(x: nat, n: nat)
    ensures Low(x, n) < Shl(1, n)
    ensures x < Shl(1, n) ==> Low(x, n) == x
  {
    if n != 0 {
      LowBound(x / 2, n - 1);
    }
  }

  /** The low bits are the remainder. */
  lemma {:induction false} LowIsMod(x: nat, n: nat, p: nat)
    requires p == Shl(1, n)
    ensures p > 0 && Low(x, n) == x % p
  {
    if n != 0 {
      LowIsMod(x / 2, n - 1, p / 2);
      ModTwice(x, p / 2);
    }
  }

  lemma ModTwice(x: nat, p: nat)
    requires p > 0
    ensures x % (2 * p) == x % 2 + 2 * (x / 2 % p)
  {
    var q, r := x / 2 / p, x / 2 % p;
    assert x / 2 == p * q + r;
    assert x == (2 * p) * q + (x % 2 + 2 * r);
    Remainder(x, 2 * p, q, x % 2 + 2 * r);
  }

  lemma Remainder(x: nat, p: nat, q: nat, r: nat)
    requires x == p * q + r && r < p
    ensures x % p == r
  {
    var d: int := x / p - q;
    assert p * d == r - x % p;
    assert p * d < p && 0 < p * d + p;
  }

  lemma {:induction false} LowLow(x: nat, m: nat, n: nat)
    requires m <= n
    ensures Low(Low(x, n), m) == Low(x, m)
  {
    if m != 0 {
      LowLow(x / 2, m - 1, n - 1);
    }
  }

  lemma {:induction false} LowAddShl(low: nat, high: nat, n: nat)
    requires low < Shl(1, n)
    ensures Low(low + Shl(high, n), n) == low
  {
    if n != 0 {
      LowAddShl(low / 2, high, n - 1);
    }
  }

  lemma OrHalves(a: nat, b: nat)
    ensures Or(a, b) / 2 == Or(a / 2, b / 2)
    ensures Or(a, b) % 2 == (if a % 2 == 1 || b % 2 == 1 then 1 else 0)
  {
  }

  lemma {:induction false} OrZero(a: nat)
    ensures Or(a, 0) == a && Or(0, a) == a
  {
    if a != 0 {
      OrZero(a / 2);
    }
  }

  lemma {:induction false} OrAssociative(a: nat, b: nat, c: nat)
    ensures Or(Or(a, b), c) == Or(a, Or(b, c))
    decreases a + b + c
  {
    if a + b + c != 0 {
      OrHalves(a, b);
      OrHalves(b, c);
      OrAssociative(a / 2, b / 2, c / 2);
      OrHalves(Or(a, b), c);
      OrHalves(a, Or(b, c));
    }
  }

  lemma {:induction false} LowOr(a: nat, b: nat, n: nat)
    ensures Low(Or(a, b), n) == Or(Low(a, n), Low(b, n))
  {
    if n != 0 {
      OrHalves(a, b);
      LowOr(a / 2, b / 2, n - 1);
      OrHalves(Low(a, n), Low(b, n));
    }
  }

  /** Numbers that share no bit: or is addition. */
  lemma {:induction false} OrDisjoint(low: nat, high: nat, n: nat)
    requires low < Shl(1, n)
    ensures Or(low, Shl(high, n)) == low + Shl(high, n)
  {
    if n == 0 {
      OrZero(high);
    } else {
      OrDisjoint(low / 2, high, n - 1);
      OrHalves(low, Shl(high, n));
    }
  }

  lemma {:induction false} OrBound(a: nat, b: nat, n: nat)
    requires a < Shl(1, n) && b < Shl(1, n)
    ensures Or(a, b) < Shl(1, n)
  {
    if n != 0 {
      OrHalves(a, b);
      OrBound(a / 2, b / 2, n - 1);
    }
  }

  /**
   * One turn of a varint loop: an accumulator of width bits, oring in the next seven bits, holds
   * the low bits of the number read so far.
   */
  lemma OrTurn(init: nat, read: nat, bits: nat, n: nat, width: nat)
    requires read < Shl(1, n) && init < Shl(1, width)
    ensures Or(Or(init, Low(read, width)), Low(Shl(bits, n), width)) == Or(init, Low(read + Shl(bits, n), width))
    ensures Or(init, Low(read + Shl(bits, n), width)) < Shl(1, width)
  {
    OrDisjoint(read, bits, n);
    LowOr(read, Shl(bits, n), width);
    OrAssociative(init, Low(read, width), Low(Shl(bits, n), width));
    LowBound(read + Shl(bits, n), width);
    OrBound(init, Low(read + Shl(bits, n), width), width);
  }
}
