/** Byte-level vocabulary shared by the whole model: bytes as bounded
    integers, powers of two, and the bitwise operations that the C# and
    Python sources use (`|`, `>>`, `& 1`), defined arithmetically so that
    every proof stays in integer arithmetic. */
module Bits {

  /** A byte (C# `byte`, a Python `bytes` element). */
  type byte = b: int | 0 <= b < 256

  /** `n` zero bytes, as a freshly allocated C# `byte[n]` holds. */
  function Zeros(n: nat): (z: seq<byte>)
    ensures |z| == n
    ensures forall i :: 0 <= i < n ==> z[i] == 0
  {
    seq(n, _ => 0)
  }

  /** `b` repeated `n` times. */
  function Fill(b: byte, n: nat): (z: seq<byte>)
    ensures |z| == n
    ensures forall i :: 0 <= i < n ==> z[i] == b
  {
    seq(n, _ => b)
  }

  function Pow2(k: nat): (p: nat)
    ensures p >= 1
  {
    if k == 0 then 1 else 2 * Pow2(k - 1)
  }

  /** `x >> k` with floor semantics: Python's `>>` on any int, C#'s on
      non-negative values. Dafny's `/` by 2 is Euclidean, which is floor
      division for a positive divisor. */
  function Shr(x: int, k: nat): int
    decreases k
  {
    if k == 0 then x else Shr(x / 2, k - 1)
  }

  /** `(x >> k) & 1 == 1`: bit `k` of `x` (two's complement for negative `x`). */
  predicate Bit(x: int, k: nat)
  {
    Shr(x, k) % 2 == 1
  }

  /** Bitwise OR of two non-negative integers. */
  function BitOr(a: nat, b: nat): nat
    decreases a + b
  {
    if a == 0 then b
    else if b == 0 then a
    else 2 * BitOr(a / 2, b / 2) + (if a % 2 == 1 || b % 2 == 1 then 1 else 0)
  }

  lemma {:induction false} BitOrBit(a: nat, b: nat, k: nat)
    ensures Bit(BitOr(a, b), k) == (Bit(a, k) || Bit(b, k))
    decreases a + b
  {
    if a == 0 {
      ZeroHasNoBits(k);
    } else if b == 0 {
      ZeroHasNoBits(k);
    } else {
      var r := BitOr(a / 2, b / 2);
      var low := if a % 2 == 1 || b % 2 == 1 then 1 else 0;
      assert BitOr(a, b) == 2 * r + low;
      assert (2 * r + low) / 2 == r;
      if k > 0 {
        BitOrBit(a / 2, b / 2, k - 1);
        assert Shr(BitOr(a, b), k) == Shr(r, k - 1);
        assert Shr(a, k) == Shr(a / 2, k - 1);
        assert Shr(b, k) == Shr(b / 2, k - 1);
      }
    }
  }

  lemma {:induction false} ZeroHasNoBits(k: nat)
    ensures !Bit(0, k)
  {
    if k > 0 {
      ZeroHasNoBits(k - 1);
    }
  }

  lemma {:induction false} BitOrBound(a: nat, b: nat, n: nat)
    requires a < Pow2(n) && b < Pow2(n)
    ensures BitOr(a, b) < Pow2(n)
    decreases a + b
  {
    if a != 0 && b != 0 {
      assert n > 0;
      BitOrBound(a / 2, b / 2, n - 1);
    }
  }

  lemma {:induction false} BitOfPow2(j: nat, k: nat)
    ensures Bit(Pow2(j), k) == (j == k)
  {
    if j == 0 {
      if k > 0 {
        assert Shr(1, k) == Shr(0, k - 1);
        ZeroHasNoBits(k - 1);
      }
    } else if k == 0 {
      assert Pow2(j) % 2 == 0;
    } else {
      assert Pow2(j) / 2 == Pow2(j - 1);
      BitOfPow2(j - 1, k - 1);
    }
  }

  /** A value below 2^n has no bit at or above n. */
  lemma {:induction false} NoHighBits(x: nat, n: nat, k: nat)
    requires x < Pow2(n) && n <= k
    ensures !Bit(x, k)
  {
    if n == 0 {
      assert x == 0;
      ZeroHasNoBits(k);
    } else {
      NoHighBits(x / 2, n - 1, k - 1);
    }
  }

  /** Two values below 2^n with the same n low bits are equal. */
  lemma {:induction false} SameBitsSameValue(a: nat, b: nat, n: nat)
    requires a < Pow2(n) && b < Pow2(n)
    requires forall k :: 0 <= k < n ==> Bit(a, k) == Bit(b, k)
    ensures a == b
  {
    if n > 0 {
      assert Bit(a, 0) == Bit(b, 0);
      forall k | 0 <= k < n - 1
        ensures Bit(a / 2, k) == Bit(b / 2, k)
      {
        assert Bit(a, k + 1) == Bit(b, k + 1);
      }
      SameBitsSameValue(a / 2, b / 2, n - 1);
    }
  }

  /** Euclidean division is unique: the fact behind every "mod" step below. */
  lemma DivModUnique(v: int, d: int, q: int, r: int)
    requires d > 0 && v == q * d + r && 0 <= r < d
    ensures v / d == q && v % d == r
  {
    var q' := v / d;
    var r' := v % d;
    assert v == q' * d + r';
    if q > q' {
      MulAtLeast(q - q', d);
      MulDiff(q, q', d);
      assert false;
    } else if q < q' {
      MulAtLeast(q' - q, d);
      MulDiff(q', q, d);
      assert false;
    }
  }

  lemma MulAtLeast(x: int, d: int)
    requires x >= 1 && d > 0
    ensures x * d >= d
  {
  }

  lemma MulDiff(a: int, b: int, d: int)
    ensures (a - b) * d == a * d - b * d
  {
  }

  /** Keeping n low bits: the low bit, then n - 1 low bits of the rest. */
  lemma ModHalf(v: int, n: nat)
    requires n > 0
    ensures v % Pow2(n) == 2 * ((v / 2) % Pow2(n - 1)) + v % 2
  {
    var a := v / 2;
    var b := v % 2;
    var p := Pow2(n - 1);
    var r := a % p;
    var q := a / p;
    assert a == q * p + r;
    assert v == 2 * a + b;
    assert v == (q * p) * 2 + (2 * r + b);
    MulAssoc(q, p);
    DivModUnique(v, 2 * p, q, 2 * r + b);
  }

  lemma MulAssoc(q: int, p: int)
    ensures (q * p) * 2 == q * (2 * p)
  {
  }

  /** Keeping the low n bits of v keeps exactly those bits (any sign of v). */
  lemma {:induction false} BitOfMod(v: int, n: nat, k: nat)
    ensures Bit(v % Pow2(n), k) == (k < n && Bit(v, k))
    decreases n
  {
    if n == 0 {
      assert v % 1 == 0;
      ZeroHasNoBits(k);
    } else {
      var a := v / 2;
      var b := v % 2;
      var r := a % Pow2(n - 1);
      ModHalf(v, n);
      if k > 0 {
        BitOfMod(a, n - 1, k - 1);
        assert (2 * r + b) / 2 == r;
        assert Shr(2 * r + b, k) == Shr(r, k - 1);
        assert Shr(v, k) == Shr(a, k - 1);
      } else {
        assert (2 * r + b) % 2 == b;
      }
    }
  }

  /** OR-ing a value whose low n bits are clear with one below 2^n is addition. */
  lemma {:induction false} BitOrDisjoint(hi: nat, lo: nat, n: nat)
    requires lo < Pow2(n)
    ensures BitOr(hi * Pow2(n), lo) == hi * Pow2(n) + lo
  {
    if n > 0 && hi != 0 && lo != 0 {
      var a := hi * Pow2(n);
      assert a == 2 * (hi * Pow2(n - 1));
      assert a / 2 == hi * Pow2(n - 1);
      assert a % 2 == 0;
      BitOrDisjoint(hi, lo / 2, n - 1);
    } else if n == 0 {
      assert lo == 0;
    }
  }
}
