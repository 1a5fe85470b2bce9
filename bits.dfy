/**
 * Fixed-width C integer arithmetic used by the assembler, on unbounded
 * integers: `uint8_t`, `uint16_t` and `uint32_t` values are integers in their
 * ranges, an `int32_t` is kept as its 32-bit pattern (a `U32`) and read back
 * with `Signed32`, and the bitwise operators are defined bit by bit.
 */
module Bits {

  const TWO32: int := 0x1_0000_0000

  type U8 = x: int | 0 <= x < 0x100
  type U16 = x: int | 0 <= x < 0x1_0000
  type U32 = x: int | 0 <= x < 0x1_0000_0000

  function Pow2(n: nat): (r: int)
    ensures r >= 1
  {
    if n == 0 then 1 else 2 * Pow2(n - 1)
  }

  /** Conversion of an integer to `uint32_t`, which is also the bit pattern
      of the same value as an `int32_t` (two's complement). */
  function Wrap32(x: int): U32
  {
    x % TWO32
  }

  /** `a += 2` on a `uint32_t` address: the sum wraps past the top. */
  function AddrPlus2(a: U32): (r: U32)
  {
    if a + 2 < TWO32 then a + 2 else a + 2 - TWO32
  }

  /** The address step is the 32-bit conversion of the sum. */
  lemma AddrPlus2Wraps(a: U32)
    ensures AddrPlus2(a) == Wrap32(a + 2)
    ensures a + 2 < TWO32 ==> AddrPlus2(a) == a + 2
  {
  }

  /** Implicit conversion of an integer to `uint16_t`. */
  function Wrap16(x: int): U16
  {
    x % 0x1_0000
  }

  /** The value a 32-bit pattern has as an `int32_t`. */
  function Signed32(x: U32): (v: int)
    ensures -0x8000_0000 <= v < 0x8000_0000
    ensures Wrap32(v) == x
  {
    if x < 0x8000_0000 then x else x - TWO32
  }

  /** An `int32_t` value survives the round trip through its bit pattern. */
  lemma SignedWrap(v: int)
    requires -0x8000_0000 <= v < 0x8000_0000
    ensures Signed32(Wrap32(v)) == v
  {
  }

  /** C `a & b` on non-negative operands. */
  function BitAnd(a: nat, b: nat): (r: nat)
    ensures r <= a && r <= b
  {
    if a == 0 || b == 0 then 0
    else 2 * BitAnd(a / 2, b / 2) + (if a % 2 == 1 && b % 2 == 1 then 1 else 0)
  }

  /** C `a | b` on non-negative operands. */
  function BitOr(a: nat, b: nat): (r: nat)
    ensures a <= r <= a + b && b <= r
  {
    if a == 0 then b
    else if b == 0 then a
    else 2 * BitOr(a / 2, b / 2) + (if a % 2 == 1 || b % 2 == 1 then 1 else 0)
  }

  /** C `x << n` on `uint32_t`: the bits shifted past bit 31 are lost. */
  function Shl32(x: U32, n: nat): U32
    requires n < 32
  {
    (x * Pow2(n)) % TWO32
  }

  /** C `~x` on `uint32_t`. */
  function Not32(x: U32): U32
  {
    TWO32 - 1 - x
  }

  /** `0xffffffff << bits`: ones in bits 31 down to `bits`. */
  function HighMask(bits: nat): U32
    requires bits < 32
  {
    Shl32(0xffff_ffff, bits)
  }

  /** The assembler's range check: the bits of `x` above bit `bits - 1` are
      either all 0 or all 1. */
  predicate FitsBits(x: U32, bits: nat)
    requires bits < 32
  {
    BitAnd(x, HighMask(bits)) == 0 || BitAnd(x, HighMask(bits)) == HighMask(bits)
  }

  /** `x & ~(0xffffffff << bits)`: keep the low `bits` bits. */
  function MaskBits(x: U32, bits: nat): U32
    requires bits < 32
  {
    BitAnd(x, Not32(HighMask(bits)))
  }

  /** C integer division `a / d` for `d > 0`: the quotient is truncated
      toward zero (Dafny's `/` rounds toward negative infinity for `a < 0`). */
  function TDiv(a: int, d: int): (q: int)
    requires d > 0
    ensures a >= 0 ==> 0 <= a - q * d < d
    ensures a < 0 ==> -d < a - q * d <= 0
  {
    if a >= 0 then a / d else -((-a) / d)
  }

  // ---------------------------------------------------------------------
  // Arithmetic facts

  lemma {:induction false} Pow2Add(a: nat, b: nat)
    ensures Pow2(a + b) == Pow2(a) * Pow2(b)
  {
    if a > 0 {
      Pow2Add(a - 1, b);
      assert Pow2(a + b) == 2 * Pow2(a - 1 + b);
    }
  }

  lemma {:induction false} Pow2Monotone(a: nat, b: nat)
    requires a <= b
    ensures Pow2(a) <= Pow2(b)
  {
    if a < b {
      Pow2Monotone(a, b - 1);
    }
  }

  lemma Pow2At32()
    ensures Pow2(32) == TWO32
    ensures Pow2(31) == 0x8000_0000
  {
    Pow2Add(16, 16);
    Pow2Add(15, 16);
    assert Pow2(8) == 256;
    Pow2Add(8, 8);
    Pow2Add(7, 8);
  }

  lemma MulAtLeast(x: int, d: int)
    requires x >= 1 && d > 0
    ensures x * d >= d
  {
  }

  lemma ModUnique(a: int, q: int, r: int, d: int)
    requires d > 0 && 0 <= r < d && a == q * d + r
    ensures a % d == r && a / d == q
  {
    var q0, r0 := a / d, a % d;
    assert (q - q0) * d == r0 - r;
    if q > q0 {
      MulAtLeast(q - q0, d);
    } else if q < q0 {
      MulAtLeast(q0 - q, d);
    }
  }

  /** TDiv agrees with C: |q| is |a| / d rounded down, with the sign of `a`. */
  lemma TDivHalf(a: int)
    ensures TDiv(a, 2) * 2 + (if a < 0 then -((-a) % 2) else a % 2) == a
  {
  }

  // ---------------------------------------------------------------------
  // Masks

  /** `0xffffffff << bits` is 2^32 - 2^bits. */
  lemma HighMaskValue(bits: nat)
    requires bits < 32
    ensures Pow2(bits) <= 0x8000_0000
    ensures HighMask(bits) == TWO32 - Pow2(bits)
    ensures Not32(HighMask(bits)) == Pow2(bits) - 1
  {
    Pow2At32();
    Pow2Monotone(bits, 31);
    var p := Pow2(bits);
    assert 0xffff_ffff * p == (p - 1) * TWO32 + (TWO32 - p);
    ModUnique(0xffff_ffff * p, p - 1, TWO32 - p, TWO32);
  }

  lemma HalfMod(x: nat, p: nat)
    requires p >= 1
    ensures x % (2 * p) == 2 * ((x / 2) % p) + x % 2
  {
    var q := (x / 2) / p;
    var r := (x / 2) % p;
    assert x / 2 == q * p + r;
    assert x == q * (2 * p) + (2 * r + x % 2);
    ModUnique(x, q, 2 * r + x % 2, 2 * p);
  }

  lemma BitAndEven(x: nat, h: nat)
    ensures BitAnd(x, 2 * h) == 2 * BitAnd(x / 2, h)
  {
    if x != 0 && h != 0 {
      assert (2 * h) % 2 == 0 && (2 * h) / 2 == h;
    }
  }

  /** The value of the low `k` bits of `x`. */
  function Low(x: nat, k: nat): (r: nat)
    ensures r <= x
  {
    if k == 0 then 0 else 2 * Low(x / 2, k - 1) + x % 2
  }

  lemma {:induction false} LowIsMod(x: nat, k: nat)
    ensures Low(x, k) == x % Pow2(k)
  {
    if k == 0 {
      ModUnique(x, x, 0, 1);
    } else {
      LowIsMod(x / 2, k - 1);
      HalfMod(x, Pow2(k - 1));
    }
  }

  lemma {:induction false} LowOfSmall(x: nat, k: nat)
    requires x < Pow2(k)
    ensures Low(x, k) == x
  {
    if k > 0 {
      LowOfSmall(x / 2, k - 1);
    }
  }

  lemma BitAndOdd(x: nat, h: nat)
    ensures BitAnd(x, 2 * h + 1) == 2 * BitAnd(x / 2, h) + x % 2
  {
  }

  /** Ones in bits `k - 1` down to 0. */
  function LowOnes(k: nat): nat
  {
    if k == 0 then 0 else 2 * LowOnes(k - 1) + 1
  }

  /** Ones in bits `w - 1` down to `k`. */
  function MidOnes(w: nat, k: nat): nat
    requires k <= w
  {
    if k == 0 then LowOnes(w) else 2 * MidOnes(w - 1, k - 1)
  }

  lemma {:induction false} LowOnesValue(k: nat)
    ensures LowOnes(k) == Pow2(k) - 1
  {
    if k > 0 {
      LowOnesValue(k - 1);
    }
  }

  lemma {:induction false} MidOnesValue(w: nat, k: nat)
    requires k <= w
    ensures MidOnes(w, k) == Pow2(w) - Pow2(k)
  {
    if k == 0 {
      LowOnesValue(w);
    } else {
      MidOnesValue(w - 1, k - 1);
    }
  }

  /** `x & (2^k - 1)` keeps the low `k` bits of `x`. */
  lemma {:induction false} BitAndLow(x: nat, k: nat)
    ensures BitAnd(x, LowOnes(k)) == Low(x, k)
  {
    if k > 0 {
      BitAndOdd(x, LowOnes(k - 1));
      BitAndLow(x / 2, k - 1);
    }
  }

  /** `x & (2^w - 2^k)` clears the low `k` bits of a `w`-bit `x`. */
  lemma {:induction false} BitAndHigh(x: nat, w: nat, k: nat)
    requires k <= w && x < Pow2(w)
    ensures BitAnd(x, MidOnes(w, k)) == x - Low(x, k)
  {
    if k == 0 {
      BitAndLow(x, w);
      LowOfSmall(x, w);
    } else {
      BitAndEven(x, MidOnes(w - 1, k - 1));
      BitAndHigh(x / 2, w - 1, k - 1);
    }
  }

  /** `(a << k) | b` is `a * 2^k + b` when `b` fits in the low `k` bits. */
  lemma {:induction false} BitOrDisjoint(a: nat, b: nat, k: nat)
    requires b < Pow2(k)
    ensures BitOr(a * Pow2(k), b) == a * Pow2(k) + b
  {
    if k > 0 && a > 0 && b > 0 {
      var x := a * Pow2(k);
      assert x == 2 * (a * Pow2(k - 1));
      BitOrDisjoint(a, b / 2, k - 1);
    }
  }

  /** 2^bits divides 2^32. */
  lemma Pow2Divides32(bits: nat) returns (c: int)
    requires bits < 32
    ensures c >= 2 && c * Pow2(bits) == TWO32
  {
    c := Pow2(32 - bits);
    Pow2Monotone(1, 32 - bits);
    Pow2Split32(bits);
  }

  lemma Pow2Split32(bits: nat)
    requires bits <= 32
    ensures Pow2(bits) * Pow2(32 - bits) == TWO32
  {
    Pow2Add(bits, 32 - bits);
    Pow2At32();
  }

  lemma ModOfTop(x: int, p: int, c: int)
    requires p >= 1 && c >= 1 && c * p == TWO32
    requires TWO32 - p <= x < TWO32
    ensures x % p == x - (TWO32 - p)
  {
    assert (c - 1) * p == c * p - p;
    ModUnique(x, c - 1, x - (TWO32 - p), p);
  }

  lemma ModShift(x: int, p: int, c: int)
    requires p >= 1
    ensures (x - c * p) % p == x % p
  {
    var q, r := x / p, x % p;
    assert (q - c) * p == q * p - c * p;
    ModUnique(x - c * p, q - c, r, p);
  }

  /** The range check accepts exactly the patterns whose `int32_t` value
      lies in [-2^bits, 2^bits): the check is one value wider on each side
      than `bits`-bit two's complement. */
  lemma FitsBitsRange(x: U32, bits: nat)
    requires bits < 32
    ensures FitsBits(x, bits) <==> -Pow2(bits) <= Signed32(x) < Pow2(bits)
  {
    HighMaskValue(bits);
    Pow2At32();
    MidOnesValue(32, bits);
    BitAndHigh(x, 32, bits);
    LowIsMod(x, bits);
    var p := Pow2(bits);
    var cleared := BitAnd(x, HighMask(bits));
    assert cleared == x - x % p;
    assert cleared == 0 <==> x < p by {
      if x < p {
        ModUnique(x, 0, x, p);
      }
    }
    assert cleared == TWO32 - p <==> x >= TWO32 - p by {
      if x >= TWO32 - p {
        var c := Pow2Divides32(bits);
        ModOfTop(x, p, c);
      }
    }
  }

  /** Masking keeps the value of `x` as an `int32_t` modulo 2^bits. */
  lemma MaskBitsMod(x: U32, bits: nat)
    requires bits < 32
    ensures MaskBits(x, bits) == Signed32(x) % Pow2(bits)
    ensures MaskBits(x, bits) < Pow2(bits)
  {
    HighMaskValue(bits);
    LowOnesValue(bits);
    BitAndLow(x, bits);
    LowIsMod(x, bits);
    var p := Pow2(bits);
    assert MaskBits(x, bits) == x % p;
    if x >= 0x8000_0000 {
      var c := Pow2Divides32(bits);
      ModShift(x, p, c);
      assert Signed32(x) == x - c * p;
    }
  }
}
