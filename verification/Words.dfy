/** Machine words as integers, and the bit-level reading of them.

    A C++ `uintN_t` is an integer below `2^N`; every place where the emulator's
    arithmetic wraps is written out with `%`.  `Bit(x, i)` is bit `i` of `x`,
    and the bitwise operators are defined on naturals of any size.
 */
module Words {

  type u8 = x: int | 0 <= x < 0x100
  type u16 = x: int | 0 <= x < 0x1_0000
  type u32 = x: int | 0 <= x < 0x1_0000_0000
  type u64 = x: int | 0 <= x < 0x1_0000_0000_0000_0000

  const TWO16: int := 0x1_0000
  const TWO31: int := 0x8000_0000
  const TWO32: int := 0x1_0000_0000
  const TWO63: int := 0x8000_0000_0000_0000
  const TWO64: int := 0x1_0000_0000_0000_0000

  function Pow2(n: nat): (p: nat)
    ensures p > 0
  {
    if n == 0 then 1 else 2 * Pow2(n - 1)
  }

  lemma Pow2Table()
    ensures Pow2(1) == 2 && Pow2(2) == 4 && Pow2(3) == 8 && Pow2(4) == 0x10 && Pow2(5) == 0x20 && Pow2(6) == 0x40
    ensures Pow2(7) == 0x80 && Pow2(8) == 0x100 && Pow2(9) == 0x200 && Pow2(10) == 0x400 && Pow2(11) == 0x800
    ensures Pow2(12) == 0x1000 && Pow2(13) == 0x2000 && Pow2(14) == 0x4000 && Pow2(15) == 0x8000
    ensures Pow2(16) == 0x1_0000 && Pow2(18) == 0x4_0000 && Pow2(19) == 0x8_0000 && Pow2(20) == 0x10_0000
    ensures Pow2(21) == 0x20_0000
    ensures Pow2(25) == 0x200_0000 && Pow2(26) == 0x400_0000 && Pow2(27) == 0x800_0000 && Pow2(28) == 0x1000_0000
    ensures Pow2(30) == 0x4000_0000 && Pow2(31) == TWO31 && Pow2(32) == TWO32
    ensures Pow2(39) == 0x80_0000_0000 && Pow2(48) == 0x1_0000_0000_0000 && Pow2(63) == TWO63 && Pow2(64) == TWO64
  {
    assert Pow2(10) == 0x400;
    assert Pow2(20) == 0x10_0000;
    assert Pow2(30) == 0x4000_0000;
    assert Pow2(40) == 0x100_0000_0000;
    assert Pow2(50) == 0x4_0000_0000_0000;
    assert Pow2(60) == 0x1000_0000_0000_0000;
  }

  lemma Pow2Words()
    ensures Pow2(8) == 0x100 && Pow2(31) == TWO31 && Pow2(32) == TWO32 && Pow2(63) == TWO63 && Pow2(64) == TWO64
  {
    Pow2Table();
  }

  lemma {:induction false} Pow2Add(a: nat, b: nat)
    ensures Pow2(a + b) == Pow2(a) * Pow2(b)
  {
    if a == 0 {
    } else {
      Pow2Add(a - 1, b);
      assert Pow2(a) * Pow2(b) == 2 * (Pow2(a - 1) * Pow2(b));
    }
  }

  lemma {:induction false} Pow2Mono(a: nat, b: nat)
    requires a <= b
    ensures Pow2(a) <= Pow2(b)
    decreases b
  {
    if a == b {
    } else {
      Pow2Mono(a, b - 1);
    }
  }

  lemma FitsWord(x: nat, n: nat)
    requires x < Pow2(n) && n <= 64
    ensures x < TWO64 && x % TWO64 == x
  {
    Pow2Mono(n, 64);
    Pow2Words();
  }

  lemma DivMod(x: int, d: int)
    requires d > 0
    ensures x == (x / d) * d + x % d && 0 <= x % d < d
    ensures x >= 0 ==> x / d >= 0
  {
  }

  /** The quotient and remainder of a division are determined by what they satisfy. */
  lemma DivModUnique(x: int, d: int, q: int, r: int)
    requires 0 <= r < d && x == q * d + r
    ensures x / d == q && x % d == r
  {
    DivMod(x, d);
    MultipleApart(x / d - q, d);
    MulDistrib(x / d, q, d);
  }

  lemma MultipleApart(k: int, d: int)
    requires d > 0
    ensures k >= 1 ==> k * d >= d
    ensures k <= -1 ==> k * d <= -d
  {
    if k >= 1 { assert (k - 1) * d >= 0; } else if k <= -1 { assert (-k - 1) * d >= 0; }
  }

  lemma MulMono(a: int, b: int, p: int)
    requires a <= b && p >= 0
    ensures a * p <= b * p
  {
    assert (b - a) * p >= 0;
  }

  /** A quotient digit and a remainder digit packed into one number stay below the product of the bases. */
  lemma PackBound(c: int, r: int, q: int, p: int)
    requires 0 <= c < q && 0 <= r < p
    ensures 0 <= c * p + r < q * p
  {
    MulMono(0, c, p);
    MulMono(c, q - 1, p);
  }

  lemma MulAssoc(a: int, b: int, c: int)
    ensures a * (b * c) == a * b * c
  {
  }

  lemma MulDistrib(a: int, b: int, c: int)
    ensures (a + b) * c == a * c + b * c && (a - b) * c == a * c - b * c
  {
  }

  /** Peeling the lowest bit off a division by a power of two. */
  lemma HalveDivMod(x: nat, n: nat)
    requires n > 0
    ensures x / Pow2(n) == (x / 2) / Pow2(n - 1)
    ensures x % Pow2(n) == 2 * ((x / 2) % Pow2(n - 1)) + x % 2
  {
    var p := Pow2(n - 1);
    var q, r := (x / 2) / p, (x / 2) % p;
    assert x == 2 * (q * p + r) + x % 2;
    assert q * (2 * p) == 2 * (q * p);
    DivModUnique(x, 2 * p, q, 2 * r + x % 2);
  }

  // ----- bits -----

  /** Bit `i` of `x`; a negative number has infinitely many leading ones. */
  predicate Bit(x: int, i: nat)
    decreases i, x
  {
    if i == 0 then x % 2 == 1 else Bit(x / 2, i - 1)
  }

  lemma {:induction false} BitZero(i: nat)
    ensures !Bit(0, i)
  {
    if i == 0 {
    } else {
      BitZero(i - 1);
    }
  }

  /** Bit `i` is the parity of `x / 2^i`. */
  lemma {:induction false} BitIsParity(x: nat, i: nat)
    ensures Bit(x, i) == ((x / Pow2(i)) % 2 == 1)
  {
    if i == 0 {
    } else {
      HalveDivMod(x, i);
      BitIsParity(x / 2, i - 1);
    }
  }

  lemma {:induction false} BitDiv(x: nat, n: nat, i: nat)
    ensures Bit(x / Pow2(n), i) == Bit(x, i + n)
  {
    if n == 0 {
    } else {
      HalveDivMod(x, n);
      BitDiv(x / 2, n - 1, i);
    }
  }

  lemma {:induction false} BitMod(x: nat, n: nat, i: nat)
    ensures Bit(x % Pow2(n), i) == (i < n && Bit(x, i))
  {
    if n == 0 {
      BitZero(i);
    } else {
      HalveDivMod(x, n);
      TwiceAndBit(x % Pow2(n), x / 2 % Pow2(n - 1), x % 2);
      if i > 0 { BitMod(x / 2, n - 1, i - 1); }
    }
  }

  lemma TwiceAndBit(y: int, z: int, b: int)
    requires y == 2 * z + b && 0 <= b < 2
    ensures y / 2 == z && y % 2 == b
  {
  }

  lemma {:induction false} BitMul(x: nat, n: nat, i: nat)
    ensures Bit(x * Pow2(n), i) == (i >= n && Bit(x, i - n))
  {
    if n == 0 {
    } else {
      assert x * Pow2(n) == 2 * (x * Pow2(n - 1));
      if i > 0 { BitMul(x, n - 1, i - 1); }
    }
  }

  /** `2^n - 1` is the word whose lowest `n` bits are set. */
  lemma {:induction false} BitOnes(n: nat, i: nat)
    ensures Bit(Pow2(n) - 1, i) == (i < n)
  {
    if n == 0 { BitZero(i); } else if i > 0 { BitOnes(n - 1, i - 1); }
  }

  lemma BitAbove(x: nat, n: nat, i: nat)
    requires x < Pow2(n) <= Pow2(i)
    ensures !Bit(x, i)
  {
    BitIsParity(x, i);
  }

  /** Two words below `2^n` with the same lowest `n` bits are equal. */
  lemma {:induction false} SameBits(x: nat, y: nat, n: nat)
    requires x < Pow2(n) && y < Pow2(n)
    requires forall i :: 0 <= i < n ==> Bit(x, i) == Bit(y, i)
    ensures x == y
  {
    if n == 0 {
    } else {
      assert Bit(x, 0) == Bit(y, 0);
      forall i | 0 <= i < n - 1 ensures Bit(x / 2, i) == Bit(y / 2, i) {
        assert Bit(x, i + 1) == Bit(y, i + 1);
      }
      SameBits(x / 2, y / 2, n - 1);
    }
  }

  // ----- bitwise operators -----

  function And(x: nat, y: nat): (r: nat)
    ensures r <= x && r <= y
  {
    if x == 0 || y == 0 then 0 else 2 * And(x / 2, y / 2) + (if x % 2 == 1 && y % 2 == 1 then 1 else 0)
  }

  function Or(x: nat, y: nat): (r: nat)
    ensures x <= r && y <= r <= x + y
  {
    if x == 0 then y else if y == 0 then x
    else 2 * Or(x / 2, y / 2) + (if x % 2 == 1 || y % 2 == 1 then 1 else 0)
  }

  function Xor(x: nat, y: nat): (r: nat)
    ensures r <= x + y
  {
    if x == 0 then y else if y == 0 then x
    else 2 * Xor(x / 2, y / 2) + (if x % 2 != y % 2 then 1 else 0)
  }

  /** `~x` on 64 bits. */
  function Not64(x: u64): u64 { TWO64 - 1 - x }

  lemma {:induction false} BitAnd(x: nat, y: nat, i: nat)
    ensures Bit(And(x, y), i) == (Bit(x, i) && Bit(y, i))
  {
    if x == 0 || y == 0 { BitZero(i); } else if i > 0 { BitAnd(x / 2, y / 2, i - 1); }
  }

  lemma {:induction false} BitOr(x: nat, y: nat, i: nat)
    ensures Bit(Or(x, y), i) == (Bit(x, i) || Bit(y, i))
  {
    if x == 0 || y == 0 { BitZero(i); } else if i > 0 { BitOr(x / 2, y / 2, i - 1); }
  }

  lemma {:induction false} BitXor(x: nat, y: nat, i: nat)
    ensures Bit(Xor(x, y), i) == (Bit(x, i) != Bit(y, i))
  {
    if x == 0 || y == 0 { BitZero(i); } else if i > 0 { BitXor(x / 2, y / 2, i - 1); }
  }

  lemma {:induction false} BitComplement(x: nat, n: nat, i: nat)
    requires x < Pow2(n) && i < n
    ensures Bit(Pow2(n) - 1 - x, i) == !Bit(x, i)
  {
    if i == 0 {
    } else {
      assert (Pow2(n) - 1 - x) / 2 == Pow2(n - 1) - 1 - x / 2;
      BitComplement(x / 2, n - 1, i - 1);
    }
  }

  /** Both operands below `2^n` keep the result below `2^n`. */
  lemma {:induction false} OrXorBound(x: nat, y: nat, n: nat)
    requires x < Pow2(n) && y < Pow2(n)
    ensures Or(x, y) < Pow2(n) && Xor(x, y) < Pow2(n)
  {
    if x != 0 && y != 0 { OrXorBound(x / 2, y / 2, n - 1); }
  }

  /** Masking with `2^n - 1` is reduction modulo `2^n`. */
  lemma {:induction false} AndOnes(x: nat, n: nat)
    ensures And(x, Pow2(n) - 1) == x % Pow2(n)
  {
    if n == 0 {
    } else {
      HalveDivMod(x, n);
      TwiceAndBit(Pow2(n) - 1, Pow2(n - 1) - 1, 1);
      AndOnes(x / 2, n - 1);
    }
  }

  /** Or-ing a low part into a word whose low bits are clear is addition. */
  lemma {:induction false} OrDisjoint(h: nat, lo: nat, n: nat)
    requires lo < Pow2(n)
    ensures Or(h * Pow2(n), lo) == Or(lo, h * Pow2(n)) == h * Pow2(n) + lo
  {
    if n == 0 {
    } else {
      MulTwice(h, Pow2(n - 1));
      OrDisjoint(h, lo / 2, n - 1);
      OrEven(h * Pow2(n - 1), lo);
    }
  }

  lemma MulTwice(h: nat, p: nat)
    ensures h * (2 * p) == 2 * (h * p) && h * p >= 0
  {
  }

  lemma OrEven(m: nat, lo: nat)
    ensures Or(2 * m, lo) == 2 * Or(m, lo / 2) + lo % 2
    ensures Or(lo, 2 * m) == 2 * Or(lo / 2, m) + lo % 2
  {
  }

  /** Or-ing something into the bits above `n` leaves the low `n` bits alone. */
  lemma {:induction false} OrAbove(x: nat, h: nat, n: nat)
    ensures Or(x, h * Pow2(n)) % Pow2(n) == x % Pow2(n)
  {
    var r := Or(x, h * Pow2(n));
    DivMod(x, Pow2(n));
    DivMod(r, Pow2(n));
    forall i | 0 <= i < n ensures Bit(r % Pow2(n), i) == Bit(x % Pow2(n), i) {
      BitMod(r, n, i);
      BitMod(x, n, i);
      BitOr(x, h * Pow2(n), i);
      BitMul(h, n, i);
    }
    SameBits(r % Pow2(n), x % Pow2(n), n);
  }

  // ----- shifts, one bit at a time -----

  function Shr(x: nat, n: nat): (r: nat)
    ensures r <= x
    decreases n, x
  {
    if n == 0 then x else Shr(x / 2, n - 1)
  }

  function Shl(x: nat, n: nat): nat
  {
    if n == 0 then x else 2 * Shl(x, n - 1)
  }

  lemma {:induction false} ShrIs(x: nat, n: nat)
    ensures Shr(x, n) == x / Pow2(n)
    decreases n
  {
    if n == 0 {
    } else {
      HalveDivMod(x, n);
      ShrIs(x / 2, n - 1);
    }
  }

  lemma {:induction false} ShlIs(x: nat, n: nat)
    ensures Shl(x, n) == x * Pow2(n)
  {
    if n == 0 {
    } else {
      ShlIs(x, n - 1);
      MulTwice(x, Pow2(n - 1));
    }
  }

  lemma {:induction false} BitShr(x: nat, n: nat, i: nat)
    ensures Bit(Shr(x, n), i) == Bit(x, i + n)
    decreases n
  {
    if n == 0 {
    } else {
      BitShr(x / 2, n - 1, i);
    }
  }

  lemma {:induction false} BitShl(x: nat, n: nat, i: nat)
    ensures Bit(Shl(x, n), i) == (i >= n && Bit(x, i - n))
  {
    if n > 0 && i > 0 { BitShl(x, n - 1, i - 1); }
  }

  // ----- words given bit by bit -----

  /** The number whose bit `i`, for `i < n`, is `f(i)`. */
  function FromBits(n: nat, f: nat -> bool): (x: nat)
    ensures x < Pow2(n)
    decreases n, f(0)
  {
    if n == 0 then 0 else FromBits(n - 1, f) + (if f(n - 1) then Pow2(n - 1) else 0)
  }

  lemma {:induction false} BitFromBits(n: nat, f: nat -> bool, i: nat)
    ensures Bit(FromBits(n, f), i) == (i < n && f(i))
  {
    if n == 0 {
      BitZero(i);
    } else {
      var lo, h := FromBits(n - 1, f), if f(n - 1) then 1 else 0;
      BitFromBits(n - 1, f, i);
      OrDisjoint(h, lo, n - 1);
      BitOr(h * Pow2(n - 1), lo, i);
      BitMul(h, n - 1, i);
      if i >= n - 1 { BitOfBit(h, i - (n - 1)); }
    }
  }

  lemma BitOfBit(h: nat, i: nat)
    requires h < 2
    ensures Bit(h, i) == (i == 0 && h == 1)
  {
    if i > 0 { BitZero(i - 1); }
  }
}
