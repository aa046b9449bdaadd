/** The shifts of src/utils.cc as arithmetic, and what shifting all 64 bits means for a 32-bit operation. */
module Shifts {
  import opened Words
  import opened Util

  // ----- shifted operands -----

  /** LSL, LSR and ASR of a 64-bit word as arithmetic. */
  function Shifted(v: u64, kind: nat, amount: nat): u64
    requires kind < 3 && amount < 64
  {
    match kind
    case 0 => U64(v * Pow2(amount))
    case 1 =>
      Pow2DivBound(v, amount);
      v / Pow2(amount)
    case _ => U64(SignedBy(v, TWO63) / Pow2(amount))
  }

  lemma ShiftIsArithmetic(v: u64, kind: nat, amount: nat)
    requires kind < 3 && amount < 64
    ensures ShiftWithType(v, kind, amount) == Shifted(v, kind, amount)
  {
    match kind
    case 0 => ShlIs(v, amount);
    case 1 => RightIs(v, amount);
    case _ =>
      if v < TWO63 { RightIs(v, amount); } else { ArithmeticRightIs(v, amount, Pow2(amount)); }
  }

  lemma RightIs(v: u64, amount: nat)
    ensures Shr(v, amount) == v / Pow2(amount)
  {
    ShrIs(v, amount);
  }

  lemma ArithmeticRightIs(v: u64, amount: nat, p: nat)
    requires v >= TWO63 && p == Pow2(amount)
    ensures Not64(Shr(Not64(v), amount)) == U64((v - TWO64) / p)
  {
    var n := TWO64 - 1 - v;
    ShrIs(n, amount);
    Pow2DivBound(n, amount);
    FloorOfNegative(n, p);
    DivModUnique(0 - n / p - 1, TWO64, -1, TWO64 - 1 - n / p);
  }

  lemma FloorOfNegative(n: nat, p: nat)
    requires p > 0
    ensures (0 - n - 1) / p == 0 - n / p - 1
  {
    DivMod(n, p);
    MulDistrib(0 - n / p, 1, p);
    DivModUnique(0 - n - 1, p, 0 - n / p - 1, p - 1 - n % p);
  }

  // ----- a 32-bit operation shifts all 64 bits -----

  /** The low word of a right shift in terms of the two halves. */
  lemma LowOfShift(h: int, l: u32, p: nat, q: nat)
    requires p > 0 && p * q == TWO32
    ensures (h * TWO32 + l) / p == h * q + l / p
    ensures ((h * TWO32 + l) / p) % TWO32 == h % p * q + l / p && l / p < q
  {
    DivMod(l, p);
    MulAssoc(h, q, p);
    MulDistrib(h * q, l / p, p);
    DivModUnique(h * TWO32 + l, p, h * q + l / p, l % p);
    DivBelow(l, p, q);
    DivMod(h, p);
    MulDistrib(h / p * p, h % p, q);
    MulAssoc(h / p, p, q);
    PackBound(h % p, l / p, p, q);
    DivModUnique(h * q + l / p, TWO32, h / p, h % p * q + l / p);
  }

  lemma DivBelow(l: nat, p: nat, q: nat)
    requires p > 0 && l < p * q
    ensures l / p < q
  {
    DivMod(l, p);
    if l / p >= q { MulMono(q, l / p, p); }
  }

  /** What the 32-bit form of a shift makes of the low word. */
  function NarrowShifted(low: u32, kind: nat, amount: nat): int
    requires kind < 3 && amount < 32
  {
    match kind
    case 0 => low * Pow2(amount) % TWO32
    case 1 => low / Pow2(amount)
    case _ => SignedBy(low, TWO31) / Pow2(amount) % TWO32
  }

  /** The bits that come in from the high word are those of the 32-bit shift. */
  predicate ComesInRight(v: u64, kind: nat, p: nat)
    requires p > 0
  {
    kind == 0 || v / TWO32 % p == if kind == 2 && v % TWO32 >= TWO31 then p - 1 else 0
  }

  /** A 32-bit ADD, SUB or ORR of a shifted register shifts the whole register.  For LSL the low word is that of the
      32-bit shift; for LSR and ASR it is exactly when the bits that come in from the high word are zeros or copies
      of bit 31. */
  lemma NarrowShiftIff(v: u64, kind: nat, amount: nat)
    requires kind < 3 && amount < 32
    ensures Shifted(v, kind, amount) % TWO32 == NarrowShifted(v % TWO32, kind, amount)
            <==> ComesInRight(v, kind, Pow2(amount))
  {
    var p, q := Pow2(amount), Pow2(32 - amount);
    assert p * q == TWO32 by {
      Pow2Add(amount, 32 - amount);
      Pow2Words();
    }
    match kind
    case 0 => LeftNarrow(v, p);
    case 1 => RightNarrow(v, p, q);
    case _ => if v < TWO63 { ArithmeticNarrow(v, v, p, q); } else { ArithmeticNarrow(v, v - TWO64, p, q); }
  }

  lemma LeftNarrow(v: u64, p: nat)
    ensures U64(v * p) % TWO32 == v % TWO32 * p % TWO32
  {
    WordOfWord(v * p);
    DivMod(v, TWO32);
    MulDistrib(v / TWO32 * TWO32, v % TWO32, p);
    MulAssoc(p, v / TWO32, TWO32);
    SameLow(v * p, v % TWO32 * p, v / TWO32 * p);
  }

  lemma WordOfWord(v: int)
    ensures U64(v) % TWO32 == v % TWO32
  {
  }

  lemma SameLow(a: int, b: int, k: int)
    requires a == b + k * TWO32
    ensures a % TWO32 == b % TWO32
  {
  }

  lemma RightNarrow(v: u64, p: nat, q: nat)
    requires p > 0 && p * q == TWO32
    ensures v / p % TWO32 == v % TWO32 / p <==> v / TWO32 % p == 0
  {
    LowOfShift(v / TWO32, v % TWO32, p, q);
    DivMod(v, TWO32);
    MultipleApart(v / TWO32 % p, q);
  }

  /** `x` is `v` or `v - 2^64`, whichever is meant. */
  lemma ArithmeticNarrow(v: u64, x: int, p: nat, q: nat)
    requires p > 0 && p * q == TWO32 && (x == v || x == v - TWO64)
    ensures U64(x / p) % TWO32 == SignedBy(v % TWO32, TWO31) / p % TWO32 <==> ComesInRight(v, 2, p)
  {
    var h, l := x / TWO32, v % TWO32;
    WordOfWord(x / p);
    HighResidue(v, x, p, q);
    LowOfShift(h, l, p, q);
    SignedQuotient(l, p, q);
    var k := if l >= TWO31 then p - 1 else 0;
    DivMod(h, p);
    MulDistrib(h % p, k, q);
    MultipleApart(h % p - k, q);
  }

  lemma HighResidue(v: u64, x: int, p: nat, q: nat)
    requires p > 0 && p * q == TWO32 && (x == v || x == v - TWO64)
    ensures x == x / TWO32 * TWO32 + v % TWO32 && x / TWO32 % p == v / TWO32 % p
  {
    if x != v {
      DivModUnique(x, TWO32, v / TWO32 - TWO32, v % TWO32);
      DivMod(v / TWO32, p);
      MulDistrib(v / TWO32 / p, q, p);
      DivModUnique(v / TWO32 - TWO32, p, v / TWO32 / p - q, v / TWO32 % p);
    }
  }

  lemma SignedQuotient(l: u32, p: nat, q: nat)
    requires p > 0 && p * q == TWO32
    ensures l / p < q
    ensures SignedBy(l, TWO31) / p % TWO32 == (if l >= TWO31 then p - 1 else 0) * q + l / p
  {
    LowOfShift(0, l, p, q);
    MulDistrib(p, 1, q);
    PackBound(p - 1, l / p, p, q);
    if l >= TWO31 {
      LowOfShift(-1, l, p, q);
      DivModUnique(-1, p, -1, p - 1);
    } else {
      PackBound(0, l / p, p, q);
      DivModUnique(l / p, TWO32, 0, l / p);
    }
  }
}
