/** The bit helpers of src/include/utils.h and src/utils.cc, and what each one means. */
module Util {
  import opened Words

  datatype Size = Byte | Hex | Word | DWord

  /** Width of an access in bytes. */
  function Bytes(size: Size): (n: nat)
    ensures n in {1, 2, 4, 8}
  {
    match size case Byte => 1 case Hex => 2 case Word => 4 case DWord => 8
  }

  /** Conversion of any integer to `uint64_t`. */
  function U64(i: int): u64 { i % TWO64 }

  /** The two's-complement reading of a field whose sign bit is worth `half`. */
  function SignedBy(v: nat, half: nat): int { if v < half then v else v - 2 * half }

  /** The two's-complement reading of an `n`-bit field. */
  function Signed(v: nat, n: nat): int
    requires n > 0
  {
    SignedBy(v, Pow2(n - 1))
  }

  function Lsl(v: u64, amount: nat): u64
  {
    if amount >= 64 then 0 else Shl(v, amount) % TWO64
  }

  function Lsr(v: u64, amount: nat): u64
  {
    if amount >= 64 then 0 else Shr(v, amount)
  }

  /** The signed shift: a negative value is shifted as the complement of its complement. */
  function Asr(v: u64, amount: nat): u64
  {
    if amount >= 64 then 0 else if v < TWO63 then Shr(v, amount) else Not64(Shr(Not64(v), amount))
  }

  function SignExtend(v: u64, width: nat): u64
    requires width <= 64
  {
    Asr(Lsl(v, 64 - width), 64 - width)
  }

  function Mask(n: nat): (m: u64)
    requires n <= 64
    ensures m == Pow2(n) - 1
  {
    Pow2Words();
    Pow2Mono(n, 64);
    if n == 64 then TWO64 - 1 else Pow2(n) - 1
  }

  /** Bits `bottom` to `top` of `v`, moved down to bit 0. */
  function Shift(v: u64, bottom: nat, top: nat): u64
    requires bottom <= top + 1 <= 64
  {
    Shr(And(v, Mask(top + 1)), bottom)
  }

  function BitAt(v: u64, b: nat): (r: u8)
    requires b < 64
    ensures r == if Bit(v, b) then 1 else 0
  {
    BitShr(v, b, 0);
    LowestBit(Shr(v, b));
    And(Shr(v, b), 1)
  }

  function ZeroExtend(v: u64, width: nat): u64
    requires width <= 64
  {
    if width == 64 then v else And(v, Pow2(width) - 1)
  }

  /** The low 32 bits come from `src`, the high 32 bits stay those of `dst`. */
  function SetLower32(dst: u64, src: u64): (r: u64)
    ensures r == dst / TWO32 * TWO32 + src % TWO32
  {
    Pow2Words();
    AndOnes(src, 32);
    AndHigh32(dst);
    OrDisjoint(dst / TWO32, src % TWO32, 32);
    Or(And(dst, Not64(Mask(32))), And(src, Mask(32)))
  }

  /** `shift_with_type` for LSL, LSR and ASR; the rotate case is never reached by a modelled caller. */
  function ShiftWithType(v: u64, kind: nat, amount: nat): u64
    requires kind < 3 && amount < 64
  {
    match kind
    case 0 => Lsl(v, amount)
    case 1 => Lsr(v, amount)
    case _ => Asr(v, amount)
  }

  /** The second sign extension, private to src/cpu.cc: it takes the index of the top bit. */
  function SignedExtend(v: u64, topbit: nat): u64
    requires topbit < 64
  {
    if BitAt(v, topbit) == 1 then
      OrBound(v, Not64(Mask(topbit)));
      Or(v, Not64(Mask(topbit)))
    else v
  }

  // ----- supporting facts -----

  lemma Pow2DivBound(v: nat, n: nat)
    ensures 0 <= v / Pow2(n) <= v
  {
    DivMod(v, Pow2(n));
    MulMonoLeft(v / Pow2(n), 1, Pow2(n));
  }

  lemma MulMonoLeft(q: int, a: int, b: int)
    requires q >= 0 && a <= b
    ensures q * a <= q * b
  {
    assert q * (b - a) >= 0;
  }

  lemma OrBound(x: u64, y: u64)
    ensures Or(x, y) < TWO64 && Xor(x, y) < TWO64
  {
    Pow2Table();
    OrXorBound(x, y, 64);
  }

  lemma LowestBit(v: nat)
    ensures And(v, 1) == v % 2
  {
    AndOnes(v, 1);
    assert Pow2(1) == 2;
  }

  /** `shift(v, bottom, top)` is the field as a number. */
  lemma ShiftIs(v: u64, bottom: nat, top: nat)
    requires bottom <= top + 1 <= 64
    ensures Shift(v, bottom, top) == v / Pow2(bottom) % Pow2(top + 1 - bottom)
  {
    AndOnes(v, top + 1);
    ShrIs(And(v, Mask(top + 1)), bottom);
    FieldTwoWays(v, bottom, top + 1 - bottom);
  }

  lemma ZeroExtendIs(v: u64, width: nat)
    requires width <= 64
    ensures ZeroExtend(v, width) == v % Pow2(width)
  {
    if width == 64 {
      assert Pow2(64) == TWO64 by { Pow2Words(); }
    } else {
      AndOnes(v, width);
    }
  }

  /** Extracting a field: mask then shift, or shift then reduce. */
  lemma FieldTwoWays(v: nat, n: nat, w: nat)
    ensures v % Pow2(n + w) / Pow2(n) == v / Pow2(n) % Pow2(w)
  {
    Pow2Add(n, w);
    DivMod(v, Pow2(n));
    DivMod(v / Pow2(n), Pow2(w));
    var a := v / Pow2(n);
    FieldCore(v, Pow2(n), Pow2(w), a / Pow2(w), a % Pow2(w), v % Pow2(n));
  }

  lemma FieldCore(v: int, p: int, q: int, b: int, c: int, r: int)
    requires v == (b * q + c) * p + r && 0 <= c < q && 0 <= r < p
    ensures v % (p * q) / p == c
  {
    MulDistrib(b * q, c, p);
    MulAssoc(b, p, q);
    assert b * q * p == b * p * q;
    PackBound(c, r, q, p);
    DivModUnique(v, p * q, b, c * p + r);
    DivModUnique(c * p + r, p, c, r);
  }

  lemma NotMaskBit(n: nat, i: nat)
    requires n <= 64 && i < 64
    ensures Bit(Not64(Mask(n)), i) == (i >= n)
  {
    Pow2Table();
    BitOnes(n, i);
    BitComplement(Mask(n), 64, i);
  }

  lemma AndHigh32(v: u64)
    ensures And(v, Not64(Mask(32))) == v / TWO32 * TWO32
  {
    Pow2Words();
    var l, h := And(v, Not64(Mask(32))), v / TWO32;
    forall i | 0 <= i < 64 ensures Bit(l, i) == Bit(h * TWO32, i) {
      BitAnd(v, Not64(Mask(32)), i);
      NotMaskBit(32, i);
      BitMul(h, 32, i);
      if i >= 32 { BitDiv(v, 32, i - 32); }
    }
    SameBits(l, h * TWO32, 64);
  }

  lemma LslBit(v: u64, n: nat, i: nat)
    requires n < 64 && i < 64
    ensures Bit(Lsl(v, n), i) == (i >= n && Bit(v, i - n))
  {
    Pow2Words();
    BitMod(Shl(v, n), 64, i);
    BitShl(v, n, i);
  }

  lemma BitShift(v: u64, bottom: nat, top: nat, i: nat)
    requires bottom <= top < 64
    ensures Bit(Shift(v, bottom, top), i) == (i + bottom <= top && Bit(v, i + bottom))
  {
    BitShr(And(v, Mask(top + 1)), bottom, i);
    BitAnd(v, Mask(top + 1), i + bottom);
    BitOnes(top + 1, i + bottom);
  }

  // ----- the two sign extensions -----

  lemma MulModPow2(v: nat, t: nat, w: nat)
    ensures v * Pow2(w) % Pow2(t + w) == v % Pow2(t) * Pow2(w)
  {
    var p, q := Pow2(w), Pow2(t);
    Pow2Add(t, w);
    var a, l := v / q, v % q;
    assert v == a * q + l;
    MulDistrib(a * q, l, p);
    MulAssoc(a, q, p);
    PackBound(l, 0, q, p);
    DivModUnique(v * p, q * p, a, l * p);
  }

  /** `SIGN_EXTEND(v, t)` is the two's-complement value of the low `t` bits. */
  lemma SignExtendMeans(v: u64, t: nat)
    requires 0 < t <= 64
    ensures SignExtend(v, t) == U64(Signed(v % Pow2(t), t))
  {
    var l, w := v % Pow2(t), Lsl(v, 64 - t);
    assert w == l * Pow2(64 - t) by { LslKeepsLow(v, t); }
    assert Asr(w, 64 - t) == U64(SignedBy(l, Pow2(t - 1))) by {
      DivMod(v, Pow2(t));
      SplitOfWord(t);
      AsrOfMultiple(l, Pow2(t - 1), 64 - t, Pow2(64 - t));
    }
  }

  lemma LslKeepsLow(v: u64, t: nat)
    requires 0 < t <= 64
    ensures Lsl(v, 64 - t) == v % Pow2(t) * Pow2(64 - t)
  {
    ShlIs(v, 64 - t);
    MulModPow2(v, t, 64 - t);
    Pow2Words();
  }

  lemma SplitOfWord(t: nat)
    requires 0 < t <= 64
    ensures Pow2(t) * Pow2(64 - t) == TWO64 && Pow2(t - 1) * Pow2(64 - t) == TWO63
  {
    Pow2Add(t, 64 - t);
    Pow2Add(t - 1, 64 - t);
    Pow2Words();
  }

  /** Shifting `l * 2^w` down again copies the sign of a field whose sign bit is worth `half`. */
  lemma AsrOfMultiple(l: nat, half: nat, w: nat, p: nat)
    requires w < 64 && p == Pow2(w) && l < 2 * half && half * p == TWO63
    ensures l * p < TWO64 && Asr(l * p, w) == U64(SignedBy(l, half))
  {
    PackBound(l, 0, 2 * half, p);
    assert 2 * half * p == TWO64;
    if l < half {
      PackBound(l, 0, half, p);
      ShrIs(l * p, w);
      DivModUnique(l * p, p, l, 0);
    } else {
      MulMono(half, l, p);
      AsrOfNegative(l, 2 * half, w, p);
    }
    HalfIsSmall(half, p);
  }

  lemma HalfIsSmall(half: nat, p: nat)
    requires half * p == TWO63 && p > 0
    ensures half <= TWO63
  {
    if half > 0 { MulMonoLeft(half, 1, p); }
  }

  lemma AsrOfNegative(l: nat, q: nat, w: nat, p: nat)
    requires w < 64 && p == Pow2(w) && l < q && q * p == TWO64 && TWO63 <= l * p < TWO64
    ensures Asr(l * p, w) == TWO64 - q + l
  {
    var c := q - 1 - l;
    MulDistrib(q - 1, l, p);
    MulDistrib(q, 1, p);
    assert Not64(l * p) == c * p + (p - 1);
    ShrIs(Not64(l * p), w);
    DivModUnique(Not64(l * p), p, c, p - 1);
  }

  /** The two forms agree on every value that fits below the sign bit they look at. */
  lemma SignExtensionsAgree(v: u64, topbit: nat)
    requires topbit < 64 && v < Pow2(topbit + 1)
    ensures SignedExtend(v, topbit) == SignExtend(v, topbit + 1) == U64(Signed(v, topbit + 1))
  {
    SignExtendMeans(v, topbit + 1);
    DivModUnique(v, Pow2(topbit + 1), 0, v);
    SignedExtendMeans(v, topbit);
  }

  lemma SignedExtendMeans(v: u64, topbit: nat)
    requires topbit < 64 && v < Pow2(topbit + 1)
    ensures SignedExtend(v, topbit) == U64(Signed(v, topbit + 1))
  {
    TopBitSet(v, topbit);
    if v >= Pow2(topbit) {
      OrSignBits(v, topbit);
      assert Pow2(topbit + 1) <= TWO64 by { Pow2Words(); Pow2Mono(topbit + 1, 64); }
    }
  }

  lemma TopBitSet(v: nat, t: nat)
    requires v < Pow2(t + 1)
    ensures Bit(v, t) == (v >= Pow2(t))
  {
    BitIsParity(v, t);
    DivByTopBit(v, t);
  }

  lemma OrSignBits(v: u64, t: nat)
    requires t < 64 && Pow2(t) <= v < Pow2(t + 1)
    ensures Or(v, Not64(Mask(t))) == TWO64 + v - Pow2(t + 1)
  {
    Pow2Table();
    var lo, h, m := v - Pow2(t), Pow2(64 - t) - 1, Not64(Mask(t));
    Pow2Add(64 - t, t);
    MulDistrib(Pow2(64 - t), 1, Pow2(t));
    assert m == h * Pow2(t);
    OrDisjoint(h, lo, t);
    DivModUnique(v, Pow2(t), 1, lo);
    OrBound(v, m);
    OrIgnoresTop(v, t, lo, m);
  }

  lemma ModAtMost(v: nat, p: nat)
    requires p > 0
    ensures v % p <= v
  {
    DivMod(v, p);
    MulMono(0, v / p, p);
  }

  /** Or-ing in the bits from `t` up hides those of `v`. */
  lemma OrIgnoresTop(v: u64, t: nat, lo: u64, m: u64)
    requires t < 64 && lo == v % Pow2(t) && m == Not64(Mask(t))
    ensures Or(v, m) == Or(m, lo)
  {
    forall i | 0 <= i < 64 ensures Bit(Or(v, m), i) == Bit(Or(m, lo), i) { TopHidden(v, t, lo, m, i); }
    SameWords(Or(v, m), Or(m, lo)) by {
      OrBound(v, m);
      OrBound(m, lo);
    }
  }

  lemma SameWords(x: nat, y: nat)
    requires x < TWO64 && y < TWO64 && forall i :: 0 <= i < 64 ==> Bit(x, i) == Bit(y, i)
    ensures x == y
  {
    assert Pow2(64) == TWO64 by { Pow2Words(); }
    SameBits(x, y, 64);
  }

  lemma TopHidden(v: u64, t: nat, lo: u64, m: u64, i: nat)
    requires t < 64 && i < 64 && lo == v % Pow2(t) && m == Not64(Mask(t))
    ensures Bit(Or(v, m), i) == Bit(Or(m, lo), i)
  {
    BitOr(v, m, i);
    BitOr(m, lo, i);
    BitMod(v, t, i);
    if i >= t { NotMaskBit(t, i); }
  }

  lemma DivByTopBit(v: nat, t: nat)
    requires v < Pow2(t + 1)
    ensures v / Pow2(t) == if v >= Pow2(t) then 1 else 0
  {
    if v >= Pow2(t) { DivModUnique(v, Pow2(t), 1, v - Pow2(t)); } else { DivModUnique(v, Pow2(t), 0, v); }
  }
}
