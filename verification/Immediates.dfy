/** Operand extension, wide moves and branch displacements of src/cpu.cc. */
module Immediates {
  import opened Words
  import opened Util

  // ----- ExtendValue -----

  const SXTH: nat := 5

  /** The length ExtendValue uses for an extend type, before clipping. */
  function ExtendLen(kind: nat): nat
    requires kind < 8
  {
    match kind
    case 0 => 8 case 1 => 16 case 2 => 32 case 3 => 64
    case 4 => 8 case 5 => 8 case 6 => 32 case _ => 64
  }

  function ExtendValue(value: u64, kind: nat, shift: nat): u64
    requires kind < 8 && shift <= 4
  {
    var len := if ExtendLen(kind) <= 64 - shift then ExtendLen(kind) else 64 - shift;
    var v := Lsl(And(value, Mask(len)), shift);
    if kind < 4 then v else SignExtend(v, len + shift)
  }

  /** The length ExtendReg (appendix J1 of the Arm ARM) uses. */
  function RegLen(kind: nat): nat
    requires kind < 8
  {
    match kind % 4 case 0 => 8 case 1 => 16 case 2 => 32 case _ => 64
  }

  /** The number an extend type reads from a register: its low bits, zero- or sign-extended. */
  function Extended(value: u64, kind: nat, len: nat): int
    requires kind < 8 && 0 < len
  {
    if kind < 4 then value % Pow2(len) else Signed(value % Pow2(len), len)
  }

  /** ExtendReg: the extended number times `2^shift`, in 64 bits. */
  function ExtendReg(value: u64, kind: nat, shift: nat): u64
    requires kind < 8
  {
    U64(Extended(value, kind, RegLen(kind)) * Pow2(shift))
  }

  lemma MaskedShift(value: u64, len: nat, shift: nat)
    requires len + shift <= 64 && shift <= 4
    ensures Lsl(And(value, Mask(len)), shift) == value % Pow2(len) * Pow2(shift) < Pow2(len + shift)
  {
    AndOnes(value, len);
    DivMod(value, Pow2(len));
    ShlIs(value % Pow2(len), shift);
    PackBound(value % Pow2(len), 0, Pow2(len), Pow2(shift));
    Pow2Add(len, shift);
    Pow2Mono(len + shift, 64);
    Pow2Words();
  }

  lemma SignedTimes(l: nat, half: nat, p: nat)
    requires half > 0 && p > 0
    ensures SignedBy(l * p, half * p) == SignedBy(l, half) * p
  {
    MulDistrib(l, 2 * half, p);
    MulAssoc(2, half, p);
    if l < half { MulMono(l + 1, half, p); MulDistrib(l, 1, p); } else { MulMono(half, l, p); }
  }

  lemma UnclippedUnsigned(value: u64, len: nat, shift: nat)
    requires len + shift <= 64 && shift <= 4
    ensures Lsl(And(value, Mask(len)), shift) == U64(value % Pow2(len) * Pow2(shift))
  {
    MaskedShift(value, len, shift);
    assert Pow2(len + shift) <= TWO64 by {
      Pow2Mono(len + shift, 64);
      Pow2Words();
    }
    DivModUnique(value % Pow2(len) * Pow2(shift), TWO64, 0, value % Pow2(len) * Pow2(shift));
  }

  lemma UnclippedSigned(value: u64, len: nat, shift: nat)
    requires 0 < len && len + shift <= 64 && shift <= 4
    ensures SignExtend(Lsl(And(value, Mask(len)), shift), len + shift)
            == U64(Signed(value % Pow2(len), len) * Pow2(shift))
  {
    var v := Lsl(And(value, Mask(len)), shift);
    MaskedShift(value, len, shift);
    SignExtendMeans(v, len + shift);
    DivModUnique(v, Pow2(len + shift), 0, v);
    Pow2Add(len - 1, shift);
    DivMod(value, Pow2(len));
    SignedTimes(value % Pow2(len), Pow2(len - 1), Pow2(shift));
  }

  /** Without clipping, ExtendValue reads `len` bits and multiplies. */
  lemma ExtendUnclipped(value: u64, kind: nat, shift: nat)
    requires kind < 8 && shift <= 4 && ExtendLen(kind) + shift <= 64
    ensures ExtendValue(value, kind, shift) == U64(Extended(value, kind, ExtendLen(kind)) * Pow2(shift))
  {
    UnclippedUnsigned(value, ExtendLen(kind), shift);
    UnclippedSigned(value, ExtendLen(kind), shift);
  }

  lemma WrapMul(v: u64, k: int, p: int)
    ensures U64((v - k * TWO64) * p) == U64(v * p)
  {
    MulDistrib(v, k * TWO64, p);
    MulAssoc(k, TWO64, p);
    assert k * TWO64 * p == k * p * TWO64;
    WrapAdd(v * p, -(k * p));
  }

  lemma WrapAdd(x: int, k: int)
    ensures U64(x + k * TWO64) == U64(x)
  {
    DivModUnique(x + k * TWO64, TWO64, x / TWO64 + k, x % TWO64);
  }

  lemma ClippedField(value: u64, shift: nat)
    requires shift <= 4
    ensures Lsl(And(value, Mask(64 - shift)), shift) == U64(value * Pow2(shift))
  {
    MaskedShift(value, 64 - shift, shift);
    MulModPow2(value, 64 - shift, shift);
    Pow2Words();
  }

  /** With a 64-bit source the length is clipped to `64 - shift`; no bit that survives the shift is lost. */
  lemma ExtendClipped(value: u64, kind: nat, shift: nat)
    requires kind in {3, 7} && 0 < shift <= 4
    ensures ExtendValue(value, kind, shift) == U64(value * Pow2(shift))
  {
    ClippedField(value, shift);
    var w := U64(value * Pow2(shift));
    SignExtendMeans(w, 64);
    WrapSigned(w);
  }

  lemma ExtendRegOf64(value: u64, kind: nat, shift: nat)
    requires kind in {3, 7}
    ensures ExtendReg(value, kind, shift) == U64(value * Pow2(shift))
  {
    assert Extended(value, kind, 64) == if kind < 4 then value else SignedBy(value, TWO63) by { Pow2Words(); }
    WrapSignedMul(value, Pow2(shift));
  }

  lemma WrapSignedMul(value: u64, p: int)
    ensures U64(SignedBy(value, TWO63) * p) == U64(value * p)
  {
    WrapMul(value, 1, p);
  }

  lemma WrapSigned(v: u64)
    ensures v % Pow2(64) == v && U64(Signed(v, 64)) == v
  {
    Pow2Words();
  }

  lemma SameLength(kind: nat)
    requires kind < 8 && kind != SXTH
    ensures ExtendLen(kind) == RegLen(kind)
  {
  }

  /** ExtendValue is ExtendReg for every value, every shift and every type except SXTH. */
  lemma ExtendValueIsExtendReg(value: u64, kind: nat, shift: nat)
    requires kind < 8 && shift <= 4 && kind != SXTH
    ensures ExtendValue(value, kind, shift) == ExtendReg(value, kind, shift)
  {
    SameLength(kind);
    if kind in {3, 7} && shift > 0 {
      ExtendClipped(value, kind, shift);
      ExtendRegOf64(value, kind, shift);
    } else {
      ExtendUnclipped(value, kind, shift);
    }
  }

  /** SXTH is extended from bit 7: the result is right exactly for values that already fit in a signed byte. */
  lemma SxthRightIffByte(value: u64, shift: nat)
    requires shift <= 4
    ensures ExtendValue(value, SXTH, shift) == ExtendReg(value, SXTH, shift)
            <==> -0x80 <= Signed(value % Pow2(16), 16) < 0x80
  {
    ExtendUnclipped(value, SXTH, shift);
    HalfwordFacts();
    ByteOrHalfword(value);
    Pow2Mono(shift, 4);
    SmallProductsApart(SignedBy(value % 0x100, 0x80), SignedBy(value % 0x1_0000, 0x8000), Pow2(shift));
  }

  lemma ByteOrHalfword(value: u64)
    ensures SignedBy(value % 0x100, 0x80) == SignedBy(value % 0x1_0000, 0x8000)
            <==> -0x80 <= SignedBy(value % 0x1_0000, 0x8000) < 0x80
  {
    assert value % 0x100 == value % 0x1_0000 % 0x100;
  }

  lemma HalfwordFacts()
    ensures Pow2(7) == 0x80 && Pow2(8) == 0x100 && Pow2(15) == 0x8000 && Pow2(16) == 0x1_0000 && Pow2(4) == 16
  {
    Pow2Table();
  }

  lemma SmallProductsApart(b: int, h: int, p: int)
    requires -0x8000 <= b < 0x8000 && -0x8000 <= h < 0x8000 && 1 <= p <= 16
    ensures U64(b * p) == U64(h * p) <==> b == h
  {
    MultipleApart(b - h, p);
    MulDistrib(b, h, p);
    MulMonoLeft(b + 0x8000, p, 16);
    MulMonoLeft(h + 0x8000, p, 16);
    MulDistrib(b, -0x8000, p);
    MulDistrib(h, -0x8000, p);
    MulMono(-0x8000, b, p);
    MulMono(-0x8000, h, p);
    NearEqual(b * p, h * p);
  }

  lemma NearEqual(x: int, y: int)
    requires -TWO32 < x < TWO32 && -TWO32 < y < TWO32
    ensures U64(x) == U64(y) <==> x == y
  {
  }

  // ----- wide moves -----

  function MovZ(hw: nat, imm: u16): u64
    requires hw < 4
  {
    Lsl(imm, 16 * hw)
  }

  /** MOVK: `(x & ~mask(shift + 16)) | imm << shift | (x & mask(shift))`. */
  function MovK(x: u64, hw: nat, imm: u16): u64
    requires hw < 4
  {
    var high, low := And(x, Not64(Mask(16 * hw + 16))), And(x, Mask(16 * hw));
    OrBound(high, Lsl(imm, 16 * hw));
    OrBound(Or(high, Lsl(imm, 16 * hw)), low);
    Or(Or(high, Lsl(imm, 16 * hw)), low)
  }

  function Halfword(x: u64, k: nat): u64
    requires k < 4
  {
    Shift(x, 16 * k, 16 * k + 15)
  }

  lemma HalfwordBound(x: u64, k: nat)
    requires k < 4
    ensures Halfword(x, k) < TWO16
  {
    ShiftIs(x, 16 * k, 16 * k + 15);
    HalfwordFacts();
    DivMod(x / Pow2(16 * k), Pow2(16));
  }

  lemma HalfwordBit(x: u64, k: nat, i: nat)
    requires k < 4 && i < 16
    ensures Bit(Halfword(x, k), i) == Bit(x, 16 * k + i)
  {
    BitShift(x, 16 * k, 16 * k + 15, i);
  }

  lemma SameSixteenBits(x: u16, y: u16)
    requires forall i :: 0 <= i < 16 ==> Bit(x, i) == Bit(y, i)
    ensures x == y
  {
    HalfwordFacts();
    SameBits(x, y, 16);
  }

  /** A word is its four halfwords. */
  lemma SameHalfwords(x: u64, y: u64)
    requires forall k :: 0 <= k < 4 ==> Halfword(x, k) == Halfword(y, k)
    ensures x == y
  {
    forall i | 0 <= i < 64 ensures Bit(x, i) == Bit(y, i) { SameBitInHalf(x, y, i / 16, i % 16); }
    Pow2Words();
    SameBits(x, y, 64);
  }

  lemma SameBitInHalf(x: u64, y: u64, k: nat, i: nat)
    requires k < 4 && i < 16 && Halfword(x, k) == Halfword(y, k)
    ensures Bit(x, 16 * k + i) == Bit(y, 16 * k + i)
  {
    HalfwordBit(x, k, i);
    HalfwordBit(y, k, i);
  }

  lemma MovKBit(x: u64, hw: nat, imm: u16, i: nat)
    requires hw < 4 && i < 64
    ensures Bit(MovK(x, hw, imm), i) == if 16 * hw <= i < 16 * hw + 16 then Bit(imm, i - 16 * hw) else Bit(x, i)
  {
    var s := 16 * hw;
    MovKParts(x, s, imm, i);
    LslBit(imm, s, i);
    if i >= s + 16 { ImmAbove(imm, i - s); }
  }

  lemma MovKParts(x: u64, s: nat, imm: u16, i: nat)
    requires s <= 48 && i < 64
    ensures
      Bit(Or(Or(And(x, Not64(Mask(s + 16))), Lsl(imm, s)), And(x, Mask(s))), i)
      == ((Bit(x, i) && !(s <= i < s + 16)) || Bit(Lsl(imm, s), i))
  {
    var high, low := And(x, Not64(Mask(s + 16))), And(x, Mask(s));
    BitOr(Or(high, Lsl(imm, s)), low, i);
    BitOr(high, Lsl(imm, s), i);
    BitAnd(x, Not64(Mask(s + 16)), i);
    NotMaskBit(s + 16, i);
    BitAnd(x, Mask(s), i);
    BitOnes(s, i);
  }

  lemma ImmAbove(imm: u16, i: nat)
    requires i >= 16
    ensures !Bit(imm, i)
  {
    HalfwordFacts();
    Pow2Mono(16, i);
    BitAbove(imm, 16, i);
  }

  lemma MovKHalfwordBit(x: u64, hw: nat, imm: u16, k: nat, i: nat)
    requires hw < 4 && k < 4 && i < 16
    ensures Bit(Halfword(MovK(x, hw, imm), k), i) == if k == hw then Bit(imm, i) else Bit(Halfword(x, k), i)
  {
    HalfwordBit(MovK(x, hw, imm), k, i);
    MovKBit(x, hw, imm, 16 * k + i);
    HalfwordBit(x, k, i);
  }

  /** MOVK changes its own halfword and no other. */
  lemma MovKHalfword(x: u64, hw: nat, imm: u16, k: nat)
    requires hw < 4 && k < 4
    ensures Halfword(MovK(x, hw, imm), k) == if k == hw then imm else Halfword(x, k)
  {
    HalfwordBound(MovK(x, hw, imm), k);
    HalfwordBound(x, k);
    var got, want: u16 := Halfword(MovK(x, hw, imm), k), if k == hw then imm else Halfword(x, k);
    forall i | 0 <= i < 16 ensures Bit(got, i) == Bit(want, i) { MovKHalfwordBit(x, hw, imm, k, i); }
    SameSixteenBits(got, want);
  }

  lemma MovZHalfwordBit(hw: nat, imm: u16, k: nat, i: nat)
    requires hw < 4 && k < 4 && i < 16
    ensures Bit(Halfword(MovZ(hw, imm), k), i) == (k == hw && Bit(imm, i))
  {
    HalfwordBit(MovZ(hw, imm), k, i);
    LslBit(imm, 16 * hw, 16 * k + i);
    if k > hw { ImmAbove(imm, 16 * k + i - 16 * hw); }
  }

  lemma MovZHalfword(hw: nat, imm: u16, k: nat)
    requires hw < 4 && k < 4
    ensures Halfword(MovZ(hw, imm), k) == if k == hw then imm else 0
  {
    HalfwordBound(MovZ(hw, imm), k);
    var got, want: u16 := Halfword(MovZ(hw, imm), k), if k == hw then imm else 0;
    forall i | 0 <= i < 16 ensures Bit(got, i) == Bit(want, i) {
      MovZHalfwordBit(hw, imm, k, i);
      BitZero(i);
    }
    SameSixteenBits(got, want);
  }

  /** MOVZ or MOVK of the halfword that `c` has at `hw`. */
  function Part(c: u64, hw: nat): u16
    requires hw < 4
  {
    HalfwordBound(c, hw);
    Halfword(c, hw)
  }

  /** MOVZ then three MOVKs, each with the halfword that `c` has at the instruction's position. */
  function Built(c: u64, h0: nat, h1: nat, h2: nat, h3: nat): u64
    requires h0 < 4 && h1 < 4 && h2 < 4 && h3 < 4
  {
    MovK(MovK(MovK(MovZ(h0, Part(c, h0)), h1, Part(c, h1)), h2, Part(c, h2)), h3, Part(c, h3))
  }

  lemma BuiltHalfword(c: u64, h0: nat, h1: nat, h2: nat, h3: nat, k: nat)
    requires h0 < 4 && h1 < 4 && h2 < 4 && h3 < 4 && (k == h0 || k == h1 || k == h2 || k == h3)
    ensures Halfword(Built(c, h0, h1, h2, h3), k) == Halfword(c, k)
  {
    var x0 := MovZ(h0, Part(c, h0));
    var x1 := MovK(x0, h1, Part(c, h1));
    var x2 := MovK(x1, h2, Part(c, h2));
    MovKHalfword(x2, h3, Part(c, h3), k);
    MovKHalfword(x1, h2, Part(c, h2), k);
    MovKHalfword(x0, h1, Part(c, h1), k);
    MovZHalfword(h0, Part(c, h0), k);
  }

  /** Used on the four positions in any order, this leaves exactly the constant. */
  lemma ConstantBuilding(c: u64, h0: nat, h1: nat, h2: nat, h3: nat)
    requires h0 < 4 && h1 < 4 && h2 < 4 && h3 < 4
    requires h0 != h1 && h0 != h2 && h0 != h3 && h1 != h2 && h1 != h3 && h2 != h3
    ensures Built(c, h0, h1, h2, h3) == c
  {
    forall k | 0 <= k < 4 ensures Halfword(Built(c, h0, h1, h2, h3), k) == Halfword(c, k) {
      BuiltHalfword(c, h0, h1, h2, h3, k);
    }
    SameHalfwords(Built(c, h0, h1, h2, h3), c);
  }

  // ----- branch displacements -----

  /** The displacement of B, BL, B.cond, TBZ and TBNZ for an immediate of `w` bits. */
  function BranchOffset(imm: nat, w: nat): u64
    requires w <= 26 && imm < Pow2(w)
  {
    ImmFits(imm, w);
    SignedExtend(4 * imm, w + 1)
  }

  /** The displacement of CBZ and CBNZ, which go through the other sign extension. */
  function CompareBranchOffset(imm: nat, w: nat): u64
    requires w <= 26 && imm < Pow2(w)
  {
    ImmFits(imm, w);
    SignExtend(4 * imm, w + 2)
  }

  lemma ImmFits(imm: nat, w: nat)
    requires w <= 26 && imm < Pow2(w)
    ensures 4 * imm < Pow2(w + 2) < TWO32
  {
    assert Pow2(w + 2) == 4 * Pow2(w);
    Pow2Mono(w, 26);
    assert Pow2(26) == 0x400_0000 by { Pow2Table(); }
  }

  /** Both forms are four times the signed immediate. */
  lemma BranchOffsetIs(imm: nat, w: nat)
    requires 0 < w <= 26 && imm < Pow2(w)
    ensures BranchOffset(imm, w) == CompareBranchOffset(imm, w) == U64(4 * Signed(imm, w))
  {
    ImmFits(imm, w);
    assert Signed(4 * imm, w + 2) == 4 * Signed(imm, w) by { assert Pow2(w + 1) == 4 * Pow2(w - 1); }
    SignExtensionsAgree(4 * imm, w + 1);
  }

  /** The target of a taken branch, reached from a 4-aligned pc, is 4-aligned. */
  lemma BranchKeepsAlignment(pc: u64, imm: nat, w: nat, offset: u64, d: int)
    requires 0 < w <= 26 && imm < Pow2(w) && pc % 4 == 0 && offset == BranchOffset(imm, w) && d == Signed(imm, w)
    ensures U64(pc + offset) == U64(pc + 4 * d) && U64(pc + offset) % 4 == 0
  {
    BranchIs(imm, w, offset, d);
    AlignedBranch(pc, offset, d);
  }

  lemma BranchIs(imm: nat, w: nat, offset: u64, d: int)
    requires 0 < w <= 26 && imm < Pow2(w) && offset == BranchOffset(imm, w) && d == Signed(imm, w)
    ensures offset == U64(4 * d)
  {
    BranchOffsetIs(imm, w);
  }

  lemma AlignedBranch(pc: u64, offset: u64, d: int)
    requires offset == U64(4 * d) && pc % 4 == 0
    ensures U64(pc + offset) == U64(pc + 4 * d) && U64(pc + offset) % 4 == 0
  {
    AlignedTarget(pc, d);
  }

  lemma AlignedTarget(pc: u64, d: int)
    ensures U64(pc + U64(4 * d)) == U64(pc + 4 * d)
    ensures U64(pc + 4 * d) % 4 == pc % 4
  {
    WrapAdd(pc + 4 * d, 0 - 4 * d / TWO64);
    LowTwoBits(pc, d);
  }

  lemma LowTwoBits(pc: u64, d: int)
    ensures U64(pc + 4 * d) % 4 == pc % 4
  {
    var q := (pc + 4 * d) / TWO64;
    DivModUnique(U64(pc + 4 * d), 4, pc / 4 + d - q * 0x4000_0000_0000_0000, pc % 4);
  }

  /** The immediate that encodes the displacement `4 * d`. */
  function Encode(d: int, w: nat): nat
    requires w > 0 && 0 - Pow2(w - 1) <= d < Pow2(w - 1)
  {
    if d < 0 then d + Pow2(w) else d
  }

  /** Every displacement in range has exactly one encoding. */
  lemma ExactlyOneEncoding(d: int, imm: nat, w: nat)
    requires 0 < w <= 26 && 0 - Pow2(w - 1) <= d < Pow2(w - 1) && imm < Pow2(w)
    ensures Encode(d, w) < Pow2(w)
    ensures BranchOffset(imm, w) == U64(4 * d) <==> imm == Encode(d, w)
  {
    BranchOffsetIs(imm, w);
    Pow2Mono(w, 26);
    assert Pow2(26) == 0x400_0000 by { Pow2Table(); }
    OneEncoding(d, imm, Pow2(w - 1));
  }

  lemma OneEncoding(d: int, imm: nat, half: nat)
    requires 0 - half <= d < half <= 0x200_0000 && imm < 2 * half
    ensures U64(4 * SignedBy(imm, half)) == U64(4 * d) <==> imm == if d < 0 then d + 2 * half else d
  {
    NearEqual(4 * SignedBy(imm, half), 4 * d);
  }
}
