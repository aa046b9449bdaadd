/** Logical immediates and bitfield moves: bitfield_replicate, decode_bit_masks, decode_logical_imm and
    UBFM of src/cpu.cc, against DecodeBitMasks (appendix J1 of the Arm ARM). */
module BitMasks {
  import opened Words
  import opened Util

  /** `~0ULL >> (64 - len)`. */
  function Bitmask64(len: nat): u64
    requires 0 < len <= 64
  {
    Mask(len)
  }

  // ----- the reference -----

  /** Bit `i` of the mask for element size `e`, length field `s` and rotation `r`: within its element, the
      bit comes from position `(i + r) mod e` of a run of `s + 1` ones. */
  predicate MaskBit(e: nat, s: nat, r: nat, i: nat)
    requires e > 0
  {
    (i % e + r) % e <= s
  }

  function MaskBits(e: nat, s: nat, r: nat): nat -> bool
    requires e > 0
  {
    (i: nat) => MaskBit(e, s, r, i)
  }

  /** wmask of DecodeBitMasks. */
  function WMask(e: nat, s: nat, r: nat): (m: u64)
    requires e > 0
  {
    Pow2Words();
    FromBits(64, MaskBits(e, s, r))
  }

  lemma WMaskBit(e: nat, s: nat, r: nat, i: nat)
    requires e > 0
    ensures Bit(WMask(e, s, r), i) == (i < 64 && MaskBit(e, s, r, i))
  {
    BitFromBits(64, MaskBits(e, s, r), i);
  }

  /** HighestSetBit(N:NOT(imms)), a seven-bit number; -1 if no bit is set. */
  function HighestSetBit(v: nat): int
    requires v < 0x80
  {
    if v >= 64 then 6 else if v >= 32 then 5 else if v >= 16 then 4 else if v >= 8 then 3
    else if v >= 4 then 2 else if v >= 2 then 1 else if v >= 1 then 0 else -1
  }

  function Len(n: nat, imms: nat): int
    requires n < 2 && imms < 64
  {
    HighestSetBit(n * 64 + (63 - imms))
  }

  /** The element size `1 << len`. */
  function ESize(n: nat, imms: nat): (e: nat)
    requires n < 2 && imms < 64 && Len(n, imms) >= 1
    ensures e in {2, 4, 8, 16, 32, 64}
  {
    match Len(n, imms) case 1 => 2 case 2 => 4 case 3 => 8 case 4 => 16 case 5 => 32 case _ => 64
  }

  // ----- the emulator's loop -----

  /** `mask` repeats with period `e` in its lowest `w` bits. */
  ghost predicate Repeats(mask: nat, elem: nat, e: nat, w: nat)
    requires e > 0
  {
    mask < Pow2(w) && forall i :: 0 <= i < w ==> Bit(mask, i) == Bit(elem, i % e)
  }

  lemma DoubleRepeats(mask: nat, elem: nat, e: nat, w: nat)
    requires e > 0 && w % e == 0 && Repeats(mask, elem, e, w)
    ensures Repeats(Or(mask, Shl(mask, w)), elem, e, 2 * w)
  {
    var d := Or(mask, Shl(mask, w));
    ShlIs(mask, w);
    Pow2Add(w, w);
    OrDisjoint(mask, mask, w);
    PackBound(mask, mask, Pow2(w), Pow2(w));
    forall i | 0 <= i < 2 * w ensures Bit(d, i) == Bit(elem, i % e) {
      BitOr(mask, Shl(mask, w), i);
      BitShl(mask, w, i);
      if i >= w {
        BitAbove(mask, w, i) by { Pow2Mono(w, i); }
        SamePhase(i, w, e);
      }
    }
  }

  lemma SamePhase(i: nat, w: nat, e: nat)
    requires e > 0 && w % e == 0 && i >= w
    ensures (i - w) % e == i % e
  {
    DivMod(w, e);
    DivMod(i, e);
    MulDistrib(i / e, w / e, e);
    DivModUnique(i - w, e, i / e - w / e, i % e);
  }

  lemma LslIsShl(m: u64, w: nat)
    requires w < 64 && Or(m, Shl(m, w)) < TWO64
    ensures Lsl(m, w) == Shl(m, w)
  {
  }

  /** One turn of the loop doubles the width over which the mask repeats. */
  lemma TurnRepeats(m: u64, elem: nat, e: nat, w: nat)
    requires e > 0 && w % e == 0 && 2 * w <= 64 && w < 64 && Repeats(m, elem, e, w)
    ensures Or(m, Lsl(m, w)) < TWO64 && Repeats(Or(m, Lsl(m, w)), elem, e, 2 * w)
  {
    DoubleRepeats(m, elem, e, w);
    FitsWord(Or(m, Shl(m, w)), 2 * w);
    LslIsShl(m, w);
  }

  lemma RepeatsOnce(mask: nat, e: nat)
    requires e > 0 && mask < Pow2(e)
    ensures e % e == 0 && Repeats(mask, mask, e, e)
  {
    DivModUnique(e, e, 1, 0);
    forall i | 0 <= i < e ensures Bit(mask, i) == Bit(mask, i % e) { DivModUnique(i, e, 0, i); }
  }

  lemma DoubleDivides(w: nat, e: nat)
    requires e > 0 && w % e == 0
    ensures 2 * w % e == 0
  {
    DivMod(w, e);
    MulAssoc(2, w / e, e);
    DivModUnique(2 * w, e, 2 * (w / e), 0);
  }

  /** The doubling loop: `mask |= mask << e; e *= 2` until 64 bits are filled. */
  method BitfieldReplicate(mask: u64, e: nat) returns (m: u64)
    requires e in {2, 4, 8, 16, 32, 64} && mask < Pow2(e)
    ensures forall i :: 0 <= i < 64 ==> Bit(m, i) == Bit(mask, i % e)
  {
    m := mask;
    var w := e;
    RepeatsOnce(mask, e);
    while w < 64
      invariant w in {2, 4, 8, 16, 32, 64} && e <= w && w % e == 0
      invariant Repeats(m, mask, e, w)
    {
      TurnRepeats(m, mask, e, w);
      DoubleDivides(w, e);
      m := Or(m, Lsl(m, w));
      w := w * 2;
    }
  }

  /** `mask = (mask >> r) | (mask << (e - r)); mask &= bitmask64(e)`, where `mask` is a run of `s + 1` ones. */
  function Rotated(s: nat, e: nat, r: nat): u64
    requires s < e <= 64 && r < e
  {
    var ones := Bitmask64(s + 1);
    OrBound(Lsr(ones, r), Lsl(ones, e - r));
    if r == 0 then ones else And(Or(Lsr(ones, r), Lsl(ones, e - r)), Bitmask64(e))
  }

  lemma RotatedBit(s: nat, e: nat, r: nat, i: nat)
    requires s < e <= 64 && r < e && i < e
    ensures Bit(Rotated(s, e, r), i) == MaskBit(e, s, r, i)
  {
    RotateIndex(i, r, e);
    if r == 0 {
      BitOnes(s + 1, i);
    } else {
      RotateBit(Bitmask64(s + 1), Bitmask64(e), e, r, i);
      RotatedOnes(s, e, r, i);
    }
  }

  lemma RotateBit(ones: u64, all: u64, e: nat, r: nat, i: nat)
    requires 0 < r < e <= 64 && i < e && all == Pow2(e) - 1
    ensures Bit(And(Or(Lsr(ones, r), Lsl(ones, e - r)), all), i)
            == (Bit(ones, i + r) || (i >= e - r && Bit(ones, i - (e - r))))
  {
    BitAnd(Or(Lsr(ones, r), Lsl(ones, e - r)), all, i);
    BitOnes(e, i);
    BitOr(Lsr(ones, r), Lsl(ones, e - r), i);
    BitShr(ones, r, i);
    LslBit(ones, e - r, i);
  }

  lemma RotatedOnes(s: nat, e: nat, r: nat, i: nat)
    requires 0 < r < e <= 64 && s < e && i < e
    ensures (Bit(Bitmask64(s + 1), i + r) || (i >= e - r && Bit(Bitmask64(s + 1), i - (e - r)))) == MaskBit(e, s, r, i)
  {
    RotateIndex(i, r, e);
    BitOnes(s + 1, i + r);
    if i >= e - r { BitOnes(s + 1, i - (e - r)); }
  }

  lemma RotateIndex(i: nat, r: nat, e: nat)
    requires r < e && i < e
    ensures (i % e + r) % e == if i + r < e then i + r else i + r - e
  {
    DivModUnique(i, e, 0, i);
    if i + r < e { DivModUnique(i + r, e, 0, i + r); } else { DivModUnique(i + r, e, 1, i + r - e); }
  }

  lemma RotatedBound(s: nat, e: nat, r: nat)
    requires s < e <= 64 && r < e
    ensures Rotated(s, e, r) < Pow2(e)
  {
    Pow2Mono(s + 1, e);
  }

  lemma MaskPeriod(e: nat, s: nat, r: nat, i: nat)
    requires e > 0
    ensures MaskBit(e, s, r, i % e) == MaskBit(e, s, r, i)
  {
    DivMod(i, e);
    DivModUnique(i % e, e, 0, i % e);
  }

  lemma ReplicatedBit(s: nat, e: nat, r: nat, i: nat)
    requires s < e <= 64 && r < e && i < 64
    ensures Bit(Rotated(s, e, r), i % e) == Bit(WMask(e, s, r), i)
  {
    DivMod(i, e);
    WMaskBit(e, s, r, i);
    MaskPeriod(e, s, r, i);
    RotatedBit(s, e, r, i % e);
  }

  /** Replicating the rotated element over 64 bits gives wmask. */
  lemma ReplicatedIsWMask(mask: u64, s: nat, e: nat, r: nat)
    requires s < e <= 64 && r < e
    requires forall i :: 0 <= i < 64 ==> Bit(mask, i) == Bit(Rotated(s, e, r), i % e)
    ensures mask == WMask(e, s, r)
  {
    forall i | 0 <= i < 64 ensures Bit(mask, i) == Bit(WMask(e, s, r), i) { ReplicatedBit(s, e, r, i); }
    Pow2Words();
    SameBits(mask, WMask(e, s, r), 64);
  }

  /** decode_bit_masks for every encoding that is not reserved: the result is wmask. */
  method DecodeBitMasks(n: nat, imms: nat, immr: nat) returns (mask: u64)
    requires n < 2 && imms < 64 && immr < 64 && Len(n, imms) >= 1
    ensures mask == WMask(ESize(n, imms), imms % ESize(n, imms), immr % ESize(n, imms))
  {
    var e := ESize(n, imms);
    var s, r := imms % e, immr % e;
    RotatedBound(s, e, r);
    mask := BitfieldReplicate(Rotated(s, e, r), e);
    ReplicatedIsWMask(mask, s, e, r);
  }

  // ----- bitfield moves -----

  /** The value decode_bitfield computes for UBFM; it passes through a `uint32_t`. */
  function Ubfm(is64: bool, immr: nat, imms: nat, x: u64): u64
    requires immr < 64 && imms < 64 && (!is64 ==> immr < 32 && imms < 32)
  {
    if imms >= immr then Lsl(Shift(x, immr, imms), 0) % TWO32
    else Lsl(Shift(x, 0, imms), (if is64 then 64 else 32) - immr) % TWO32
  }

  /** tmask of DecodeBitMasks for 32-bit elements: a run of `(imms - immr) mod 32 + 1` ones. */
  predicate TMaskBit32(immr: nat, imms: nat, i: nat) { i <= (imms - immr) % 32 }

  /** Bit `i` of ROR(x, immr) AND wmask AND tmask on 32 bits. */
  predicate RotateAndMaskBit(immr: nat, imms: nat, x: u64, i: nat)
  {
    Bit(x, (i + immr) % 32) && MaskBit(32, imms, immr, i) && TMaskBit32(immr, imms, i)
  }

  function RotateAndMaskBits(immr: nat, imms: nat, x: u64): nat -> bool
  {
    (i: nat) => RotateAndMaskBit(immr, imms, x, i)
  }

  /** UBFM as the Arm ARM defines it, on 32 bits. */
  function ArmUbfm32(immr: nat, imms: nat, x: u64): nat
  {
    FromBits(32, RotateAndMaskBits(immr, imms, x))
  }

  /** The bit of `x` that both definitions put at position `i`. */
  predicate MovedBit(immr: nat, imms: nat, x: u64, i: nat)
    requires immr < 32
  {
    if imms >= immr then i + immr <= imms && Bit(x, i + immr)
    else i >= 32 - immr && i - (32 - immr) <= imms && Bit(x, i - (32 - immr))
  }

  lemma ExtractedBit(immr: nat, imms: nat, x: u64, i: nat)
    requires immr < 32 && imms < 32 && i < 32
    ensures Bit(Ubfm(false, immr, imms, x), i) == MovedBit(immr, imms, x, i)
  {
    Pow2Words();
    if imms >= immr {
      BitMod(Lsl(Shift(x, immr, imms), 0), 32, i);
      LslBit(Shift(x, immr, imms), 0, i);
      BitShift(x, immr, imms, i);
    } else {
      BitMod(Lsl(Shift(x, 0, imms), 32 - immr), 32, i);
      LslBit(Shift(x, 0, imms), 32 - immr, i);
      if i >= 32 - immr { BitShift(x, 0, imms, i - (32 - immr)); }
    }
  }

  lemma RotatedAndMaskedBit(immr: nat, imms: nat, x: u64, i: nat)
    requires immr < 32 && imms < 32 && i < 32
    ensures RotateAndMaskBit(immr, imms, x, i) == MovedBit(immr, imms, x, i)
  {
    var k := if i + immr < 32 then i + immr else i + immr - 32;
    var d := if imms >= immr then imms - immr else imms - immr + 32;
    ModBelowTwice(i + immr);
    ModBelowTwice(imms - immr + 32);
    assert (imms - immr) % 32 == d;
    RotateIndex(i, immr, 32);
    assert (i + immr) % 32 == k;
  }

  lemma ModBelowTwice(n: nat)
    requires n < 64
    ensures n % 32 == if n < 32 then n else n - 32
  {
  }

  /** The reference's bits: the rotated source under wmask, as decode_bit_masks computes it, and tmask. */
  lemma ArmUbfm32Bit(immr: nat, imms: nat, x: u64, i: nat)
    requires immr < 32 && imms < 32 && i < 32
    ensures Bit(ArmUbfm32(immr, imms, x), i)
            == (Bit(x, (i + immr) % 32) && Bit(WMask(32, imms, immr), i) && TMaskBit32(immr, imms, i))
  {
    BitFromBits(32, RotateAndMaskBits(immr, imms, x), i);
    WMaskBit(32, imms, immr, i);
  }

  /** The emulator's from/to/length extraction is the rotate-and-mask definition, for every register value
      and all 32-bit immediates. */
  lemma UbfmIsRotateAndMask(immr: nat, imms: nat, x: u64)
    requires immr < 32 && imms < 32
    ensures Ubfm(false, immr, imms, x) == ArmUbfm32(immr, imms, x)
  {
    forall i | 0 <= i < 32 ensures Bit(Ubfm(false, immr, imms, x), i) == Bit(ArmUbfm32(immr, imms, x), i) {
      ExtractedBit(immr, imms, x, i);
      RotatedAndMaskedBit(immr, imms, x, i);
      BitFromBits(32, RotateAndMaskBits(immr, imms, x), i);
    }
    Pow2Words();
    SameBits(Ubfm(false, immr, imms, x), ArmUbfm32(immr, imms, x), 32);
  }

  // ----- logical immediates -----

  /** AND, ORR or EOR with the decoded mask. */
  function Logical(opc: nat, x: u64, mask: u64): u64
  {
    OrBound(x, mask);
    match opc case 1 => Or(x, mask) case 2 => Xor(x, mask) case _ => And(x, mask)
  }

  /** Every bit of a logical immediate's result is the operation on the register's bit and the mask's bit. */
  lemma LogicalImmBit(opc: nat, x: u64, e: nat, s: nat, r: nat, i: nat)
    requires e > 0 && opc < 4 && i < 64
    ensures
      var result := Bit(Logical(opc, x, WMask(e, s, r)), i);
      match opc
      case 1 => result == (Bit(x, i) || MaskBit(e, s, r, i))
      case 2 => result == (Bit(x, i) != MaskBit(e, s, r, i))
      case _ => result == (Bit(x, i) && MaskBit(e, s, r, i))
  {
    WMaskBit(e, s, r, i);
    BitAnd(x, WMask(e, s, r), i);
    BitOr(x, WMask(e, s, r), i);
    BitXor(x, WMask(e, s, r), i);
  }
}
