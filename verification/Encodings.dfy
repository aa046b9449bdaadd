/** The layouts of the modelled instructions, and that the decoder takes each of them apart again. */
module Encodings {
  import opened Words
  import opened Util
  import opened Isa
  import opened Listings

  /** A one-bit field. */
  type Bit1 = b: nat | b < 2

  type Bit2 = b: nat | b < 4
  type Bit3 = b: nat | b < 8
  type Cond = b: nat | b < 16
  type Imm6 = b: nat | b < 64
  type Imm9 = b: nat | b < 0x200

  /** The field holds `v`; the guard keeps the division folded. */
  ghost predicate Has(w: u32, unit: nat, count: nat, v: nat)
    requires unit > 0 && count > 0
  {
    forall z {:trigger Open(z)} :: Open(z) ==> F(w, unit, count) == v
  }

  /** A word with `v` in a field of `count` values above `unit`, `hi` above the field and `lo` below it. */
  lemma FieldOf(w: u32, unit: nat, count: nat, v: int, hi: int, lo: int)
    requires unit > 0 && 0 <= v < count && 0 <= lo < unit && w == hi * (count * unit) + v * unit + lo
    ensures Has(w, unit, count, v)
  {
    MulAssoc(hi, count, unit);
    MulDistrib(hi * count, v, unit);
    DivModUnique(w, unit, hi * count + v, lo);
    DivModUnique(hi * count + v, count, hi, v);
  }

  /** `sf op S 100010 sh imm12 Rn Rd`. */
  function AddSubImmWord(sf: Bit1, op: Bit1, s: Bit1, sh: Bit1, imm12: Imm12, rn: Reg, rd: Reg): u32
  {
    sf * 0x80000000 + op * 0x40000000 + s * 0x20000000 + sh * 0x400000 + imm12 * 0x400 + rn * 0x20 + rd + 0x11000000
  }

  lemma AddSubImmDecodes(sf: Bit1, op: Bit1, s: Bit1, sh: Bit1, imm12: Imm12, rn: Reg, rd: Reg)
    ensures Decode(AddSubImmWord(sf, op, s, sh, imm12, rn, rd))
            == AddSubImm(sf == 1, op == 1, s == 1, if sh == 1 then Lsl(imm12, 12) else imm12, rn, rd)
  {
    var w := AddSubImmWord(sf, op, s, sh, imm12, rn, rd);
    FieldOf(w, 1, 0x20, rd,
            sf * 0x4000000 + op * 0x2000000 + s * 0x1000000 + sh * 0x20000 + imm12 * 0x20 + rn + 0x880000,
            0);
    FieldOf(w, 0x20, 0x20, rn, sf * 0x200000 + op * 0x100000 + s * 0x80000 + sh * 0x1000 + imm12 + 0x44000, rd);
    FieldOf(w, 0x400, 0x1000, imm12, sf * 0x200 + op * 0x100 + s * 0x80 + sh + 0x44, rn * 0x20 + rd);
    FieldOf(w, 0x400000, 2, sh, sf * 0x100 + op * 0x80 + s * 0x40 + 0x22, imm12 * 0x400 + rn * 0x20 + rd);
    FieldOf(w, 0x800000, 8, 2, sf * 0x20 + op * 0x10 + s * 8 + 4, sh * 0x400000 + imm12 * 0x400 + rn * 0x20 + rd);
    FieldOf(w, 0x2000000, 0x10, 8, sf * 4 + op * 2 + s, sh * 0x400000 + imm12 * 0x400 + rn * 0x20 + rd + 0x1000000);
    FieldOf(w, 0x20000000, 2, s, sf * 2 + op, sh * 0x400000 + imm12 * 0x400 + rn * 0x20 + rd + 0x11000000);
    FieldOf(w, 0x40000000, 2, op, sf, s * 0x20000000 + sh * 0x400000 + imm12 * 0x400 + rn * 0x20 + rd + 0x11000000);
    FieldOf(w, 0x80000000, 2, sf, 0,
            op * 0x40000000 + s * 0x20000000 + sh * 0x400000 + imm12 * 0x400 + rn * 0x20 + rd + 0x11000000);
    assert Open(0);
  }

  /** `sf opc 100100 N immr imms Rn Rd`. */
  function LogicalImmWord(sf: Bit1, opc: Bit2, n: Bit1, immr: Imm6, imms: Imm6, rn: Reg, rd: Reg): u32
  {
    sf * 0x80000000 + opc * 0x20000000 + n * 0x400000 + immr * 0x10000 + imms * 0x400 + rn * 0x20 + rd + 0x12000000
  }

  lemma LogicalImmDecodes(sf: Bit1, opc: Bit2, n: Bit1, immr: Imm6, imms: Imm6, rn: Reg, rd: Reg)
    ensures Decode(LogicalImmWord(sf, opc, n, immr, imms, rn, rd))
            == LogicalImm(sf == 1, opc, n, imms, immr, rn, rd)
  {
    var w := LogicalImmWord(sf, opc, n, immr, imms, rn, rd);
    FieldOf(w, 1, 0x20, rd,
            sf * 0x4000000 + opc * 0x1000000 + n * 0x20000 + immr * 0x800 + imms * 0x20 + rn + 0x900000,
            0);
    FieldOf(w, 0x20, 0x20, rn, sf * 0x200000 + opc * 0x80000 + n * 0x1000 + immr * 0x40 + imms + 0x48000, rd);
    FieldOf(w, 0x400, 0x40, imms, sf * 0x8000 + opc * 0x2000 + n * 0x40 + immr + 0x1200, rn * 0x20 + rd);
    FieldOf(w, 0x10000, 0x40, immr, sf * 0x200 + opc * 0x80 + n + 0x48, imms * 0x400 + rn * 0x20 + rd);
    FieldOf(w, 0x400000, 2, n, sf * 0x100 + opc * 0x40 + 0x24, immr * 0x10000 + imms * 0x400 + rn * 0x20 + rd);
    FieldOf(w, 0x800000, 8, 4, sf * 0x20 + opc * 8 + 4,
            n * 0x400000 + immr * 0x10000 + imms * 0x400 + rn * 0x20 + rd);
    FieldOf(w, 0x2000000, 0x10, 9, sf * 4 + opc, n * 0x400000 + immr * 0x10000 + imms * 0x400 + rn * 0x20 + rd);
    FieldOf(w, 0x20000000, 4, opc, sf, n * 0x400000 + immr * 0x10000 + imms * 0x400 + rn * 0x20 + rd + 0x12000000);
    FieldOf(w, 0x80000000, 2, sf, 0,
            opc * 0x20000000 + n * 0x400000 + immr * 0x10000 + imms * 0x400 + rn * 0x20 + rd + 0x12000000);
    assert Open(0);
  }

  /** `sf opc 100101 hw imm16 Rd`. */
  function MoveWideWord(sf: Bit1, opc: Bit2, hw: Bit2, imm16: u16, rd: Reg): u32
  {
    sf * 0x80000000 + opc * 0x20000000 + hw * 0x200000 + imm16 * 0x20 + rd + 0x12800000
  }

  lemma MoveWideDecodes(sf: Bit1, opc: Bit2, hw: Bit2, imm16: u16, rd: Reg)
    ensures Decode(MoveWideWord(sf, opc, hw, imm16, rd))
            == MoveWide(sf == 1, opc, hw, imm16, rd)
  {
    var w := MoveWideWord(sf, opc, hw, imm16, rd);
    FieldOf(w, 1, 0x20, rd, sf * 0x4000000 + opc * 0x1000000 + hw * 0x10000 + imm16 + 0x940000, 0);
    FieldOf(w, 0x20, 0x10000, imm16, sf * 0x400 + opc * 0x100 + hw + 0x94, rd);
    FieldOf(w, 0x200000, 4, hw, sf * 0x100 + opc * 0x40 + 0x25, imm16 * 0x20 + rd);
    FieldOf(w, 0x800000, 8, 5, sf * 0x20 + opc * 8 + 4, hw * 0x200000 + imm16 * 0x20 + rd);
    FieldOf(w, 0x2000000, 0x10, 9, sf * 4 + opc, hw * 0x200000 + imm16 * 0x20 + rd + 0x800000);
    FieldOf(w, 0x20000000, 4, opc, sf, hw * 0x200000 + imm16 * 0x20 + rd + 0x12800000);
    FieldOf(w, 0x80000000, 2, sf, 0, opc * 0x20000000 + hw * 0x200000 + imm16 * 0x20 + rd + 0x12800000);
    assert Open(0);
  }

  /** `sf 10 100110 N immr imms Rn Rd`. */
  function UbfmWord(sf: Bit1, n: Bit1, immr: Imm6, imms: Imm6, rn: Reg, rd: Reg): u32
  {
    sf * 0x80000000 + n * 0x400000 + immr * 0x10000 + imms * 0x400 + rn * 0x20 + rd + 0x53000000
  }

  lemma UbfmDecodes(sf: Bit1, n: Bit1, immr: Imm6, imms: Imm6, rn: Reg, rd: Reg)
    ensures Decode(UbfmWord(sf, n, immr, imms, rn, rd))
            == MoveBits(sf == 1, immr, imms, rn, rd)
  {
    var w := UbfmWord(sf, n, immr, imms, rn, rd);
    FieldOf(w, 1, 0x20, rd, sf * 0x4000000 + n * 0x20000 + immr * 0x800 + imms * 0x20 + rn + 0x2980000, 0);
    FieldOf(w, 0x20, 0x20, rn, sf * 0x200000 + n * 0x1000 + immr * 0x40 + imms + 0x14c000, rd);
    FieldOf(w, 0x400, 0x40, imms, sf * 0x8000 + n * 0x40 + immr + 0x5300, rn * 0x20 + rd);
    FieldOf(w, 0x10000, 0x40, immr, sf * 0x200 + n + 0x14c, imms * 0x400 + rn * 0x20 + rd);
    FieldOf(w, 0x800000, 8, 6, sf * 0x20 + 0x14, n * 0x400000 + immr * 0x10000 + imms * 0x400 + rn * 0x20 + rd);
    FieldOf(w, 0x2000000, 0x10, 9, sf * 4 + 2,
            n * 0x400000 + immr * 0x10000 + imms * 0x400 + rn * 0x20 + rd + 0x1000000);
    FieldOf(w, 0x20000000, 4, 2, sf, n * 0x400000 + immr * 0x10000 + imms * 0x400 + rn * 0x20 + rd + 0x13000000);
    FieldOf(w, 0x80000000, 2, sf, 0, n * 0x400000 + immr * 0x10000 + imms * 0x400 + rn * 0x20 + rd + 0x53000000);
    assert Open(0);
  }

  /** `x0 101 V opt L imm7 Rt2 Rn Rt`, without the no-allocate form; V is not looked at. */
  function PairWord(x: Bit1, v: Bit1, opt: Bit2, l: Bit1, imm7: Imm7, rt2: Reg, rn: Reg, rt: Reg): u32
    requires opt != 0
  {
    x * 0x80000000 + v * 0x4000000 + opt * 0x800000 + l * 0x400000 + imm7 * 0x8000 + rt2 * 0x400 + rn * 0x20
    + rt + 0x28000000
  }

  lemma PairDecodes(x: Bit1, v: Bit1, opt: Bit2, l: Bit1, imm7: Imm7, rt2: Reg, rn: Reg, rt: Reg)
    requires opt != 0
    ensures Decode(PairWord(x, v, opt, l, imm7, rt2, rn, rt))
            == Pair(l == 1, x == 1,
                    if opt == 1 then PostIndex else if opt == 2 then Offset else PreIndex, imm7, rt, rt2, rn)
  {
    var w := PairWord(x, v, opt, l, imm7, rt2, rn, rt);
    FieldOf(w, 1, 0x20, rt,
            x * 0x4000000 + v * 0x200000 + opt * 0x40000 + l * 0x20000 + imm7 * 0x400 + rt2 * 0x20 + rn + 0x1400000,
            0);
    FieldOf(w, 0x20, 0x20, rn, x * 0x200000 + v * 0x10000 + opt * 0x2000 + l * 0x1000 + imm7 * 0x20 + rt2 + 0xa0000,
            rt);
    FieldOf(w, 0x400, 0x20, rt2, x * 0x10000 + v * 0x800 + opt * 0x100 + l * 0x80 + imm7 + 0x5000, rn * 0x20 + rt);
    FieldOf(w, 0x8000, 0x80, imm7, x * 0x200 + v * 0x10 + opt * 2 + l + 0xa0, rt2 * 0x400 + rn * 0x20 + rt);
    FieldOf(w, 0x400000, 2, l, x * 0x100 + v * 8 + opt + 0x50, imm7 * 0x8000 + rt2 * 0x400 + rn * 0x20 + rt);
    FieldOf(w, 0x800000, 8, opt, x * 0x20 + v + 10, l * 0x400000 + imm7 * 0x8000 + rt2 * 0x400 + rn * 0x20 + rt);
    FieldOf(w, 0x2000000, 0x10, v * 2 + 4, x * 4 + 1,
            opt * 0x800000 + l * 0x400000 + imm7 * 0x8000 + rt2 * 0x400 + rn * 0x20 + rt);
    FieldOf(w, 0x10000000, 0x10, x * 8 + 2, 0,
            v * 0x4000000 + opt * 0x800000 + l * 0x400000 + imm7 * 0x8000 + rt2 * 0x400 + rn * 0x20 + rt + 0x8000000);
    FieldOf(w, 0x40000000, 4, x * 2, 0,
            v * 0x4000000 + opt * 0x800000 + l * 0x400000 + imm7 * 0x8000 + rt2 * 0x400 + rn * 0x20 + rt
            + 0x28000000);
    PairOf(w, x, v, opt, l, imm7, rt2, rn, rt);
  }

  lemma PairOf(w: u32, x: Bit1, v: Bit1, opt: Bit2, l: Bit1, imm7: Imm7, rt2: Reg, rn: Reg, rt: Reg)
    requires opt != 0
    requires Has(w, 1, 0x20, rt) && Has(w, 0x20, 0x20, rn) && Has(w, 0x400, 0x20, rt2)
    requires Has(w, 0x8000, 0x80, imm7) && Has(w, 0x400000, 2, l) && Has(w, 0x800000, 8, opt)
    requires Has(w, 0x2000000, 0x10, v * 2 + 4) && Has(w, 0x10000000, 0x10, x * 8
    + 2) && Has(w, 0x40000000, 4, x * 2)
    ensures Decode(w)
            == Pair(l == 1, x == 1,
                    if opt == 1 then PostIndex else if opt == 2 then Offset else PreIndex, imm7, rt, rt2, rn)
  {
    assert Open(0);
  }

  /** `size 111 0 01 0L imm12 Rn Rt`. */
  function SingleOffsetWord(size: Bit2, l: Bit1, imm12: Imm12, rn: Reg, rt: Reg): u32
  {
    size * 0x40000000 + l * 0x400000 + imm12 * 0x400 + rn * 0x20 + rt + 0x39000000
  }

  lemma SingleOffsetDecodes(size: Bit2, l: Bit1, imm12: Imm12, rn: Reg, rt: Reg)
    ensures Decode(SingleOffsetWord(size, l, imm12, rn, rt))
            == Single(l == 1, SizeOf(size), Offset, imm12, rt, rn)
  {
    var w := SingleOffsetWord(size, l, imm12, rn, rt);
    FieldOf(w, 1, 0x20, rt, size * 0x2000000 + l * 0x20000 + imm12 * 0x20 + rn + 0x1c80000, 0);
    FieldOf(w, 0x20, 0x20, rn, size * 0x100000 + l * 0x1000 + imm12 + 0xe4000, rt);
    FieldOf(w, 0x400, 0x1000, imm12, size * 0x100 + l + 0xe4, rn * 0x20 + rt);
    FieldOf(w, 0x400000, 4, l, size * 0x40 + 0x39, imm12 * 0x400 + rn * 0x20 + rt);
    FieldOf(w, 0x800000, 4, 2, size * 0x20 + 0x1c, l * 0x400000 + imm12 * 0x400 + rn * 0x20 + rt);
    FieldOf(w, 0x1000000, 2, 1, size * 0x20 + 0x1c, l * 0x400000 + imm12 * 0x400 + rn * 0x20 + rt);
    FieldOf(w, 0x2000000, 0x10, 12, size * 2 + 1, l * 0x400000 + imm12 * 0x400 + rn * 0x20 + rt + 0x1000000);
    FieldOf(w, 0x4000000, 2, 0, size * 8 + 7, l * 0x400000 + imm12 * 0x400 + rn * 0x20 + rt + 0x1000000);
    FieldOf(w, 0x10000000, 0x10, size * 4 + 3, 0, l * 0x400000 + imm12 * 0x400 + rn * 0x20 + rt + 0x9000000);
    FieldOf(w, 0x40000000, 4, size, 0, l * 0x400000 + imm12 * 0x400 + rn * 0x20 + rt + 0x39000000);
    SingleOffsetOf(w, size, l, imm12, rn, rt);
  }

  lemma SingleOffsetOf(w: u32, size: Bit2, l: Bit1, imm12: Imm12, rn: Reg, rt: Reg)
    requires Has(w, 1, 0x20, rt) && Has(w, 0x20, 0x20, rn) && Has(w, 0x400, 0x1000, imm12)
    requires Has(w, 0x400000, 4, l) && Has(w, 0x800000, 4, 2) && Has(w, 0x1000000, 2, 1)
    requires Has(w, 0x2000000, 0x10, 12) && Has(w, 0x4000000, 2, 0) && Has(w, 0x10000000, 0x10, size * 4 + 3)
    requires Has(w, 0x40000000, 4, size)
    ensures Decode(w)
            == Single(l == 1, SizeOf(size), Offset, imm12, rt, rn)
  {
    assert Open(0);
  }

  /** `size 111 0 00 0L 0 imm9 p1 Rn Rt`, pre-indexed if p is set. */
  function SingleIndexedWord(size: Bit2, l: Bit1, imm9: Imm9, p: Bit1, rn: Reg, rt: Reg): u32
  {
    size * 0x40000000 + l * 0x400000 + imm9 * 0x1000 + p * 0x800 + rn * 0x20 + rt + 0x38000400
  }

  lemma SingleIndexedDecodes(size: Bit2, l: Bit1, imm9: Imm9, p: Bit1, rn: Reg, rt: Reg)
    ensures Decode(SingleIndexedWord(size, l, imm9, p, rn, rt))
            == Single(l == 1, SizeOf(size), if p == 1 then PreIndex else PostIndex, imm9, rt, rn)
  {
    var w := SingleIndexedWord(size, l, imm9, p, rn, rt);
    FieldOf(w, 1, 0x20, rt, size * 0x2000000 + l * 0x20000 + imm9 * 0x80 + p * 0x40 + rn + 0x1c00020, 0);
    FieldOf(w, 0x20, 0x20, rn, size * 0x100000 + l * 0x1000 + imm9 * 4 + p * 2 + 0xe0001, rt);
    FieldOf(w, 0x400, 4, p * 2 + 1, size * 0x40000 + l * 0x400 + imm9 + 0x38000, rn * 0x20 + rt);
    FieldOf(w, 0x1000, 0x200, imm9, size * 0x200 + l * 2 + 0x1c0, p * 0x800 + rn * 0x20 + rt + 0x400);
    FieldOf(w, 0x200000, 2, 0, size * 0x100 + l + 0xe0, imm9 * 0x1000 + p * 0x800 + rn * 0x20 + rt + 0x400);
    FieldOf(w, 0x400000, 4, l, size * 0x40 + 0x38, imm9 * 0x1000 + p * 0x800 + rn * 0x20 + rt + 0x400);
    FieldOf(w, 0x800000, 4, 0, size * 0x20 + 0x1c,
            l * 0x400000 + imm9 * 0x1000 + p * 0x800 + rn * 0x20 + rt + 0x400);
    FieldOf(w, 0x1000000, 2, 0, size * 0x20 + 0x1c,
            l * 0x400000 + imm9 * 0x1000 + p * 0x800 + rn * 0x20 + rt + 0x400);
    FieldOf(w, 0x2000000, 0x10, 12, size * 2 + 1,
            l * 0x400000 + imm9 * 0x1000 + p * 0x800 + rn * 0x20 + rt + 0x400);
    FieldOf(w, 0x4000000, 2, 0, size * 8 + 7, l * 0x400000 + imm9 * 0x1000 + p * 0x800 + rn * 0x20 + rt + 0x400);
    FieldOf(w, 0x10000000, 0x10, size * 4 + 3, 0,
            l * 0x400000 + imm9 * 0x1000 + p * 0x800 + rn * 0x20 + rt + 0x8000400);
    FieldOf(w, 0x40000000, 4, size, 0, l * 0x400000 + imm9 * 0x1000 + p * 0x800 + rn * 0x20 + rt + 0x38000400);
    SingleIndexedOf(w, size, l, imm9, p, rn, rt);
  }

  lemma SingleIndexedOf(w: u32, size: Bit2, l: Bit1, imm9: Imm9, p: Bit1, rn: Reg, rt: Reg)
    requires Has(w, 1, 0x20, rt) && Has(w, 0x20, 0x20, rn) && Has(w, 0x400, 4, p * 2 + 1)
    requires Has(w, 0x1000, 0x200, imm9) && Has(w, 0x200000, 2, 0) && Has(w, 0x400000, 4, l)
    requires Has(w, 0x800000, 4, 0) && Has(w, 0x1000000, 2, 0) && Has(w, 0x2000000, 0x10, 12)
    requires Has(w, 0x4000000, 2, 0) && Has(w, 0x10000000, 0x10, size * 4 + 3) && Has(w, 0x40000000, 4, size)
    ensures Decode(w)
            == Single(l == 1, SizeOf(size), if p == 1 then PreIndex else PostIndex, imm9, rt, rn)
  {
    assert Open(0);
  }

  /** `sf op S 01011 sh 0 Rm imm6 Rn Rd`. */
  function AddSubRegWord(sf: Bit1, op: Bit1, s: Bit1, sh: Bit2, rm: Reg, imm6: Imm6, rn: Reg, rd: Reg): u32
  {
    sf * 0x80000000 + op * 0x40000000 + s * 0x20000000 + sh * 0x400000 + rm * 0x10000 + imm6 * 0x400
    + rn * 0x20 + rd + 0xb000000
  }

  lemma AddSubRegDecodes(sf: Bit1, op: Bit1, s: Bit1, sh: Bit2, rm: Reg, imm6: Imm6, rn: Reg, rd: Reg)
    ensures Decode(AddSubRegWord(sf, op, s, sh, rm, imm6, rn, rd))
            == AddSubReg(sf == 1, op == 1, s == 1, sh, imm6, rm, rn, rd)
  {
    var w := AddSubRegWord(sf, op, s, sh, rm, imm6, rn, rd);
    FieldOf(w, 1, 0x20, rd,
            sf * 0x4000000 + op * 0x2000000 + s * 0x1000000 + sh * 0x20000 + rm * 0x800 + imm6 * 0x20 + rn + 0x580000,
            0);
    FieldOf(w, 0x20, 0x20, rn, sf * 0x200000 + op * 0x100000 + s * 0x80000 + sh * 0x1000 + rm * 0x40 + imm6 + 0x2c000,
            rd);
    FieldOf(w, 0x400, 0x40, imm6, sf * 0x8000 + op * 0x4000 + s * 0x2000 + sh * 0x40 + rm + 0xb00, rn * 0x20 + rd);
    FieldOf(w, 0x10000, 0x20, rm, sf * 0x400 + op * 0x200 + s * 0x100 + sh * 2 + 0x58,
            imm6 * 0x400 + rn * 0x20 + rd);
    FieldOf(w, 0x200000, 0x10, sh * 2 + 8, sf * 0x40 + op * 0x20 + s * 0x10 + 5,
            rm * 0x10000 + imm6 * 0x400 + rn * 0x20 + rd);
    FieldOf(w, 0x400000, 4, sh, sf * 0x80 + op * 0x40 + s * 0x20 + 11,
            rm * 0x10000 + imm6 * 0x400 + rn * 0x20 + rd);
    FieldOf(w, 0x2000000, 0x10, 5, sf * 4 + op * 2 + s,
            sh * 0x400000 + rm * 0x10000 + imm6 * 0x400 + rn * 0x20 + rd + 0x1000000);
    FieldOf(w, 0x10000000, 2, 0, sf * 4 + op * 2 + s,
            sh * 0x400000 + rm * 0x10000 + imm6 * 0x400 + rn * 0x20 + rd + 0xb000000);
    FieldOf(w, 0x20000000, 2, s, sf * 2 + op,
            sh * 0x400000 + rm * 0x10000 + imm6 * 0x400 + rn * 0x20 + rd + 0xb000000);
    FieldOf(w, 0x40000000, 2, op, sf,
            s * 0x20000000 + sh * 0x400000 + rm * 0x10000 + imm6 * 0x400 + rn * 0x20 + rd + 0xb000000);
    FieldOf(w, 0x80000000, 2, sf, 0,
            op * 0x40000000 + s * 0x20000000 + sh * 0x400000 + rm * 0x10000 + imm6 * 0x400 + rn * 0x20 + rd
            + 0xb000000);
    AddSubRegOf(w, sf, op, s, sh, rm, imm6, rn, rd);
  }

  lemma AddSubRegOf(w: u32, sf: Bit1, op: Bit1, s: Bit1, sh: Bit2, rm: Reg, imm6: Imm6, rn: Reg, rd: Reg)
    requires Has(w, 1, 0x20, rd) && Has(w, 0x20, 0x20, rn) && Has(w, 0x400, 0x40, imm6)
    requires Has(w, 0x10000, 0x20, rm) && Has(w, 0x200000, 0x10, sh * 2 + 8) && Has(w, 0x400000, 4, sh)
    requires Has(w, 0x2000000, 0x10, 5) && Has(w, 0x10000000, 2, 0) && Has(w, 0x20000000, 2, s)
    requires Has(w, 0x40000000, 2, op) && Has(w, 0x80000000, 2, sf)
    ensures Decode(w)
            == AddSubReg(sf == 1, op == 1, s == 1, sh, imm6, rm, rn, rd)
  {
    assert Open(0);
  }

  /** `sf 01 01010 sh N Rm imm6 Rn Rd`. */
  function OrrWord(sf: Bit1, sh: Bit2, n: Bit1, rm: Reg, imm6: Imm6, rn: Reg, rd: Reg): u32
  {
    sf * 0x80000000 + sh * 0x400000 + n * 0x200000 + rm * 0x10000 + imm6 * 0x400 + rn * 0x20 + rd + 0x2a000000
  }

  lemma OrrDecodes(sf: Bit1, sh: Bit2, n: Bit1, rm: Reg, imm6: Imm6, rn: Reg, rd: Reg)
    ensures Decode(OrrWord(sf, sh, n, rm, imm6, rn, rd))
            == Orr(sf == 1, n == 1, sh, imm6, rm, rn, rd)
  {
    var w := OrrWord(sf, sh, n, rm, imm6, rn, rd);
    FieldOf(w, 1, 0x20, rd, sf * 0x4000000 + sh * 0x20000 + n * 0x10000 + rm * 0x800 + imm6 * 0x20 + rn + 0x1500000,
            0);
    FieldOf(w, 0x20, 0x20, rn, sf * 0x200000 + sh * 0x1000 + n * 0x800 + rm * 0x40 + imm6 + 0xa8000, rd);
    FieldOf(w, 0x400, 0x40, imm6, sf * 0x8000 + sh * 0x40 + n * 0x20 + rm + 0x2a00, rn * 0x20 + rd);
    FieldOf(w, 0x10000, 0x20, rm, sf * 0x400 + sh * 2 + n + 0x150, imm6 * 0x400 + rn * 0x20 + rd);
    FieldOf(w, 0x200000, 2, n, sf * 0x200 + sh + 0xa8, rm * 0x10000 + imm6 * 0x400 + rn * 0x20 + rd);
    FieldOf(w, 0x200000, 0x10, sh * 2 + n, sf * 0x40 + 0x15, rm * 0x10000 + imm6 * 0x400 + rn * 0x20 + rd);
    FieldOf(w, 0x400000, 4, sh, sf * 0x80 + 0x2a, n * 0x200000 + rm * 0x10000 + imm6 * 0x400 + rn * 0x20 + rd);
    FieldOf(w, 0x2000000, 0x10, 5, sf * 4 + 1,
            sh * 0x400000 + n * 0x200000 + rm * 0x10000 + imm6 * 0x400 + rn * 0x20 + rd);
    FieldOf(w, 0x10000000, 2, 0, sf * 4 + 1,
            sh * 0x400000 + n * 0x200000 + rm * 0x10000 + imm6 * 0x400 + rn * 0x20 + rd + 0xa000000);
    FieldOf(w, 0x20000000, 4, 1, sf,
            sh * 0x400000 + n * 0x200000 + rm * 0x10000 + imm6 * 0x400 + rn * 0x20 + rd + 0xa000000);
    FieldOf(w, 0x80000000, 2, sf, 0,
            sh * 0x400000 + n * 0x200000 + rm * 0x10000 + imm6 * 0x400 + rn * 0x20 + rd + 0x2a000000);
    assert Open(0);
  }

  /** `op 00101 imm26`. */
  function BWord(op: Bit1, imm26: Imm26): u32
  {
    op * 0x80000000 + imm26 + 0x14000000
  }

  lemma BDecodes(op: Bit1, imm26: Imm26)
    ensures Decode(BWord(op, imm26))
            == B(op == 1, imm26)
  {
    var w := BWord(op, imm26);
    var top, low := imm26 / 0x200_0000, imm26 % 0x200_0000;
    FieldOf(w, 1, 0x4000000, top * 0x2000000 + low, op * 0x20 + 5, 0);
    FieldOf(w, 0x2000000, 0x10, top + 10, op * 4, low);
    FieldOf(w, 0x20000000, 8, op * 4, 0, top * 0x2000000 + low + 0x14000000);
    FieldOf(w, 0x80000000, 2, op, 0, top * 0x2000000 + low + 0x14000000);
    assert Open(0);
  }

  /** `01010100 imm19 0 cond`. */
  function BCondWord(cond: Cond, imm19: Imm19): u32
  {
    imm19 * 0x20 + cond + 0x54000000
  }

  lemma BCondDecodes(cond: Cond, imm19: Imm19)
    ensures Decode(BCondWord(cond, imm19))
            == BCond(cond, imm19)
  {
    var w := BCondWord(cond, imm19);
    FieldOf(w, 1, 0x10, cond, imm19 * 2 + 0x5400000, 0);
    FieldOf(w, 0x10, 2, 0, imm19 + 0x2a00000, cond);
    FieldOf(w, 0x20, 0x80000, imm19, 0x54, cond);
    FieldOf(w, 0x1000000, 2, 0, 0x2a, imm19 * 0x20 + cond);
    FieldOf(w, 0x2000000, 0x10, 10, 2, imm19 * 0x20 + cond);
    FieldOf(w, 0x20000000, 8, 2, 0, imm19 * 0x20 + cond + 0x14000000);
    assert Open(0);
  }

  /** `sf 011010 op imm19 Rt`. */
  function CompareBranchWord(sf: Bit1, op: Bit1, imm19: Imm19, rt: Reg): u32
  {
    sf * 0x80000000 + op * 0x1000000 + imm19 * 0x20 + rt + 0x34000000
  }

  lemma CompareBranchDecodes(sf: Bit1, op: Bit1, imm19: Imm19, rt: Reg)
    ensures Decode(CompareBranchWord(sf, op, imm19, rt))
            == CompareBranch(sf == 1, op == 1, imm19, rt)
  {
    var w := CompareBranchWord(sf, op, imm19, rt);
    FieldOf(w, 1, 0x20, rt, sf * 0x4000000 + op * 0x80000 + imm19 + 0x1a00000, 0);
    FieldOf(w, 0x20, 0x80000, imm19, sf * 0x80 + op + 0x34, rt);
    FieldOf(w, 0x1000000, 2, op, sf * 0x40 + 0x1a, imm19 * 0x20 + rt);
    FieldOf(w, 0x2000000, 2, 0, sf * 0x20 + 13, op * 0x1000000 + imm19 * 0x20 + rt);
    FieldOf(w, 0x2000000, 0x10, 10, sf * 4 + 1, op * 0x1000000 + imm19 * 0x20 + rt);
    FieldOf(w, 0x20000000, 8, sf * 4 + 1, 0, op * 0x1000000 + imm19 * 0x20 + rt + 0x14000000);
    FieldOf(w, 0x80000000, 2, sf, 0, op * 0x1000000 + imm19 * 0x20 + rt + 0x34000000);
    assert Open(0);
  }

  /** `b5 011011 op b40 imm14 Rt`. */
  function TestBranchWord(b5: Bit1, op: Bit1, b40: Reg, imm14: Imm14, rt: Reg): u32
  {
    b5 * 0x80000000 + op * 0x1000000 + b40 * 0x80000 + imm14 * 0x20 + rt + 0x36000000
  }

  lemma TestBranchDecodes(b5: Bit1, op: Bit1, b40: Reg, imm14: Imm14, rt: Reg)
    ensures Decode(TestBranchWord(b5, op, b40, imm14, rt))
            == TestBranch(op == 1, 32 * b5 + b40, imm14, rt)
  {
    var w := TestBranchWord(b5, op, b40, imm14, rt);
    FieldOf(w, 1, 0x20, rt, b5 * 0x4000000 + op * 0x80000 + b40 * 0x4000 + imm14 + 0x1b00000, 0);
    FieldOf(w, 0x20, 0x4000, imm14, b5 * 0x1000 + op * 0x20 + b40 + 0x6c0, rt);
    FieldOf(w, 0x80000, 0x20, b40, b5 * 0x80 + op + 0x36, imm14 * 0x20 + rt);
    FieldOf(w, 0x1000000, 2, op, b5 * 0x40 + 0x1b, b40 * 0x80000 + imm14 * 0x20 + rt);
    FieldOf(w, 0x2000000, 2, 1, b5 * 0x20 + 13, op * 0x1000000 + b40 * 0x80000 + imm14 * 0x20 + rt);
    FieldOf(w, 0x2000000, 0x10, 11, b5 * 4 + 1, op * 0x1000000 + b40 * 0x80000 + imm14 * 0x20 + rt);
    FieldOf(w, 0x20000000, 8, b5 * 4 + 1, 0, op * 0x1000000 + b40 * 0x80000 + imm14 * 0x20 + rt + 0x16000000);
    FieldOf(w, 0x80000000, 2, b5, 0, op * 0x1000000 + b40 * 0x80000 + imm14 * 0x20 + rt + 0x36000000);
    assert Open(0);
  }

  /** `1101011 0 opc 11111 000000 Rn 00000`: BR, BLR, RET and, with Rn all ones, ERET. */
  function BranchRegWord(opc: Bit3, rn: Reg): u32
    requires opc < 3 || (opc == 4 && rn == 31)
  {
    opc * 0x200000 + rn * 0x20 + 0xd61f0000
  }

  lemma BranchRegDecodes(opc: Bit3, rn: Reg)
    requires opc < 3 || (opc == 4 && rn == 31)
    ensures Decode(BranchRegWord(opc, rn))
            == if opc == 0 then Br(rn) else if opc == 1 then Blr(rn) else if opc == 2 then Ret(rn) else Eret
  {
    var w := BranchRegWord(opc, rn);
    FieldOf(w, 1, 0x20, 0, opc * 0x10000 + rn + 0x6b0f800, 0);
    FieldOf(w, 0x20, 0x20, rn, opc * 0x800 + 0x3587c0, 0);
    FieldOf(w, 0x400, 0x40, 0, opc * 0x20 + 0xd61f, rn * 0x20);
    FieldOf(w, 0x10000, 0x20, 0x1f, opc + 0x6b0, rn * 0x20);
    FieldOf(w, 0x200000, 0x10, opc, 0x6b, rn * 0x20 + 0x1f0000);
    FieldOf(w, 0x1000000, 4, 2, 0x35, opc * 0x200000 + rn * 0x20 + 0x1f0000);
    FieldOf(w, 0x2000000, 0x10, 11, 6, opc * 0x200000 + rn * 0x20 + 0x1f0000);
    FieldOf(w, 0x20000000, 8, 6, 0, opc * 0x200000 + rn * 0x20 + 0x161f0000);
    assert Open(0);
  }

  /** `11010100 000 imm16 000 01`. */
  function SvcWord(imm16: u16): u32
  {
    imm16 * 0x20 + 0xd4000001
  }

  lemma SvcDecodes(imm16: u16)
    ensures Decode(SvcWord(imm16))
            == Svc
  {
    var w := SvcWord(imm16);
    FieldOf(w, 1, 4, 1, imm16 * 8 + 0x35000000, 0);
    FieldOf(w, 4, 8, 0, imm16 + 0x6a00000, 1);
    FieldOf(w, 0x200000, 8, 0, 0xd4, imm16 * 0x20 + 1);
    FieldOf(w, 0x1000000, 4, 0, 0x35, imm16 * 0x20 + 1);
    FieldOf(w, 0x2000000, 0x10, 10, 6, imm16 * 0x20 + 1);
    FieldOf(w, 0x20000000, 8, 6, 0, imm16 * 0x20 + 0x14000001);
    assert Open(0);
  }

  /** `1101010100 L 11 000 0100 CRm op2 Rt`, with CRm 0 or 1: SPSR_EL1, ELR_EL1 and SP_EL0. */
  function SysMoveWord(l: Bit1, crm: Bit1, op2: Bit1, rt: Reg): u32
    requires crm == 0 || op2 == 0
  {
    l * 0x200000 + crm * 0x100 + op2 * 0x20 + rt + 0xd5184000
  }

  lemma SysMoveDecodes(l: Bit1, crm: Bit1, op2: Bit1, rt: Reg)
    requires crm == 0 || op2 == 0
    ensures Decode(SysMoveWord(l, crm, op2, rt))
            == SysMove(l == 1, if crm == 1 then SpEl0 else if op2 == 1 then Elr else Spsr, rt)
  {
    var w := SysMoveWord(l, crm, op2, rt);
    FieldOf(w, 1, 0x20, rt, l * 0x10000 + crm * 8 + op2 + 0x6a8c200, 0);
    FieldOf(w, 0x20, 8, op2, l * 0x2000 + crm + 0xd51840, rt);
    FieldOf(w, 0x100, 0x10, crm, l * 0x200 + 0xd5184, op2 * 0x20 + rt);
    FieldOf(w, 0x1000, 0x10, 4, l * 0x20 + 0xd518, crm * 0x100 + op2 * 0x20 + rt);
    FieldOf(w, 0x10000, 8, 0, l * 4 + 0x1aa3, crm * 0x100 + op2 * 0x20 + rt + 0x4000);
    FieldOf(w, 0x80000, 2, 1, l * 2 + 0xd51, crm * 0x100 + op2 * 0x20 + rt + 0x4000);
    FieldOf(w, 0x100000, 2, 1, l + 0x6a8, crm * 0x100 + op2 * 0x20 + rt + 0x84000);
    FieldOf(w, 0x200000, 2, l, 0x354, crm * 0x100 + op2 * 0x20 + rt + 0x184000);
    FieldOf(w, 0x1000000, 4, 1, 0x35, l * 0x200000 + crm * 0x100 + op2 * 0x20 + rt + 0x184000);
    FieldOf(w, 0x2000000, 0x10, 10, 6, l * 0x200000 + crm * 0x100 + op2 * 0x20 + rt + 0x1184000);
    FieldOf(w, 0x20000000, 8, 6, 0, l * 0x200000 + crm * 0x100 + op2 * 0x20 + rt + 0x15184000);
    assert Open(0);
  }
}
