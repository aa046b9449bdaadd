/** What executed instructions mean: the state after them in terms of integers, bits and the Arm definitions. */
module Meaning {
  import opened Words
  import opened Util
  import opened Flags
  import opened BitMasks
  import opened Immediates
  import opened Listings
  import opened Isa

  function Modulus(is64: bool): int { if is64 then TWO64 else TWO32 }

  /** ADD and SUB of an immediate are those of the integers modulo the operand width, into register or sp. */
  lemma AddSubImmMeans(s: State, i: Instr)
    requires s.Valid() && i.AddSubImm? && !i.flags
    ensures
      var x := s.RegOrSp(i.rn);
      var v := (if i.sub then x - i.imm else x + i.imm) % Modulus(i.is64);
      Does(s, i, s.SetOrSp(i.rd, v).Advance())
  {
    var x := s.RegOrSp(i.rn);
    NarrowSum(i.is64, x, i.imm, i.sub);
  }

  lemma NarrowSum(is64: bool, x: u64, y: u64, sub: bool)
    ensures Narrow(is64, AddImm(x, y, sub)) == (if sub then x - y else x + y) % Modulus(is64)
  {
    AddImmIs(x, y, sub);
  }

  // ----- compare, then branch -----

  /** The operands of a 32-bit comparison. */
  function Compared(s: State, i: Instr): (u32, u32)
    requires s.Valid() && (i.AddSubImm? || (i.AddSubReg? && i.kind < 3 && i.amount < 32))
  {
    if i.AddSubImm? then (s.RegOrSp(i.rn) % TWO32, i.imm % TWO32)
    else (s.x[i.rn] % TWO32, ShiftWithType(s.x[i.rm], i.kind, i.amount) % TWO32)
  }

  predicate IsCompare(i: Instr)
  {
    || (i.AddSubImm? && i.flags && i.sub && !i.is64)
    || (i.AddSubReg? && i.flags && i.sub && !i.is64 && i.kind < 3 && i.amount < 32)
  }

  /** The flags of a 32-bit comparison of `x` with `y`. */
  function Flags32(x: u32, y: u32): NZCV { AddImmS32(x, y, true).1 }

  lemma CompareSetsFlags(s: State, i: Instr) returns (t: State)
    requires s.Valid() && IsCompare(i)
    ensures t.Valid() && Does(s, i, t) && t.nzcv == Flags32(Compared(s, i).0, Compared(s, i).1)
  {
    if i.AddSubImm? { t := CompareImmSetsFlags(s, i); } else { t := CompareRegSetsFlags(s, i); }
  }

  lemma CompareImmSetsFlags(s: State, i: Instr) returns (t: State)
    requires s.Valid() && IsCompare(i) && i.AddSubImm?
    ensures t.Valid() && Does(s, i, t) && t.nzcv == Flags32(Compared(s, i).0, Compared(s, i).1)
  {
    t := ExecAddSubImm(s, i).Advance();
    LowOperands(s.RegOrSp(i.rn), i.imm);
  }

  lemma CompareRegSetsFlags(s: State, i: Instr) returns (t: State)
    requires s.Valid() && IsCompare(i) && i.AddSubReg?
    ensures t.Valid() && Does(s, i, t) && t.nzcv == Flags32(Compared(s, i).0, Compared(s, i).1)
  {
    t := ExecAddSubReg(s, i).value.Advance();
    LowOperands(s.x[i.rn], ShiftWithType(s.x[i.rm], i.kind, i.amount));
  }

  /** Only the low words are compared. */
  lemma LowOperands(x: u64, y: u64)
    ensures AddImmS32(x % TWO32, y % TWO32, true) == AddImmS32(x, y, true)
  {
    assert x % TWO32 % TWO32 == x % TWO32 && y % TWO32 % TWO32 == y % TWO32;
  }

  lemma BranchOnFlags(t: State, cond: nat, imm: Imm19)
    requires t.Valid()
    ensures
      var d := if CheckBFlag(cond, t.nzcv) then 4 * SignedBy(imm, 0x4_0000) else 4;
      Does(t, BCond(cond, imm), t.(pc := U64(t.pc + d)))
  {
    Offset19Is(imm);
    JumpIs(t, Offset19(imm), SignedBy(imm, 0x4_0000));
  }

  /** Jumping by a displacement that has been reduced modulo 2^64. */
  lemma JumpIs(s: State, offset: u64, d: int)
    requires offset == U64(4 * d)
    ensures s.Jump(offset) == s.(pc := U64(s.pc + 4 * d))
  {
    AlignedTarget(s.pc, d);
  }

  /** SUBS or CMP of two 32-bit operands followed by B.cond branches exactly when the relation that the
      condition names holds between the operands as integers. */
  lemma CompareThenBranch(s: State, i: Instr, cond: nat, imm: Imm19) returns (t: State)
    requires s.Valid() && IsCompare(i) && cond < 14
    ensures t.Valid() && Does(s, i, t)
    ensures
      var d := if Relation32(cond, Compared(s, i).0, Compared(s, i).1) then 4 * SignedBy(imm, 0x4_0000) else 4;
      Does(t, BCond(cond, imm), t.(pc := U64(t.pc + d)))
  {
    t := CompareSetsFlags(s, i);
    BranchOnFlags(t, cond, imm);
    Compare32(cond, Compared(s, i).0, Compared(s, i).1);
  }

  /** The operands of a 64-bit comparison. */
  function Compared64(s: State, i: Instr): (u64, u64)
    requires s.Valid() && IsCompare64(i)
  {
    if i.AddSubImm? then (s.RegOrSp(i.rn), i.imm) else (s.x[i.rn], ShiftWithType(s.x[i.rm], i.kind, i.amount))
  }

  predicate IsCompare64(i: Instr)
  {
    || (i.AddSubImm? && i.flags && i.sub && i.is64)
    || (i.AddSubReg? && i.flags && i.sub && i.is64 && i.kind < 3 && i.amount < 64)
  }

  /** The flags of a 64-bit comparison of `x` with `y`. */
  function Flags64(x: u64, y: u64): NZCV { AddImmS64(x, y, true).1 }

  lemma CompareSetsFlags64(s: State, i: Instr) returns (t: State)
    requires s.Valid() && IsCompare64(i)
    ensures t.Valid() && Does(s, i, t) && t.nzcv == Flags64(Compared64(s, i).0, Compared64(s, i).1)
  {
    t := if i.AddSubImm? then ExecAddSubImm(s, i).Advance() else ExecAddSubReg(s, i).value.Advance();
  }

  /** SUBS or CMP of two 64-bit operands followed by B.cond branches as the relation between the operands says,
      exactly for the operands that Decided64 names. */
  lemma CompareThenBranch64(s: State, i: Instr, cond: nat, imm: Imm19) returns (t: State, taken: bool)
    requires s.Valid() && IsCompare64(i) && cond < 14
    ensures t.Valid() && Does(s, i, t)
    ensures Does(t, BCond(cond, imm), t.(pc := U64(t.pc + if taken then 4 * SignedBy(imm, 0x4_0000) else 4)))
    ensures
      var (x, y) := Compared64(s, i);
      taken == Relation64(cond, x, y) <==> Decided64(cond, x, y)
  {
    t := CompareSetsFlags64(s, i);
    taken := CheckBFlag(cond, t.nzcv);
    BranchOnFlags(t, cond, imm);
    Compare64(cond, Compared64(s, i).0, Compared64(s, i).1);
  }

  // ----- other branches -----

  /** B and BL. */
  lemma BranchMeans(s: State, link: bool, imm: Imm26)
    requires s.Valid()
    ensures
      var target := U64(s.pc + 4 * SignedBy(imm, 0x200_0000));
      Does(s, B(link, imm), s.(pc := target, x := if link then s.x[30 := U64(s.pc + 4)] else s.x))
  {
    Offset26Is(imm);
    BranchBy(s, link, imm, Offset26(imm), SignedBy(imm, 0x200_0000));
  }

  lemma BranchBy(s: State, link: bool, imm: Imm26, offset: u64, d: int)
    requires s.Valid() && offset == Offset26(imm) && offset == U64(4 * d)
    ensures Does(s, B(link, imm), s.(pc := U64(s.pc + 4 * d), x := if link then s.x[30 := U64(s.pc + 4)] else s.x))
  {
    var linked := if link then s.Set(30, U64(s.pc + 4)) else s;
    JumpIs(linked, offset, d);
    BranchRuns(s, link, imm, linked, linked.(pc := U64(linked.pc + 4 * d)));
  }

  lemma BranchRuns(s: State, link: bool, imm: Imm26, linked: State, t: State)
    requires s.Valid() && linked == (if link then s.Set(30, U64(s.pc + 4)) else s) && t == linked.Jump(Offset26(imm))
    ensures Does(s, B(link, imm), t)
  {
  }

  /** CBZ and CBNZ branch on the register, or on its low word. */
  lemma CompareBranchMeans(s: State, is64: bool, nonzero: bool, imm: Imm19, rt: Reg)
    requires s.Valid()
    ensures
      var zero := s.x[rt] % Modulus(is64) == 0;
      Does(s, CompareBranch(is64, nonzero, imm, rt),
           s.(pc := U64(s.pc + if zero != nonzero then 4 * SignedBy(imm, 0x4_0000) else 4)))
  {
    CompareOffsetIs(imm);
    JumpIs(s, CompareOffset19(imm), SignedBy(imm, 0x4_0000));
    NarrowIs(is64, s.x[rt]);
  }

  lemma NarrowIs(is64: bool, v: u64)
    ensures Narrow(is64, v) == v % Modulus(is64)
  {
  }

  lemma CompareOffsetIs(imm: Imm19)
    ensures CompareOffset19(imm) == U64(4 * SignedBy(imm, 0x4_0000))
  {
    Pow2Table();
    BranchOffsetIs(imm, 19);
  }

  /** TBZ and TBNZ branch on one bit. */
  lemma TestBranchMeans(s: State, set_: bool, pos: nat, imm: Imm14, rt: Reg, one: bool)
    requires s.Valid() && pos < 64 && one == (s.x[rt] / Pow2(pos) % 2 == 1)
    ensures Does(s, TestBranch(set_, pos, imm, rt),
          s.(pc := U64(s.pc + if one == set_ then 4 * SignedBy(imm, 0x2000) else 4)))
  {
    BitIsParity(s.x[rt], pos);
    TestBranchGoes(s, set_, pos, imm, rt, one);
  }

  lemma TestBranchGoes(s: State, set_: bool, pos: nat, imm: Imm14, rt: Reg, one: bool)
    requires s.Valid() && one == Bit(s.x[rt], pos)
    ensures Does(s, TestBranch(set_, pos, imm, rt),
          s.(pc := U64(s.pc + if one == set_ then 4 * SignedBy(imm, 0x2000) else 4)))
  {
    TestBranchRuns(s, set_, pos, imm, rt, one);
    TestOffsetIs(imm);
    JumpIs(s, Offset14(imm), SignedBy(imm, 0x2000));
  }

  lemma TestBranchRuns(s: State, set_: bool, pos: nat, imm: Imm14, rt: Reg, one: bool)
    requires s.Valid() && one == Bit(s.x[rt], pos)
    ensures Does(s, TestBranch(set_, pos, imm, rt), if one == set_ then s.Jump(Offset14(imm)) else s.Advance())
  {
  }

  lemma TestOffsetIs(imm: Imm14)
    ensures Offset14(imm) == U64(4 * SignedBy(imm, 0x2000))
  {
    Pow2Table();
    BranchOffsetIs(imm, 14);
  }

  // ----- bits -----

  /** The encodings of a logical immediate that are not reserved. */
  predicate Encodable(i: Instr)
    requires i.LogicalImm?
  {
    i.n < 2 && i.imms < 64 && i.immr < 64 && Len(i.n, i.imms) >= 1 && (i.is64 || i.n == 0)
  }

  /** Bit `k` of the mask of a logical immediate. */
  predicate ImmBit(i: Instr, k: nat)
    requires i.LogicalImm? && Encodable(i)
  {
    var e := ESize(i.n, i.imms);
    MaskBit(e, i.imms % e, i.immr % e, k)
  }

  /** The operand of a logical immediate; register 31 reads as zero. */
  function Source(s: State, i: Instr): u64
    requires s.Valid() && i.LogicalImm?
  {
    if i.rn == 31 then 0 else s.x[i.rn]
  }

  /** AND, ORR and EOR of an immediate, bit by bit; a 32-bit operation clears the high half. */
  lemma LogicalImmMeans(s: State, i: Instr) returns (v: u64)
    requires s.Valid() && i.LogicalImm? && Encodable(i) && i.opc < 3
    ensures Does(s, i, s.SetOrSp(i.rd, v).Advance())
    ensures forall k :: 0 <= k < 64 ==> Bit(v, k) == OpBit(i, Bit(Source(s, i), k), k)
  {
    var x := Source(s, i);
    v := LogicalResult(i, x);
    LogicalImmRuns(s, i, x);
    forall k | 0 <= k < 64 ensures Bit(v, k) == OpBit(i, Bit(Source(s, i), k), k) {
      LogicalResultBit(i, x, k);
    }
  }

  /** The operation on a register bit and the immediate's bit `k`. */
  predicate OpBit(i: Instr, a: bool, k: nat)
    requires i.LogicalImm? && Encodable(i)
  {
    && (i.is64 || k < 32)
    && match i.opc
       case 0 => a && ImmBit(i, k)
       case 1 => a || ImmBit(i, k)
       case _ => a != ImmBit(i, k)
  }

  /** The value a logical immediate writes. */
  function LogicalResult(i: Instr, x: u64): u64
    requires i.LogicalImm? && Encodable(i)
  {
    var e := ESize(i.n, i.imms);
    Narrow(i.is64, Logical(i.opc, x, WMask(e, i.imms % e, i.immr % e)))
  }

  lemma LogicalResultBit(i: Instr, x: u64, k: nat)
    requires i.LogicalImm? && Encodable(i) && i.opc < 3 && k < 64
    ensures Bit(LogicalResult(i, x), k) == OpBit(i, Bit(x, k), k)
  {
    var e := ESize(i.n, i.imms);
    LogicalImmBit(i.opc, x, e, i.imms % e, i.immr % e, k);
    NarrowBit(i.is64, Logical(i.opc, x, WMask(e, i.imms % e, i.immr % e)), k);
  }

  lemma LogicalImmRuns(s: State, i: Instr, x: u64)
    requires s.Valid() && i.LogicalImm? && Encodable(i) && i.opc < 3 && x == Source(s, i)
    ensures Does(s, i, s.SetOrSp(i.rd, LogicalResult(i, x)).Advance())
  {
  }

  lemma NarrowBit(is64: bool, v: u64, k: nat)
    requires k < 64
    ensures Bit(Narrow(is64, v), k) == ((is64 || k < 32) && Bit(v, k))
  {
    Pow2Words();
    BitMod(v, 32, k);
  }

  /** The immediate has a one where `x` has one, among bits `lo` to `hi - 1`. */
  ghost predicate Selects(i: Instr, x: u64, lo: nat, hi: nat)
    requires i.LogicalImm? && Encodable(i)
  {
    exists k :: lo <= k < hi && Bit(x, k) && ImmBit(i, k)
  }

  /** ANDS of an immediate: the value bit by bit, N from its top bit, C and V clear.  Z, which the 32-bit form takes
      from the 64-bit result, is right exactly when the low halves have a one in common or no halves have. */
  lemma AndsMeans(s: State, i: Instr) returns (v: u64, f: NZCV)
    requires s.Valid() && i.LogicalImm? && Encodable(i) && i.opc == 3
    ensures Does(s, i, (if i.rd == 31 then s.(nzcv := f) else s.(nzcv := f).Set(i.rd, v)).Advance())
    ensures forall k :: 0 <= k < 64 ==> Bit(v, k) == ((i.is64 || k < 32) && Bit(Source(s, i), k) && ImmBit(i, k))
    ensures f.n == Bit(v, if i.is64 then 63 else 31) && !f.c && !f.v
    ensures f.z == (v == 0) <==>
            i.is64 || Selects(i, Source(s, i), 0, 32) || !Selects(i, Source(s, i), 32, 64)
  {
    var x := Source(s, i);
    var e := ESize(i.n, i.imms);
    var result := Logical(i.opc, x, WMask(e, i.imms % e, i.immr % e));
    v := Narrow(i.is64, result);
    f := AndsFlags(i.is64, result);
    AndsRuns(s, i, x, result);
    forall k | 0 <= k < 64
      ensures Bit(result, k) == (Bit(x, k) && ImmBit(i, k)) && Bit(v, k) == ((i.is64 || k < 32) && Bit(result, k))
    {
      LogicalImmBit(i.opc, x, e, i.imms % e, i.immr % e, k);
      NarrowBit(i.is64, result, k);
    }
    AndsTop(i.is64, result);
    AndsZero(i, x, result);
  }

  lemma AndsRuns(s: State, i: Instr, x: u64, result: u64)
    requires s.Valid() && i.LogicalImm? && Encodable(i) && i.opc == 3 && x == Source(s, i)
    requires var e := ESize(i.n, i.imms); result == Logical(i.opc, x, WMask(e, i.imms % e, i.immr % e))
    ensures
      var t := s.(nzcv := AndsFlags(i.is64, result));
      Does(s, i, (if i.rd == 31 then t else t.Set(i.rd, Narrow(i.is64, result))).Advance())
  {
  }

  lemma AndsTop(is64: bool, result: u64)
    ensures AndsFlags(is64, result).n == Bit(Narrow(is64, result), if is64 then 63 else 31)
  {
    Pow2Words();
    if is64 { TopBitSet(result, 63); } else { TopBitSet(result % TWO32, 31); }
  }

  ghost predicate AnyBit(v: nat, lo: nat, hi: nat) { exists k :: lo <= k < hi && Bit(v, k) }

  lemma AndsZero(i: Instr, x: u64, result: u64)
    requires i.LogicalImm? && Encodable(i)
    requires forall k :: 0 <= k < 64 ==> Bit(result, k) == (Bit(x, k) && ImmBit(i, k))
    ensures (result == 0) == (Narrow(i.is64, result) == 0) <==> i.is64 || Selects(i, x, 0, 32) || !Selects(i, x, 32, 64)
  {
    SelectsIs(i, x, result, 0, 32);
    SelectsIs(i, x, result, 32, 64);
    Halves(result);
  }

  lemma SelectsIs(i: Instr, x: u64, result: u64, lo: nat, hi: nat)
    requires i.LogicalImm? && Encodable(i) && hi <= 64
    requires forall k :: 0 <= k < 64 ==> Bit(result, k) == (Bit(x, k) && ImmBit(i, k))
    ensures Selects(i, x, lo, hi) <==> AnyBit(result, lo, hi)
  {
  }

  /** A word is zero when neither half has a bit. */
  lemma Halves(v: u64)
    ensures v == 0 <==> !AnyBit(v, 0, 32) && !AnyBit(v, 32, 64)
    ensures v % TWO32 == 0 <==> !AnyBit(v, 0, 32)
  {
    assert Pow2(32) == TWO32 && Pow2(64) == TWO64 by { Pow2Words(); }
    ZeroIff(v, 64);
    assert AnyBit(v, 0, 64) <==> AnyBit(v, 0, 32) || AnyBit(v, 32, 64);
    ZeroIff(v % TWO32, 32);
    forall k | 0 <= k < 32 ensures Bit(v % TWO32, k) == Bit(v, k) { BitMod(v, 32, k); }
    assert AnyBit(v % TWO32, 0, 32) <==> AnyBit(v, 0, 32);
  }

  lemma ZeroIff(v: nat, n: nat)
    requires v < Pow2(n)
    ensures v == 0 <==> !AnyBit(v, 0, n)
  {
    forall k | 0 <= k < n ensures !Bit(0, k) { BitZero(k); }
    if !AnyBit(v, 0, n) { SameBits(v, 0, n); }
  }

  /** A 32-bit ANDS whose result is zero but whose Z is clear: only the high halves have a one in common. */
  lemma AndsZeroWitness(s: State, rn: Reg, rd: Reg) returns (f: NZCV)
    requires s.Valid() && rn != 31 && rd != 31 && s.x[rn] == TWO32
    ensures Does(s, LogicalImm(false, 3, 0, 0, 0, rn, rd), s.(nzcv := f).Set(rd, 0).Advance()) && !f.z
  {
    var i := LogicalImm(false, 3, 0, 0, 0, rn, rd);
    var v;
    v, f := AndsMeans(s, i);
    forall k | 0 <= k < 64 ensures Bit(TWO32, k) == (k == 32) { OneBit(32, k); }
    assert v == 0 by {
      forall k | 0 <= k < 64 ensures !Bit(v, k) {}
      Halves(v);
    }
    assert Bit(TWO32, 32) && ImmBit(i, 32);
  }

  lemma OneBit(n: nat, k: nat)
    requires n == 32
    ensures Bit(TWO32, k) == (k == n)
  {
    assert Pow2(n) == TWO32 by { Pow2Words(); }
    BitMul(1, n, k);
    if k > n { BitZero(k - n - 1); }
  }

  /** A 32-bit UBFM leaves in the register what the Arm ARM defines. */
  lemma UbfmMeans(s: State, immr: nat, imms: nat, rn: Reg, rd: Reg)
    requires s.Valid() && immr < 32 && imms < 32
    ensures ArmUbfm32(immr, imms, s.x[rn]) < TWO32
    ensures Does(s, MoveBits(false, immr, imms, rn, rd), s.Set(rd, ArmUbfm32(immr, imms, s.x[rn])).Advance())
  {
    UbfmFits(immr, imms, s.x[rn]);
    UbfmIsRotateAndMask(immr, imms, s.x[rn]);
    UbfmRuns(s, immr, imms, rn, rd);
  }

  lemma UbfmFits(immr: nat, imms: nat, x: u64)
    requires immr < 32 && imms < 32
    ensures ArmUbfm32(immr, imms, x) < TWO32
  {
    assert Pow2(32) == TWO32 by { Pow2Words(); }
  }

  lemma UbfmRuns(s: State, immr: nat, imms: nat, rn: Reg, rd: Reg)
    requires s.Valid() && immr < 32 && imms < 32
    ensures Does(s, MoveBits(false, immr, imms, rn, rd), s.Set(rd, Ubfm(false, immr, imms, s.x[rn])).Advance())
  {
  }

  // ----- constants -----

  /** One MOVZ or MOVK of the halfword that `c` has at `hw`. */
  function MoveHalf(keep: bool, c: u64, hw: nat, rd: Reg): Instr
    requires hw < 4
  {
    MoveWide(true, if keep then 3 else 2, hw, Part(c, hw), rd)
  }

  /** What such a move makes of the register; folded like `Does`. */
  ghost predicate Moves(v: u64, keep: bool, x: u64, c: u64, hw: nat)
    requires hw < 4
  {
    forall z {:trigger Open(z)} :: Open(z) ==> v == if keep then MovK(x, hw, Part(c, hw)) else MovZ(hw, Part(c, hw))
  }

  lemma MoveHalfRuns(s: State, keep: bool, c: u64, hw: nat, rd: Reg) returns (v: u64)
    requires s.Valid() && hw < 4
    ensures Moves(v, keep, s.x[rd], c, hw) && Does(s, MoveHalf(keep, c, hw, rd), s.Set(rd, v).Advance())
  {
    v := if keep then MovK(s.x[rd], hw, Part(c, hw)) else MovZ(hw, Part(c, hw));
  }

  lemma FourMoves(x: u64, c: u64, h0: nat, v0: u64, h1: nat, v1: u64, h2: nat, v2: u64, h3: nat, v3: u64)
    requires h0 < 4 && h1 < 4 && h2 < 4 && h3 < 4
    requires h0 != h1 && h0 != h2 && h0 != h3 && h1 != h2 && h1 != h3 && h2 != h3
    requires Moves(v0, false, x, c, h0) && Moves(v1, true, v0, c, h1) && Moves(v2, true, v1, c, h2)
    requires Moves(v3, true, v2, c, h3)
    ensures v3 == c
  {
    assert Open(0);
    ConstantBuilding(c, h0, h1, h2, h3);
  }

  /** MOVZ of one halfword and MOVK of the other three, in any order, load any 64-bit constant; nothing but the
      register and pc changes. */
  lemma ConstantLoads(s: State, c: u64, h0: nat, h1: nat, h2: nat, h3: nat, rd: Reg)
    returns (s1: State, s2: State, s3: State, t: State)
    requires s.Valid() && h0 < 4 && h1 < 4 && h2 < 4 && h3 < 4
    requires h0 != h1 && h0 != h2 && h0 != h3 && h1 != h2 && h1 != h3 && h2 != h3
    ensures s1.Valid() && s2.Valid() && s3.Valid()
    ensures Does(s, MoveHalf(false, c, h0, rd), s1) && Does(s1, MoveHalf(true, c, h1, rd), s2)
    ensures Does(s2, MoveHalf(true, c, h2, rd), s3) && Does(s3, MoveHalf(true, c, h3, rd), t)
    ensures t == s.(x := s.x[rd := c], pc := U64(s.pc + 16))
  {
    s1 := MoveOne(s, 0, s, false, c, h0, rd);
    s2 := MoveOne(s, 1, s1, true, c, h1, rd);
    s3 := MoveOne(s, 2, s2, true, c, h2, rd);
    t := MoveOne(s, 3, s3, true, c, h3, rd);
    FourMoves(s.x[rd], c, h0, s1.x[rd], h1, s2.x[rd], h2, s3.x[rd], h3, t.x[rd]);
  }

  /** `u` is `s` after `k` such moves. */
  ghost predicate AfterMoves(s: State, k: nat, u: State, rd: Reg)
    requires s.Valid()
  {
    u.Valid() && u == s.(x := s.x[rd := u.x[rd]], pc := U64(s.pc + 4 * k))
  }

  lemma MoveOne(s: State, k: nat, u: State, keep: bool, c: u64, hw: nat, rd: Reg) returns (t: State)
    requires s.Valid() && AfterMoves(s, k, u, rd) && hw < 4
    ensures AfterMoves(s, k + 1, t, rd) && Does(u, MoveHalf(keep, c, hw, rd), t)
    ensures Moves(t.x[rd], keep, u.x[rd], c, hw)
  {
    var v := MoveHalfRuns(u, keep, c, hw, rd);
    t := u.Set(rd, v).Advance();
    NextPc(s.pc, k);
    assert u.x[rd := v] == s.x[rd := v];
  }

  lemma NextPc(pc: u64, k: nat)
    ensures U64(U64(pc + 4 * k) + 4) == U64(pc + 4 * (k + 1))
  {
  }
}
