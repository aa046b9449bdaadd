/** The state after each executed data-processing instruction, written out in numbers and bits. */
module Effects {
  import opened Words
  import opened Util
  import opened Memory
  import opened Flags
  import opened BitMasks
  import opened Immediates
  import opened Listings
  import opened Isa
  import opened Shifts
  import opened Meaning

  // ----- addition and subtraction -----

  /** The integer sum or difference, modulo the width. */
  function SumOf(x: u64, y: u64, sub: bool, is64: bool): u64 { (if sub then x - y else x + y) % Modulus(is64) }

  /** The flags of a 64-bit addition, over the unbounded sums: N is the top bit of the second operand as the adder
      sees it, and C misses the sums from 3 * 2^63 on. */
  function WideFlags(x: u64, y: u64, sub: bool): NZCV
  {
    var y', c := if sub then TWO64 - 1 - y else y, if sub then 1 else 0;
    var sum, signed := x + y' + c, SignedBy(x, TWO63) + SignedBy(y', TWO63) + c;
    NZCV(y' >= TWO63, sum % TWO64 == 0, TWO64 <= sum < 3 * TWO63, !(-TWO63 <= signed < TWO63))
  }

  /** The flags of a 32-bit addition are the architecture's, on the low words. */
  function NarrowFlags(x: u64, y: u64, sub: bool): NZCV
  {
    AddWithCarry(32, x % TWO32, if sub then TWO32 - 1 - y % TWO32 else y % TWO32, sub).1
  }

  lemma FlagsAre(x: u64, y: u64, sub: bool, is64: bool)
    ensures AddImmS(x, y, sub, is64).1 == if is64 then WideFlags(x, y, sub) else NarrowFlags(x, y, sub)
  {
    if is64 { WideFlagsAre(x, y, sub); } else { AddImmS32IsAddWithCarry(x, y, sub); }
  }

  lemma WideFlagsAre(x: u64, y: u64, sub: bool)
    ensures AddImmS64(x, y, sub).1 == WideFlags(x, y, sub)
  {
    var y', sum := Operand64(y, sub), Sum64(x, y, sub);
    var r := if sum < TWO64 then sum else sum - TWO64;
    Wrapped(sum);
    Emulated64(x, y, sub, r);
    Overflow64(x, y', sum, r);
    InRange(x, y', sum, r);
  }

  lemma InRange(x: u64, y: u64, sum: nat, r: u64)
    requires x + y <= sum <= x + y + 1 && r == if sum < TWO64 then sum else sum - TWO64
    ensures SignedBy(x, TWO63) + SignedBy(y, TWO63) + (sum - x - y) == SignedBy(r, TWO63)
            <==> -TWO63 <= SignedBy(x, TWO63) + SignedBy(y, TWO63) + (sum - x - y) < TWO63
  {
  }

  lemma SumIs(x: u64, y: u64, sub: bool, is64: bool)
    ensures Narrow(is64, AddImm(x, y, sub)) == SumOf(x, y, sub, is64)
    ensures Narrow(is64, AddImmS(x, y, sub, is64).0) == SumOf(x, y, sub, is64)
  {
    if is64 { WideSum(x, y, sub); } else { NarrowSumIs(x, y, sub); }
  }

  lemma WideSum(x: u64, y: u64, sub: bool)
    ensures AddImmS64(x, y, sub).0 == SumOf(x, y, sub, true) == AddImm(x, y, sub)
  {
    AddImmIs(x, y, sub);
  }

  lemma NarrowSumIs(x: u64, y: u64, sub: bool)
    ensures AddImmS32(x, y, sub).0 == SumOf(x, y, sub, false) == AddImm(x, y, sub) % TWO32
    ensures AddImmS32(x, y, sub).0 % TWO32 == AddImmS32(x, y, sub).0
  {
    AddImmIs(x, y, sub);
    WordOfWord(if sub then x - y else x + y);
    LowSum(x, y, sub);
  }

  lemma LowSum(x: u64, y: u64, sub: bool)
    ensures AddImmS32(x, y, sub).0 == SumOf(x, y, sub, false)
  {
    DivMod(x, TWO32);
    DivMod(y, TWO32);
    var k := if sub then x / TWO32 - y / TWO32 - 1 else x / TWO32 + y / TWO32;
    var low := x % TWO32 + (if sub then TWO32 - 1 - y % TWO32 + 1 else y % TWO32);
    SameLow(if sub then x - y else x + y, low, k);
  }

  /** The operands: register or sp and the immediate, or two registers, the second one shifted. */
  function Left(s: State, i: Instr): u64
    requires s.Valid() && (i.AddSubImm? || i.AddSubReg?)
  {
    if i.AddSubImm? && i.rn == 31 then s.sp else s.x[i.rn]
  }

  predicate Allocated(i: Instr) { i.AddSubImm? || (i.AddSubReg? && i.kind < 3 && i.amount < if i.is64 then 64 else 32) }

  function Right(s: State, i: Instr): u64
    requires s.Valid() && Allocated(i)
  {
    if i.AddSubImm? then i.imm else Shifted(s.x[i.rm], i.kind, i.amount)
  }

  /** `s` with the result `v` where it goes: register 31 is sp for the immediate form without flags, and nowhere
      for the others. */
  function WithResult(s: State, i: Instr, v: u64): State
    requires s.Valid() && Allocated(i)
  {
    if i.rd != 31 then s.(x := s.x[i.rd := v]) else if i.AddSubImm? && !i.flags then s.(sp := v) else s
  }

  /** ADD, ADDS, SUB and SUBS, of an immediate or of a shifted register, in both widths. */
  lemma AddSubMeans(s: State, i: Instr) returns (t: State)
    requires s.Valid() && Allocated(i)
    ensures Does(s, i, t)
    ensures
      var x, y := Left(s, i), Right(s, i);
      var f := if !i.flags then s.nzcv else if i.is64 then WideFlags(x, y, i.sub) else NarrowFlags(x, y, i.sub);
      t == WithResult(s, i, SumOf(x, y, i.sub, i.is64)).(nzcv := f, pc := U64(s.pc + 4))
  {
    var x, y := Left(s, i), Right(s, i);
    if i.AddSubReg? { ShiftIsArithmetic(s.x[i.rm], i.kind, i.amount); }
    SumIs(x, y, i.sub, i.is64);
    FlagsAre(x, y, i.sub, i.is64);
    var f := if i.flags then AddImmS(x, y, i.sub, i.is64).1 else s.nzcv;
    t := WithResult(s, i, SumOf(x, y, i.sub, i.is64)).(nzcv := f, pc := U64(s.pc + 4));
    if i.AddSubImm? { AddSubImmRuns(s, i, y, t); } else { AddSubRegRuns(s, i, y, t); }
  }

  lemma AddSubImmRuns(s: State, i: Instr, y: u64, t: State)
    requires s.Valid() && i.AddSubImm? && y == i.imm
    requires
      var x := Left(s, i);
      var v := if i.flags then AddImmS(x, y, i.sub, i.is64).0 else AddImm(x, y, i.sub);
      var f := if i.flags then AddImmS(x, y, i.sub, i.is64).1 else s.nzcv;
      t == WithResult(s, i, Narrow(i.is64, v)).(nzcv := f, pc := U64(s.pc + 4))
    ensures Does(s, i, t)
  {
  }

  lemma AddSubRegRuns(s: State, i: Instr, y: u64, t: State)
    requires s.Valid() && i.AddSubReg? && Allocated(i) && y == ShiftWithType(s.x[i.rm], i.kind, i.amount)
    requires
      var x := Left(s, i);
      var v := if i.flags then AddImmS(x, y, i.sub, i.is64).0 else AddImm(x, y, i.sub);
      var f := if i.flags then AddImmS(x, y, i.sub, i.is64).1 else s.nzcv;
      t == WithResult(s, i, Narrow(i.is64, v)).(nzcv := f, pc := U64(s.pc + 4))
    ensures Does(s, i, t)
  {
  }

  /** The shift types and amounts that are not allocated end the process. */
  lemma AddSubRegStops(s: State, i: Instr)
    requires s.Valid() && i.AddSubReg? && !Allocated(i)
    ensures Stops(s, i, Exit(1))
  {
  }

  // ----- ORR and ORN of registers -----

  /** Bit `k` of the disjunction. */
  predicate OrrBit(s: State, i: Instr, k: nat)
    requires s.Valid() && i.Orr? && i.kind < 2 && i.amount < 64
  {
    (i.rn != 31 && Bit(s.x[i.rn], k)) || Bit(Shifted(s.x[i.rm], i.kind, i.amount), k) != i.invert
  }

  /** ORR and ORN, bit by bit.  A 32-bit one keeps the high half of its destination, except that a plain move copies
      all 64 bits. */
  lemma OrrMeans(s: State, i: Instr) returns (v: u64)
    requires s.Valid() && i.Orr? && i.kind < 2 && i.amount < 64
    ensures Does(s, i, s.(x := s.x[i.rd := v], pc := U64(s.pc + 4)))
    ensures
      var whole := i.is64 || (i.kind == 0 && i.amount == 0 && i.rn == 31);
      forall k :: 0 <= k < 64 ==> Bit(v, k) == if whole || k < 32 then OrrBit(s, i, k) else Bit(s.x[i.rd], k)
  {
    var y := Shifted(s.x[i.rm], i.kind, i.amount);
    var op2 := if i.invert then Not64(y) else y;
    var op1 := if i.rn == 31 then 0 else s.x[i.rn];
    OrBound(op1, op2);
    v := if i.kind == 0 && i.amount == 0 && i.rn == 31 then op2 else if i.is64 then Or(op1, op2)
         else SetLower32(s.x[i.rd], Or(op1, op2));
    ShiftIsArithmetic(s.x[i.rm], i.kind, i.amount);
    OrrRuns(s, i, y, op1, op2, v);
    forall k | 0 <= k < 64
      ensures
        var whole := i.is64 || (i.kind == 0 && i.amount == 0 && i.rn == 31);
        Bit(v, k) == if whole || k < 32 then OrrBit(s, i, k) else Bit(s.x[i.rd], k)
    {
      InvertedBit(y, i.invert, k);
      BitOr(op1, op2, k);
      BitZero(k);
      LowerBit(s.x[i.rd], Or(op1, op2), k);
    }
  }

  lemma OrrRuns(s: State, i: Instr, y: u64, op1: u64, op2: u64, v: u64)
    requires s.Valid() && i.Orr? && i.kind < 2 && op1 == if i.rn == 31 then 0 else s.x[i.rn]
    requires y == (if i.kind == 0 then Lsl(s.x[i.rm], i.amount) else Lsr(s.x[i.rm], i.amount))
    requires op2 == (if i.invert then Not64(y) else y) && Or(op1, op2) < TWO64
    requires v == if i.kind == 0 && i.amount == 0 && i.rn == 31 then op2 else if i.is64 then Or(op1, op2)
                  else SetLower32(s.x[i.rd], Or(op1, op2))
    ensures Does(s, i, s.(x := s.x[i.rd := v], pc := U64(s.pc + 4)))
  {
    OrrResult(s, i, y, op1, op2, v);
    OrrCompletes(s, i, s.Set(i.rd, v), s.(x := s.x[i.rd := v], pc := U64(s.pc + 4)));
  }

  lemma OrrResult(s: State, i: Instr, y: u64, op1: u64, op2: u64, v: u64)
    requires s.Valid() && i.Orr? && i.kind < 2 && op1 == if i.rn == 31 then 0 else s.x[i.rn]
    requires y == (if i.kind == 0 then Lsl(s.x[i.rm], i.amount) else Lsr(s.x[i.rm], i.amount))
    requires op2 == (if i.invert then Not64(y) else y) && Or(op1, op2) < TWO64
    requires v == if i.kind == 0 && i.amount == 0 && i.rn == 31 then op2 else if i.is64 then Or(op1, op2)
                  else SetLower32(s.x[i.rd], Or(op1, op2))
    ensures ExecOrr(s, i) == Ok(s.Set(i.rd, v))
  {
  }

  lemma OrrCompletes(s: State, i: Instr, u: State, t: State)
    requires s.Valid() && i.Orr? && ExecOrr(s, i) == Ok(u) && t == u.Advance()
    ensures Does(s, i, t)
  {
  }

  lemma InvertedBit(y: u64, invert: bool, k: nat)
    requires k < 64
    ensures Bit(if invert then Not64(y) else y, k) == (Bit(y, k) != invert)
  {
    Pow2Words();
    BitComplement(y, 64, k);
  }

  lemma LowerBit(dst: u64, src: u64, k: nat)
    requires k < 64
    ensures Bit(SetLower32(dst, src), k) == Bit(if k < 32 then src else dst, k)
  {
    Pow2Words();
    DivMod(dst, TWO32);
    var r := SetLower32(dst, src);
    DivModUnique(r, TWO32, dst / TWO32, src % TWO32);
    if k < 32 {
      BitMod(r, 32, k);
      BitMod(src, 32, k);
    } else {
      BitDiv(r, 32, k - 32);
      BitDiv(dst, 32, k - 32);
    }
  }

  lemma OrrStops(s: State, i: Instr)
    requires s.Valid() && i.Orr? && i.kind >= 2
    ensures Stops(s, i, Exit(0))
  {
  }

  /** A 32-bit logical immediate with a 64-bit mask ends the process. */
  lemma LogicalImmStops(s: State, i: Instr)
    requires s.Valid() && i.LogicalImm? && i.n == 1 && i.imms < 64 && i.immr < 64 && Len(i.n, i.imms) >= 1 && !i.is64
    ensures Stops(s, i, Exit(1))
  {
  }

  // ----- wide moves -----

  predicate WideAllocated(i: Instr) { i.MoveWide? && i.opc != 1 && i.hw < 4 && i.imm < TWO16 && (i.is64 || i.hw < 2) }

  /** Halfword `k` as a number. */
  function HalfwordOf(v: u64, k: nat): nat { v / Pow2(16 * k) % TWO16 }

  /** MOVN leaves the complement and MOVZ the value of the shifted immediate, modulo the width; MOVK replaces one
      halfword, also above bit 31 of a 32-bit destination nothing else changes. */
  lemma MoveWideMeans(s: State, i: Instr) returns (v: u64)
    requires s.Valid() && WideAllocated(i)
    ensures Does(s, i, s.(x := s.x[i.rd := v], pc := U64(s.pc + 4)))
    ensures i.opc == 0 ==> v == (TWO64 - 1 - i.imm * Pow2(16 * i.hw)) % Modulus(i.is64)
    ensures i.opc == 2 ==> v == i.imm * Pow2(16 * i.hw) % Modulus(i.is64)
    ensures i.opc > 2 ==>
              forall k :: 0 <= k < 4 ==> HalfwordOf(v, k) == if k == i.hw then i.imm else HalfwordOf(s.x[i.rd], k)
  {
    v := MovedValue(i.is64, i.opc, s.x[i.rd], i.hw, i.imm);
    MoveWideRuns(s, i, v);
  }

  lemma MovedValue(is64: bool, opc: nat, x: u64, hw: nat, imm: u16) returns (v: u64)
    requires hw < 4
    ensures v == if opc == 0 then Narrow(is64, Not64(MovZ(hw, imm))) else if opc == 2 then Narrow(is64, MovZ(hw, imm))
                 else MovK(x, hw, imm)
    ensures opc == 0 ==> v == (TWO64 - 1 - imm * Pow2(16 * hw)) % Modulus(is64)
    ensures opc == 2 ==> v == imm * Pow2(16 * hw) % Modulus(is64)
    ensures opc != 0 && opc != 2 ==>
              forall k :: 0 <= k < 4 ==> HalfwordOf(v, k) == if k == hw then imm else HalfwordOf(x, k)
  {
    var z := MovZ(hw, imm);
    MovZIs(hw, imm);
    if opc == 0 {
      v := Narrow(is64, Not64(z));
      NarrowIs(is64, Not64(z));
    } else if opc == 2 {
      v := Narrow(is64, z);
      NarrowIs(is64, z);
    } else {
      v := MovK(x, hw, imm);
      forall k | 0 <= k < 4 ensures HalfwordOf(v, k) == if k == hw then imm else HalfwordOf(x, k) {
        KeptHalfword(x, hw, imm, v, k);
      }
    }
  }

  lemma KeptHalfword(x: u64, hw: nat, imm: u16, v: u64, k: nat)
    requires hw < 4 && k < 4 && v == MovK(x, hw, imm)
    ensures HalfwordOf(v, k) == if k == hw then imm else HalfwordOf(x, k)
  {
    MovKHalfword(x, hw, imm, k);
    HalfwordIs(v, k);
    HalfwordIs(x, k);
  }

  lemma HalfwordIs(v: u64, k: nat)
    requires k < 4
    ensures Halfword(v, k) == HalfwordOf(v, k)
  {
    ShiftIs(v, 16 * k, 16 * k + 15);
    assert Pow2(16) == TWO16 by { Pow2Table(); }
  }

  lemma MovZIs(hw: nat, imm: u16)
    requires hw < 4
    ensures MovZ(hw, imm) == imm * Pow2(16 * hw) < TWO64
  {
    ShlIs(imm, 16 * hw);
    assert Pow2(16) == TWO16 by { Pow2Table(); }
    PackBound(imm, 0, Pow2(16), Pow2(16 * hw));
    Pow2Add(16, 16 * hw);
    FitsWord(imm * Pow2(16 * hw), 16 + 16 * hw);
  }

  lemma MoveWideRuns(s: State, i: Instr, v: u64)
    requires s.Valid() && WideAllocated(i)
    requires v == if i.opc == 0 then Narrow(i.is64, Not64(MovZ(i.hw, i.imm)))
                  else if i.opc == 2 then Narrow(i.is64, MovZ(i.hw, i.imm)) else MovK(s.x[i.rd], i.hw, i.imm)
    ensures Does(s, i, s.(x := s.x[i.rd := v], pc := U64(s.pc + 4)))
  {
  }

  lemma MoveWideStops(s: State, i: Instr)
    requires s.Valid() && i.MoveWide? && (i.opc == 1 || (!i.is64 && i.hw >= 2))
    ensures Stops(s, i, Exit(1))
  {
  }

  // ----- 64-bit UBFM -----

  /** Section C6.2 of the Arm ARM: UBFM extracts a field or inserts one into zeros. */
  function ArmUbfm64(immr: nat, imms: nat, x: u64): nat
    requires immr < 64 && imms < 64
  {
    if imms >= immr then x / Pow2(immr) % Pow2(imms - immr + 1) else x % Pow2(imms + 1) * Pow2(64 - immr)
  }

  /** The 64-bit form leaves the low word of that, so it is right exactly when the field ends below bit 32. */
  lemma WideUbfmMeans(s: State, immr: nat, imms: nat, rn: Reg, rd: Reg)
    requires s.Valid() && immr < 64 && imms < 64
    ensures
      var v := ArmUbfm64(immr, imms, s.x[rn]);
      && Does(s, MoveBits(true, immr, imms, rn, rd), s.(x := s.x[rd := v % TWO32], pc := U64(s.pc + 4)))
      && (v % TWO32 == v <==> v < TWO32)
  {
    var low := WideUbfmValue(immr, imms, s.x[rn]);
    WideUbfmRuns(s, immr, imms, rn, rd, low);
  }

  lemma WideUbfmValue(immr: nat, imms: nat, x: u64) returns (low: u64)
    requires immr < 64 && imms < 64
    ensures low == Ubfm(true, immr, imms, x) == ArmUbfm64(immr, imms, x) % TWO32
    ensures low == ArmUbfm64(immr, imms, x) <==> ArmUbfm64(immr, imms, x) < TWO32
  {
    low := ArmUbfm64(immr, imms, x) % TWO32;
    WideUbfmIs(immr, imms, x, ArmUbfm64(immr, imms, x));
  }

  lemma WideUbfmIs(immr: nat, imms: nat, x: u64, v: nat)
    requires immr < 64 && imms < 64 && v == ArmUbfm64(immr, imms, x)
    ensures Ubfm(true, immr, imms, x) == v % TWO32
  {
    if imms >= immr {
      ShiftIs(x, immr, imms);
      LslZeroIs(Shift(x, immr, imms));
    } else {
      ShiftIs(x, 0, imms);
      assert x / Pow2(0) == x;
      ShlIs(Shift(x, 0, imms), 64 - immr);
      WordOfWord(v);
    }
  }

  lemma LslZeroIs(v: u64)
    ensures Lsl(v, 0) == v
  {
  }

  lemma WideUbfmRuns(s: State, immr: nat, imms: nat, rn: Reg, rd: Reg, v: u64)
    requires s.Valid() && immr < 64 && imms < 64 && v == Ubfm(true, immr, imms, s.x[rn])
    ensures Does(s, MoveBits(true, immr, imms, rn, rd), s.(x := s.x[rd := v], pc := U64(s.pc + 4)))
  {
  }
}
