/** The processor state of src/include/cpu.h, and what each modelled instruction of src/cpu.cc does to it. */
module Isa {
  import opened Words
  import opened Util
  import opened Memory
  import opened Bus
  import opened Mmu
  import opened Flags
  import opened BitMasks
  import opened Immediates

  type Reg = r: nat | r < 32

  datatype State = State(
    x: seq<u64>, sp: u64, pc: u64, nzcv: NZCV, el: u8, daif: u64,
    vbar: u64, spEl0: u64, spEl1: u64, elr: u64, esr: u64, spsr: u64, iar: u64,
    mmu: MmuRegs, mem: Storage)
  {
    predicate Valid() { |x| == 32 && |mem.ram| == RAM_SIZE }

    function RegOrSp(n: Reg): u64
      requires |x| == 32
    {
      if n == 31 then sp else x[n]
    }

    /** `xregs[n] = v`. */
    function Set(n: Reg, v: u64): State
      requires |x| == 32
    {
      this.(x := x[n := v])
    }

    function SetOrSp(n: Reg, v: u64): State
      requires |x| == 32
    {
      if n == 31 then this.(sp := v) else Set(n, v)
    }

    /** `increment_pc()`. */
    function Advance(): State { this.(pc := U64(pc + 4)) }

    function Jump(offset: u64): State { this.(pc := U64(pc + offset)) }
  }

  type Imm7 = x: nat | x < 0x80
  type Imm12 = x: nat | x < 0x1000
  type Imm14 = x: nat | x < 0x4000
  type Imm19 = x: nat | x < 0x8_0000
  type Imm26 = x: nat | x < 0x400_0000

  datatype Mode = PostIndex | Offset | PreIndex

  datatype SysReg = Spsr | Elr | SpEl0

  datatype Instr =
    | AddSubImm(is64: bool, sub: bool, flags: bool, imm: u64, rn: Reg, rd: Reg)
    | AddSubReg(is64: bool, sub: bool, flags: bool, kind: nat, amount: nat, rm: Reg, rn: Reg, rd: Reg)
    | LogicalImm(is64: bool, opc: nat, n: nat, imms: nat, immr: nat, rn: Reg, rd: Reg)
    | Orr(is64: bool, invert: bool, kind: nat, amount: nat, rm: Reg, rn: Reg, rd: Reg)
    | MoveWide(is64: bool, opc: nat, hw: nat, imm: u64, rd: Reg)
    | MoveBits(is64: bool, immr: nat, imms: nat, rn: Reg, rd: Reg)
    | Pair(load: bool, wide: bool, mode: Mode, imm7: Imm7, rt: Reg, rt2: Reg, rn: Reg)
    | Single(load: bool, size: Size, mode: Mode, imm12: Imm12, rt: Reg, rn: Reg)
    | B(link: bool, imm26: Imm26)
    | BCond(cond: nat, imm19: Imm19)
    | CompareBranch(is64: bool, nonzero: bool, imm19: Imm19, rt: Reg)
    | TestBranch(set_: bool, pos: nat, imm14: Imm14, rt: Reg)
    | Br(rn: Reg)
    | Blr(rn: Reg)
    | Ret(rn: Reg)
    | Eret
    | Svc
    | SysMove(get: bool, reg: SysReg, rt: Reg)
    | Nop            // a class the emulator only logs
    | Stay           // a class the emulator leaves without moving pc
    | Halt(why: Why)

  // ----- decoding -----

  /** A field of the instruction word: `shift(inst, lo, hi)` with `unit == 2^lo` and `count == 2^(hi - lo + 1)`. */
  function F(inst: u32, unit: nat, count: nat): nat
    requires unit > 0 && count > 0
  {
    inst / unit % count
  }

  /** A five-bit register number. */
  function R(inst: u32, unit: nat): Reg
    requires unit > 0
  {
    F(inst, unit, 32)
  }

  predicate Flag(inst: u32, unit: nat)
    requires unit > 0
  {
    inst / unit % 2 == 1
  }

  lemma FieldIs(inst: u32, lo: nat, hi: nat)
    requires lo <= hi < 32
    ensures Shift(inst, lo, hi) == F(inst, Pow2(lo), Pow2(hi + 1 - lo))
  {
    ShiftIs(inst, lo, hi);
  }

  lemma FlagIs(inst: u32, b: nat)
    requires b < 32
    ensures (BitAt(inst, b) == 1) == Flag(inst, Pow2(b))
  {
    BitIsParity(inst, b);
  }

  lemma Pow2Imm()
    ensures Pow2(14) == 0x4000 && Pow2(19) == 0x8_0000 && Pow2(26) == 0x400_0000
  {
    Pow2Table();
  }

  function SizeOf(n: nat): Size { match n case 0 => Byte case 1 => Hex case 2 => Word case _ => DWord }

  function DecodeAddSubImm(inst: u32): Instr
  {
    var imm := F(inst, 0x400, 0x1000);
    AddSubImm(Flag(inst, 0x80000000), Flag(inst, 0x40000000), Flag(inst, 0x20000000),
          if Flag(inst, 0x400000) then Lsl(imm, 12) else imm, R(inst, 0x20), R(inst, 0x1))
  }

  function DecodeLogicalImm(inst: u32): Instr
  {
    LogicalImm(Flag(inst, 0x80000000), F(inst, 0x20000000, 0x4), F(inst, 0x400000, 2), F(inst, 0x400, 0x40),
          F(inst, 0x10000, 0x40), R(inst, 0x20), R(inst, 0x1))
  }

  function DecodeMoveWide(inst: u32): Instr
  {
    MoveWide(Flag(inst, 0x80000000), F(inst, 0x20000000, 0x4), F(inst, 0x200000, 0x4), F(inst, 0x20, 0x10000),
          R(inst, 0x1))
  }

  function DecodeBitfield(inst: u32): Instr
  {
    if F(inst, 0x20000000, 0x4) != 2 then Halt(Unmodelled)
    else MoveBits(Flag(inst, 0x80000000), F(inst, 0x10000, 0x40), F(inst, 0x400, 0x40), R(inst, 0x20), R(inst, 0x1))
  }

  function DecodeImmClass(inst: u32): Instr
  {
    match F(inst, 0x800000, 0x8)
    case 2 => DecodeAddSubImm(inst)
    case 3 => Nop
    case 4 => DecodeLogicalImm(inst)
    case 5 => DecodeMoveWide(inst)
    case 6 => DecodeBitfield(inst)
    case 7 => Nop
    case _ => Halt(Unmodelled)
  }

  function DecodePair(inst: u32): Instr
  {
    var opc, opt := F(inst, 0x40000000, 0x4), F(inst, 0x800000, 0x8);
    if opc == 1 then Halt(Exit(0))
    else if opc == 3 then Halt(Exit(1))
    else if opt == 0 then Halt(Exit(0))
    else if opt > 3 then Halt(Exit(1))
    else
      Pair(Flag(inst, 0x400000), opc == 2, if opt == 1 then PostIndex else if opt == 2 then Offset else PreIndex,
           F(inst, 0x8000, 0x80), R(inst, 0x1), R(inst, 0x400), R(inst, 0x20))
  }

  function DecodeLdStImmediate(inst: u32): Instr
  {
    var size, opc := F(inst, 0x40000000, 0x4), F(inst, 0x400000, 0x4);
    if Flag(inst, 0x4000000) then Halt(Exit(0))
    else if opc > 1 then Halt(Unmodelled)
    else if Flag(inst, 0x1000000) then
      Single(opc == 1, SizeOf(size), Offset, F(inst, 0x400, 0x1000), R(inst, 0x1), R(inst, 0x20))
    else
      Single(opc == 1, SizeOf(size), if F(inst, 0x400, 0x4) == 1 then PostIndex else PreIndex,
             F(inst, 0x1000, 0x200), R(inst, 0x1), R(inst, 0x20))
  }

  function DecodeLdStRegister(inst: u32): Instr
  {
    if F(inst, 0x800000, 0x4) >= 2 then DecodeLdStImmediate(inst)
    else if Flag(inst, 0x200000) then
      if F(inst, 0x400, 0x4) == 2 then Halt(Unmodelled) else Halt(Exit(0))
    else if F(inst, 0x400, 0x4) == 0 then Halt(Unmodelled)
    else if F(inst, 0x400, 0x4) == 2 then Halt(Exit(0))
    else DecodeLdStImmediate(inst)
  }

  function DecodeLdStClass(inst: u32): Instr
  {
    match F(inst, 0x10000000, 0x10) % 4
    case 2 => DecodePair(inst)
    case 3 => DecodeLdStRegister(inst)
    case _ => Halt(Unmodelled)
  }

  function DecodeAddSubReg(inst: u32): Instr
  {
    AddSubReg(Flag(inst, 0x80000000), Flag(inst, 0x40000000), Flag(inst, 0x20000000), F(inst, 0x400000, 0x4),
          F(inst, 0x400, 0x40), R(inst, 0x10000), R(inst, 0x20), R(inst, 0x1))
  }

  function DecodeLogicalReg(inst: u32): Instr
  {
    if F(inst, 0x20000000, 0x4) != 1 then Halt(Unmodelled)
    else Orr(Flag(inst, 0x80000000), Flag(inst, 0x200000), F(inst, 0x400000, 0x4), F(inst, 0x400, 0x40),
          R(inst, 0x10000), R(inst, 0x20), R(inst, 0x1))
  }

  function DecodeRegClass(inst: u32): Instr
  {
    if Flag(inst, 0x10000000) then Halt(Unmodelled)
    else if F(inst, 0x200000, 0x10) < 8 then DecodeLogicalReg(inst)
    else if F(inst, 0x200000, 0x10) % 2 == 0 then DecodeAddSubReg(inst)
    else Halt(Unmodelled)
  }

  function DecodeBImm(inst: u32): Instr
  {
    B(Flag(inst, 0x80000000), F(inst, 0x1, 0x4000000))
  }

  function DecodeBCond(inst: u32): Instr
  {
    if Flag(inst, 0x1000000) then Halt(Exit(1))
    else if Flag(inst, 0x10) then Halt(Exit(0))
    else BCond(F(inst, 0x1, 0x10), F(inst, 0x20, 0x80000))
  }

  function DecodeCompareBranch(inst: u32): Instr
  {
    CompareBranch(Flag(inst, 0x80000000), Flag(inst, 0x1000000), F(inst, 0x20, 0x80000), R(inst, 0x1))
  }

  function DecodeTestBranch(inst: u32): Instr
  {
    TestBranch(Flag(inst, 0x1000000), (if Flag(inst, 0x80000000) then 32 else 0) + R(inst, 0x80000),
          F(inst, 0x20, 0x4000), R(inst, 0x1))
  }

  function DecodeBranchReg(inst: u32): Instr
  {
    var opc, op2, op3, op4, rn := F(inst, 0x200000, 0x10), F(inst, 0x10000, 0x20), F(inst, 0x400, 0x40),
          F(inst, 0x1, 0x20), R(inst, 0x20);
    match opc
    case 0 =>
      if op2 != 31 then Halt(Exit(1))
      else if op3 != 0 then Halt(Exit(0))
      else if op4 != 0 then Halt(Exit(1))
      else Br(rn)
    case 1 => if op2 == 31 && op3 == 0 && op4 == 0 then Blr(rn) else Halt(Exit(0))
    case 2 => if op3 != 0 then Halt(Exit(0)) else if op4 != 0 then Halt(Exit(1)) else Ret(rn)
    case 4 => if op3 == 0 && rn == 31 && op4 == 0 then Eret else Stay
    case _ => Halt(Exit(0))
  }

  function DecodeException(inst: u32): Instr
  {
    if F(inst, 0x200000, 0x8) != 0 then Halt(Exit(0))
    else if F(inst, 0x4, 0x8) != 0 then Halt(Exit(1))
    else match F(inst, 0x1, 0x4)
      case 1 => Svc
      case 2 => Halt(Unmodelled)
      case 3 => Nop
      case _ => Halt(Exit(1))
  }

  /** Of the system registers only the three that exception return depends on are described. */
  function DecodeSysReg(inst: u32): Instr
  {
    var get, crm, op2, rt := Flag(inst, 0x200000), F(inst, 0x100, 0x10), F(inst, 0x20, 0x8), R(inst, 0x1);
    if crm == 0 && op2 == 0 then SysMove(get, Spsr, rt)
    else if crm == 0 && op2 == 1 then SysMove(get, Elr, rt)
    else if crm == 1 && op2 == 0 then SysMove(get, SpEl0, rt)
    else Halt(Unmodelled)
  }

  function DecodeSystem(inst: u32): Instr
  {
    if inst == 0xd503201f then Nop
    else if Flag(inst, 0x100000) && Flag(inst, 0x80000) && F(inst, 0x10000, 0x8) == 0
          && F(inst, 0x1000, 0x10) == 4 then DecodeSysReg(inst)
    else Halt(Unmodelled)
  }

  function DecodeBranchClass(inst: u32): Instr
  {
    match F(inst, 0x20000000, 0x8)
    case 0 => DecodeBImm(inst)
    case 4 => DecodeBImm(inst)
    case 2 => DecodeBCond(inst)
    case 1 => if Flag(inst, 0x2000000) then DecodeTestBranch(inst) else DecodeCompareBranch(inst)
    case 5 => if Flag(inst, 0x2000000) then DecodeTestBranch(inst) else DecodeCompareBranch(inst)
    case 6 =>
      (match F(inst, 0x1000000, 0x4)
       case 0 => DecodeException(inst)
       case 1 => DecodeSystem(inst)
       case _ => DecodeBranchReg(inst))
    case _ => Stay
  }

  function Decode(inst: u32): Instr
  {
    match F(inst, 0x2000000, 0x10)
    case 0 => Halt(Exit(0))
    case 1 => Halt(Exit(1))
    case 2 => Halt(Exit(0))
    case 3 => Halt(Exit(1))
    case 5 => DecodeRegClass(inst)
    case 13 => DecodeRegClass(inst)
    case 7 => Nop
    case 15 => Nop
    case 8 => DecodeImmClass(inst)
    case 9 => DecodeImmClass(inst)
    case 10 => DecodeBranchClass(inst)
    case 11 => DecodeBranchClass(inst)
    case _ => DecodeLdStClass(inst)
  }

  // ----- memory -----

  function Load(s: State, va: u64, size: Size): Try<u64>
    requires s.Valid()
  {
    match Translate(s.mem.ram, s.mmu, va)
    case Stop(why) => Stop(why)
    case Ok(pa) => BusLoad(s.mem.ram, pa, size)
  }

  function Store(s: State, va: u64, value: u64, size: Size): (r: Try<State>)
    requires s.Valid()
    ensures r.Ok? ==> r.value.Valid() && r.value == s.(mem := r.value.mem)
  {
    match Translate(s.mem.ram, s.mmu, va)
    case Stop(why) => Stop(why)
    case Ok(pa) =>
      match BusStore(s.mem, pa, value, size)
      case Stop(why) => Stop(why)
      case Ok(mem) => Ok(s.(mem := mem))
  }

  // ----- execution -----

  /** Displacements of the branch classes, in the form each handler computes them. */
  function Offset26(imm: Imm26): u64 { Pow2Imm(); BranchOffset(imm, 26) }

  function Offset19(imm: Imm19): u64 { Pow2Imm(); BranchOffset(imm, 19) }

  function CompareOffset19(imm: Imm19): u64 { Pow2Imm(); CompareBranchOffset(imm, 19) }

  function Offset14(imm: Imm14): u64 { Pow2Imm(); BranchOffset(imm, 14) }

  /** The scaled signed offset of a pair access. */
  function PairOffset(imm7: Imm7, wide: bool): u64 { Lsl(SignExtend(imm7, 7), if wide then 3 else 2) }

  /** The offset of a single access: scaled and unsigned, or a signed nine-bit one for the indexed modes. */
  function SingleOffset(imm12: Imm12, size: Size, mode: Mode): u64
  {
    if mode == Offset then Lsl(imm12, match size case Byte => 0 case Hex => 1 case Word => 2 case DWord => 3)
    else SignExtend(imm12, 9)
  }

  /** The low word, for a 32-bit operation. */
  function Narrow(is64: bool, v: u64): u64 { if is64 then v else v % TWO32 }

  function ExecAddSubImm(s: State, i: Instr): State
    requires s.Valid() && i.AddSubImm?
  {
    if i.flags then
      var (result, f) := AddImmS(s.RegOrSp(i.rn), i.imm, i.sub, i.is64);
      if i.rd == 31 then s.(nzcv := f) else s.(nzcv := f).Set(i.rd, Narrow(i.is64, result))
    else
      s.SetOrSp(i.rd, Narrow(i.is64, AddImm(s.RegOrSp(i.rn), i.imm, i.sub)))
  }

  function ExecAddSubReg(s: State, i: Instr): (r: Try<State>)
    requires s.Valid() && i.AddSubReg?
    ensures r.Ok? ==> r.value.Valid()
  {
    if i.kind >= 3 || i.amount >= 64 || (!i.is64 && i.amount >= 32) then Stop(Exit(1))
    else
      var op2 := ShiftWithType(s.x[i.rm], i.kind, i.amount);
      if i.flags then
        var (result, f) := AddImmS(s.x[i.rn], op2, i.sub, i.is64);
        Ok(if i.rd == 31 then s.(nzcv := f) else s.(nzcv := f).Set(i.rd, Narrow(i.is64, result)))
      else
        Ok(if i.rd == 31 then s else s.Set(i.rd, Narrow(i.is64, AddImm(s.x[i.rn], op2, i.sub))))
  }

  /** The flags ANDS sets; Z is that of the 64-bit result for both widths. */
  function AndsFlags(is64: bool, result: u64): NZCV
  {
    NZCV(if is64 then result >= TWO63 else result % TWO32 >= TWO31, result == 0, false, false)
  }

  /** Where the result of a logical immediate goes; ANDS also sets the flags and does not write sp. */
  function LogicalOutcome(s: State, i: Instr, result: u64): (t: State)
    requires s.Valid() && i.LogicalImm?
    ensures t.Valid()
  {
    if i.opc == 3 then
      var s' := s.(nzcv := AndsFlags(i.is64, result));
      if i.rd == 31 then s' else s'.Set(i.rd, Narrow(i.is64, result))
    else
      s.SetOrSp(i.rd, Narrow(i.is64, result))
  }

  function ExecLogicalImm(s: State, i: Instr): (r: Try<State>)
    requires s.Valid() && i.LogicalImm?
    ensures r.Ok? ==> r.value.Valid()
  {
    if !(i.n < 2 && i.imms < 64 && i.immr < 64) || Len(i.n, i.imms) < 1 then Stop(Unmodelled)
    else if !i.is64 && i.n == 1 then Stop(Exit(1))
    else
      var e := ESize(i.n, i.imms);
      Ok(LogicalOutcome(s, i, Logical(i.opc, if i.rn == 31 then 0 else s.x[i.rn], WMask(e, i.imms % e, i.immr % e))))
  }

  function ExecOrr(s: State, i: Instr): (r: Try<State>)
    requires s.Valid() && i.Orr?
    ensures r.Ok? ==> r.value.Valid()
  {
    if i.kind >= 2 then Stop(Exit(0))
    else
      var shifted := if i.kind == 0 then Lsl(s.x[i.rm], i.amount) else Lsr(s.x[i.rm], i.amount);
      var op2 := if i.invert then Not64(shifted) else shifted;
      if i.kind == 0 && i.amount == 0 && i.rn == 31 then Ok(s.Set(i.rd, op2))
      else
        var op1 := if i.rn == 31 then 0 else s.x[i.rn];
        OrBound(op1, op2);
        Ok(s.Set(i.rd, if i.is64 then Or(op1, op2) else SetLower32(s.x[i.rd], Or(op1, op2))))
  }

  function ExecMoveWide(s: State, i: Instr): (r: Try<State>)
    requires s.Valid() && i.MoveWide?
    ensures r.Ok? ==> r.value.Valid()
  {
    if i.opc == 1 || (!i.is64 && i.hw >= 2) then Stop(Exit(1))
    else if i.hw >= 4 || i.imm >= TWO16 then Stop(Unmodelled)
    else match i.opc
      case 0 => Ok(s.Set(i.rd, Narrow(i.is64, Not64(MovZ(i.hw, i.imm)))))
      case 2 => Ok(s.Set(i.rd, Narrow(i.is64, MovZ(i.hw, i.imm))))
      case _ => Ok(s.Set(i.rd, MovK(s.x[i.rd], i.hw, i.imm)))
  }

  function ExecMoveBits(s: State, i: Instr): Try<State>
    requires s.Valid() && i.MoveBits?
  {
    if i.immr >= 64 || i.imms >= 64 || (!i.is64 && (i.immr >= 32 || i.imms >= 32)) then Stop(Unmodelled)
    else Ok(s.Set(i.rd, Ubfm(i.is64, i.immr, i.imms, s.x[i.rn])))
  }

  function Access(i: Instr): Size
    requires i.Pair?
  {
    if i.wide then DWord else Word
  }

  /** Write-back of a pair access to its base register. */
  function WriteBack(s: State, i: Instr, base: u64): State
    requires s.Valid() && i.Pair?
  {
    if i.mode == Offset then s else s.SetOrSp(i.rn, U64(base + PairOffset(i.imm7, i.wide)))
  }

  /** The address of the second register of a pair. */
  function NextTo(addr: u64, i: Instr): u64
    requires i.Pair?
  {
    if i.wide then U64(addr + 8) else U64(addr + 4)
  }

  /** Both loads of a pair. */
  function PairLoad(s: State, i: Instr, addr: u64): (r: Try<State>)
    requires s.Valid() && i.Pair?
    ensures r.Ok? ==> r.value.Valid()
  {
    match Load(s, addr, Access(i))
    case Stop(why) => Stop(why)
    case Ok(v1) =>
      match Load(s, NextTo(addr, i), Access(i))
      case Stop(why) => Stop(why)
      case Ok(v2) => Ok(s.Set(i.rt, v1).Set(i.rt2, v2))
  }

  /** Both stores of a pair. */
  function PairStore(s: State, i: Instr, addr: u64): (r: Try<State>)
    requires s.Valid() && i.Pair?
    ensures r.Ok? ==> r.value.Valid()
  {
    match Store(s, addr, s.x[i.rt], Access(i))
    case Stop(why) => Stop(why)
    case Ok(s1) => Store(s1, NextTo(addr, i), s.x[i.rt2], Access(i))
  }

  function PairTransfer(s: State, i: Instr, addr: u64): (r: Try<State>)
    requires s.Valid() && i.Pair?
    ensures r.Ok? ==> r.value.Valid()
  {
    if i.load then PairLoad(s, i, addr) else PairStore(s, i, addr)
  }

  function PairAddr(base: u64, i: Instr): u64
    requires i.Pair?
  {
    if i.mode == PostIndex then base else U64(base + PairOffset(i.imm7, i.wide))
  }

  function ExecPair(s: State, i: Instr): (r: Try<State>)
    requires s.Valid() && i.Pair?
    ensures r.Ok? ==> r.value.Valid()
  {
    var base := s.RegOrSp(i.rn);
    match PairTransfer(s, i, PairAddr(base, i))
    case Stop(why) => Stop(why)
    case Ok(t) => Ok(WriteBack(t, i, base))
  }

  /** Indexed single accesses write `xregs[rn]` back even when the base was sp. */
  function WriteBackSingle(s: State, i: Instr): State
    requires s.Valid() && i.Single?
  {
    if i.mode == Offset then s else s.Set(i.rn, U64(s.x[i.rn] + SingleOffset(i.imm12, i.size, i.mode)))
  }

  function SingleAddr(base: u64, i: Instr): u64
    requires i.Single?
  {
    if i.mode == PostIndex then base else U64(base + SingleOffset(i.imm12, i.size, i.mode))
  }

  function SingleTransfer(s: State, i: Instr, addr: u64): (r: Try<State>)
    requires s.Valid() && i.Single?
    ensures r.Ok? ==> r.value.Valid()
  {
    if i.load then
      match Load(s, addr, i.size)
      case Stop(why) => Stop(why)
      case Ok(v) => Ok(s.Set(i.rt, ZeroExtend(v, 8 * Bytes(i.size))))
    else Store(s, addr, s.x[i.rt], i.size)
  }

  function ExecSingle(s: State, i: Instr): (r: Try<State>)
    requires s.Valid() && i.Single?
    ensures r.Ok? ==> r.value.Valid()
  {
    match SingleTransfer(s, i, SingleAddr(s.RegOrSp(i.rn), i))
    case Stop(why) => Stop(why)
    case Ok(t) => Ok(WriteBackSingle(t, i))
  }

  /** SPSR after an entry from EL0 or from EL1: only the low three bits are written. */
  function SpsrAfterEntry(spsr: u64, el: u8): (v: u64)
    ensures v % 8 == if el == 0 then 0 else 5
    ensures v / 8 == spsr / 8
  {
    spsr / 8 * 8 + if el == 0 then 0 else 5
  }

  /** The part of an exception entry that SVC and interrupts share; the two vector offsets differ. */
  function Enter(s: State, elr: u64, fromUser: int, fromKernel: int): State
  {
    var s1 := s.(elr := elr, spsr := SpsrAfterEntry(s.spsr, s.el));
    if s.el == 0 then s1.(spEl0 := s.sp, sp := s.spEl1, el := 1, pc := U64(s.vbar + fromUser))
    else s1.(pc := U64(s.vbar + fromKernel))
  }

  function ExecSvc(s: State): State
  {
    OrBound(s.esr, 0x5400_0000);
    Enter(s.(esr := Or(s.esr, 0x5400_0000)), U64(s.pc + 4), 0x400, 0x200)
  }

  /** cause_interrupt. */
  function CauseInterrupt(s: State, irq: u64): State { Enter(s.(iar := irq), s.pc, 0x480, 0x280) }

  function ExecEret(s: State): State
  {
    var s1 := s.(spEl1 := s.sp, pc := s.elr);
    if s.spsr % 8 == 0 || !Bit(s1.pc, 63) then s1.(el := 0, sp := s.spEl0) else s1
  }

  /** MSR SPSR_EL1 does what MRS does: it reads. */
  function ExecSysMove(s: State, i: Instr): State
    requires s.Valid() && i.SysMove?
  {
    match i.reg
    case Spsr => s.Set(i.rt, s.spsr)
    case Elr => if i.get then s.Set(i.rt, s.elr) else s.(elr := s.x[i.rt])
    case SpEl0 => if i.get then s.Set(i.rt, s.spEl0) else s.(spEl0 := s.x[i.rt])
  }

  function ExecRet(s: State, i: Instr): Try<State>
    requires s.Valid() && i.Ret?
  {
    var target := s.x[if i.rn == 0 then 30 else i.rn];
    if target == 0 then Stop(Exit(0)) else Ok(s.(pc := target))
  }

  function ExecBlr(s: State, i: Instr): State
    requires s.Valid() && i.Blr?
  {
    var s1 := s.Set(30, U64(s.pc + 4));
    s1.(pc := s1.x[i.rn])
  }

  function ExecCompareBranch(s: State, i: Instr): State
    requires s.Valid() && i.CompareBranch?
  {
    if (Narrow(i.is64, s.x[i.rt]) != 0) == i.nonzero then s.Jump(CompareOffset19(i.imm19)) else s.Advance()
  }

  function ExecTestBranch(s: State, i: Instr): State
    requires s.Valid() && i.TestBranch?
  {
    if Bit(s.x[i.rt], i.pos) == i.set_ then s.Jump(Offset14(i.imm14)) else s.Advance()
  }

  function Moved(r: Try<State>): Try<State>
  {
    match r
    case Stop(why) => Stop(why)
    case Ok(s) => Ok(s.Advance())
  }

  function ExecAlu(s: State, i: Instr): (r: Try<State>)
    requires s.Valid()
    ensures r.Ok? ==> r.value.Valid()
  {
    match i
    case AddSubImm(_, _, _, _, _, _) => Ok(ExecAddSubImm(s, i))
    case AddSubReg(_, _, _, _, _, _, _, _) => ExecAddSubReg(s, i)
    case LogicalImm(_, _, _, _, _, _, _) => ExecLogicalImm(s, i)
    case Orr(_, _, _, _, _, _, _) => ExecOrr(s, i)
    case MoveWide(_, _, _, _, _) => ExecMoveWide(s, i)
    case MoveBits(_, _, _, _, _) => ExecMoveBits(s, i)
    case _ => Ok(s)
  }

  /** Data processing changes only registers, sp and flags. */
  lemma AluChanges(s: State, i: Instr)
    requires s.Valid() && ExecAlu(s, i).Ok?
    ensures var t := ExecAlu(s, i).value; t == s.(x := t.x, sp := t.sp, nzcv := t.nzcv)
  {
    match i
    case LogicalImm(_, _, _, _, _, _, _) => LogicalChanges(s, i);
    case MoveWide(_, _, _, _, _) => MoveWideChanges(s, i);
    case _ =>
  }

  lemma LogicalChanges(s: State, i: Instr)
    requires s.Valid() && i.LogicalImm? && ExecLogicalImm(s, i).Ok?
    ensures var t := ExecLogicalImm(s, i).value; t == s.(x := t.x, sp := t.sp, nzcv := t.nzcv)
  {
  }

  lemma MoveWideChanges(s: State, i: Instr)
    requires s.Valid() && i.MoveWide? && ExecMoveWide(s, i).Ok?
    ensures var t := ExecMoveWide(s, i).value; t == s.(x := t.x)
  {
  }

  /** Instructions after which the dispatcher increments pc. */
  function ExecData(s: State, i: Instr): (r: Try<State>)
    requires s.Valid()
    ensures r.Ok? ==> r.value.Valid()
  {
    match i
    case Pair(_, _, _, _, _, _, _) => ExecPair(s, i)
    case Single(_, _, _, _, _, _) => ExecSingle(s, i)
    case SysMove(_, _, _) => Ok(ExecSysMove(s, i))
    case Halt(why) => Stop(why)
    case _ => ExecAlu(s, i)
  }

  /** Instructions that set pc themselves. */
  function ExecControl(s: State, i: Instr): (r: Try<State>)
    requires s.Valid()
    ensures r.Ok? ==> r.value.Valid()
  {
    match i
    case B(link, imm) => Ok((if link then s.Set(30, U64(s.pc + 4)) else s).Jump(Offset26(imm)))
    case BCond(cond, imm) => Ok(if CheckBFlag(cond, s.nzcv) then s.Jump(Offset19(imm)) else s.Advance())
    case CompareBranch(_, _, _, _) => Ok(ExecCompareBranch(s, i))
    case TestBranch(_, _, _, _) => Ok(ExecTestBranch(s, i))
    case Br(rn) => Ok(s.(pc := s.x[rn]))
    case Blr(_) => Ok(ExecBlr(s, i))
    case Ret(_) => ExecRet(s, i)
    case Eret => Ok(ExecEret(s))
    case Svc => Ok(ExecSvc(s))
    case _ => Ok(s)
  }

  predicate IsControl(i: Instr)
  {
    i.B? || i.BCond? || i.CompareBranch? || i.TestBranch? || i.Br? || i.Blr? || i.Ret? || i.Eret? || i.Svc? || i.Stay?
  }

  function Exec(s: State, i: Instr): (r: Try<State>)
    requires s.Valid()
    ensures r.Ok? ==> r.value.Valid()
  {
    if IsControl(i) then ExecControl(s, i) else Moved(ExecData(s, i))
  }

  /** Fetch; a zero word ends the main loop. */
  function FetchWord(s: State): Try<u32>
    requires s.Valid()
  {
    match Load(s, s.pc, Word)
    case Stop(why) => Stop(why)
    case Ok(w) => if w % TWO32 == 0 then Stop(NoInstruction) else Ok(w % TWO32)
  }

  /** One fetched and executed instruction. */
  function Step(s: State): (r: Try<State>)
  {
    if !s.Valid() then Stop(Unmodelled)
    else
      match FetchWord(s)
      case Stop(why) => Stop(why)
      case Ok(inst) => Exec(s, Decode(inst))
  }
}
