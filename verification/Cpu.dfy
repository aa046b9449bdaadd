/** src/cpu.cc and the main loop of src/emulator.cc: the processor as an object whose methods decode an
    instruction and update its registers in place, each proved to do what module Isa says. */
module Processor {
  import opened Words
  import opened Util
  import opened Memory
  import opened Virtio
  import opened Bus
  import opened Mmu
  import opened Flags
  import opened BitMasks
  import opened Immediates
  import opened Isa
  import opened Machines
  import opened Pairs

  /** A method that returned `r` in state `now` did what was wanted. */
  ghost predicate Did(want: Try<State>, r: Try<()>, now: State)
  {
    match r
    case Ok(_) => want == Ok(now)
    case Stop(why) => want == Stop(why)
  }

  lemma SingleCompletes(s: State, i: Instr, base: u64, t: State)
    requires s.Valid() && t.Valid() && i.Single? && base == s.RegOrSp(i.rn)
    requires SingleTransfer(s, i, SingleAddr(base, i)) == Ok(t)
    ensures ExecSingle(s, i) == Ok(WriteBackSingle(t, i))
  {
  }

  /** The outcome of a logical immediate in terms of its result. */
  lemma LogicalResult(s: State, i: Instr, xrn: u64, imm: u64, result: u64)
    requires s.Valid() && i.LogicalImm? && i.n < 2 && i.imms < 64 && i.immr < 64 && Len(i.n, i.imms) >= 1
    requires (i.is64 || i.n == 0) && xrn == (if i.rn == 31 then 0 else s.x[i.rn]) && result == Logical(i.opc, xrn, imm)
    requires var e := ESize(i.n, i.imms); imm == WMask(e, i.imms % e, i.immr % e)
    ensures ExecLogicalImm(s, i) == Ok(LogicalOutcome(s, i, result))
  {
  }

  class Cpu {
    const bus: SystemBus
    const xregs: array<u64>
    var mmu: MmuRegs
    var pc: u64
    var sp: u64
    var nzcv: NZCV
    var el: u8
    var daif: u64
    var vbar: u64
    var spEl0: u64
    var spEl1: u64
    var elr: u64
    var esr: u64
    var spsr: u64
    var iar: u64
    var timerCount: u64

    ghost predicate Valid()
    {
      && xregs.Length == 32
      && bus.Valid()
      && Apart(xregs, bus.mem.data) && Apart(xregs, bus.virtio.disk)
    }

    static ghost predicate Apart(a: object, b: object) { a != b }

    /** The processor's registers, RAM and device registers as a value. */
    ghost function Now(): (s: State)
      requires Valid()
      reads this, xregs, bus.mem.data, bus.virtio
      ensures s.Valid()
    {
      State(xregs[..], sp, pc, nzcv, el, daif, vbar, spEl0, spEl1, elr, esr, spsr, iar, mmu, bus.Contents())
    }

    /** What the constructor and the field initialisers set; the other registers start with any value. */
    constructor (bus: SystemBus, entry: u64, base: u64)
      requires bus.Valid()
      ensures Valid() && this.bus == bus && fresh(xregs)
      ensures Now().pc == entry && Now().sp == base && Now().el == 1 && Now().daif == 0x3c0
      ensures !Now().mmu.Enabled() && forall n :: 0 <= n < 32 ==> Now().x[n] == 0
    {
      this.bus := bus;
      xregs := new u64[32](_ => 0);
      pc, sp := entry, base;
      el, daif := 1, 0x3c0;
      mmu := MmuRegs(0, 0, 0xc50838, 0);
    }

    // ----- register updates -----

    method SetRegister(n: Reg, v: u64)
      requires Valid()
      modifies xregs
      ensures Now() == old(Now()).Set(n, v)
    {
      xregs[n] := v;
    }

    method IncrementPc()
      requires Valid()
      modifies this`pc
      ensures Now() == old(Now()).Advance()
    {
      pc := U64(pc + 4);
    }

    method SetPc(target: u64)
      requires Valid()
      modifies this`pc
      ensures Now() == old(Now()).(pc := target)
    {
      pc := target;
    }

    method JumpBy(offset: u64)
      requires Valid()
      modifies this`pc
      ensures Now() == old(Now()).Jump(offset)
    {
      SetPc(U64(pc + offset));
    }

    method SetSp(v: u64)
      requires Valid()
      modifies this`sp
      ensures Now() == old(Now()).(sp := v)
    {
      sp := v;
    }

    method SetFlags(f: NZCV)
      requires Valid()
      modifies this`nzcv
      ensures Now() == old(Now()).(nzcv := f)
    {
      nzcv := f;
    }

    method SetRegisterOrSp(n: Reg, v: u64)
      requires Valid()
      modifies this`sp, xregs
      ensures Now() == old(Now()).SetOrSp(n, v)
    {
      if n == 31 { sp := v; } else { xregs[n] := v; }
    }

    // ----- memory -----

    method Load(address: u64, size: Size) returns (r: Try<u64>)
      requires Valid()
      ensures r == Isa.Load(Now(), address, size)
    {
      var paddr := Translate(bus.mem.data[..], mmu, address);
      match paddr {
        case Stop(why) => r := Stop(why);
        case Ok(pa) => r := bus.Load(pa, size);
      }
    }

    method Store(address: u64, value: u64, size: Size) returns (r: Try<()>)
      requires Valid()
      modifies bus.mem.data, bus.virtio
      ensures Did(Isa.Store(old(Now()), address, value, size), r, Now())
    {
      var paddr := Translate(bus.mem.data[..], mmu, address);
      match paddr {
        case Stop(why) => r := Stop(why);
        case Ok(pa) => r := bus.Store(pa, value, size);
      }
    }

    method Fetch() returns (r: Try<u32>)
      requires Valid()
      ensures r == FetchWord(Now())
    {
      var w := Load(pc, Word);
      match w {
        case Stop(why) => r := Stop(why);
        case Ok(v) => r := if v % TWO32 == 0 then Stop(NoInstruction) else Ok(v % TWO32);
      }
    }

    // ----- data processing -----

    method AddSubImm(i: Instr)
      requires Valid() && i.AddSubImm?
      modifies this`sp, this`nzcv, xregs
      ensures Now() == ExecAddSubImm(old(Now()), i)
    {
      var op1 := if i.rn == 31 then sp else xregs[i.rn];
      var result: u64;
      if i.flags {
        var sum := AddImmS(op1, i.imm, i.sub, i.is64);
        result := sum.0;
        SetFlags(sum.1);
      } else {
        result := AddImm(op1, i.imm, i.sub);
      }
      if i.rd == 31 {
        if i.flags { return; }
        SetSp(Narrow(i.is64, result));
      } else {
        SetRegister(i.rd, Narrow(i.is64, result));
      }
    }

    method AddSubReg(i: Instr) returns (r: Try<()>)
      requires Valid() && i.AddSubReg?
      modifies this`nzcv, xregs
      ensures Did(ExecAddSubReg(old(Now()), i), r, Now())
    {
      if i.kind >= 3 || i.amount >= 64 || (!i.is64 && i.amount >= 32) { return Stop(Exit(1)); }
      r := Ok(());
      var op1 := xregs[i.rn];
      var op2 := ShiftWithType(xregs[i.rm], i.kind, i.amount);
      var result: u64;
      if i.flags {
        var sum := AddImmS(op1, op2, i.sub, i.is64);
        result := sum.0;
        SetFlags(sum.1);
      } else {
        result := AddImm(op1, op2, i.sub);
      }
      if i.rd == 31 { return; }
      SetRegister(i.rd, Narrow(i.is64, result));
    }

    method LogicalImm(i: Instr) returns (r: Try<()>)
      requires Valid() && i.LogicalImm?
      modifies this`sp, this`nzcv, xregs
      ensures Did(ExecLogicalImm(old(Now()), i), r, Now())
    {
      if !(i.n < 2 && i.imms < 64 && i.immr < 64) || Len(i.n, i.imms) < 1 { return Stop(Unmodelled); }
      var imm := DecodeBitMasks(i.n, i.imms, i.immr);
      if !i.is64 && i.n == 1 { return Stop(Exit(1)); }
      r := Ok(());
      var xrn := if i.rn == 31 then 0 else xregs[i.rn];
      var result := Logical(i.opc, xrn, imm);
      LogicalResult(Now(), i, xrn, imm, result);
      FinishLogical(i, result);
    }

    method FinishLogical(i: Instr, result: u64)
      requires Valid() && i.LogicalImm?
      modifies this`sp, this`nzcv, xregs
      ensures Now() == LogicalOutcome(old(Now()), i, result)
    {
      if i.opc == 3 {
        var top := if i.is64 then result >= TWO63 else result % TWO32 >= TWO31;
        SetFlags(NZCV(top, result == 0, false, false));
        if i.rd == 31 { return; }
      }
      SetRegisterOrSp(i.rd, Narrow(i.is64, result));
    }

    method LogicalReg(i: Instr) returns (r: Try<()>)
      requires Valid() && i.Orr?
      modifies xregs
      ensures Did(ExecOrr(old(Now()), i), r, Now())
    {
      var op1 := if i.rn == 31 then 0 else xregs[i.rn];
      var op2 := xregs[i.rm];
      match i.kind {
        case 0 => op2 := Lsl(op2, i.amount);
        case 1 => op2 := Lsr(op2, i.amount);
        case _ => return Stop(Exit(0));
      }
      if i.invert { op2 := Not64(op2); }
      r := Ok(());
      if i.kind == 0 && i.amount == 0 && i.rn == 31 {
        SetRegister(i.rd, op2);
        return;
      }
      OrBound(op1, op2);
      var result: u64 := Or(op1, op2);
      SetRegister(i.rd, if i.is64 then result else SetLower32(xregs[i.rd], result));
    }

    method MoveWide(i: Instr) returns (r: Try<()>)
      requires Valid() && i.MoveWide?
      modifies xregs
      ensures Did(ExecMoveWide(old(Now()), i), r, Now())
    {
      if i.opc == 1 || (!i.is64 && i.hw >= 2) { return Stop(Exit(1)); }
      if i.hw >= 4 || i.imm >= TWO16 { return Stop(Unmodelled); }
      r := Ok(());
      var imm := MovZ(i.hw, i.imm);
      match i.opc {
        case 0 => SetRegister(i.rd, Narrow(i.is64, Not64(imm)));
        case 2 => SetRegister(i.rd, Narrow(i.is64, imm));
        case _ => SetRegister(i.rd, MovK(xregs[i.rd], i.hw, i.imm));
      }
    }

    method Bitfield(i: Instr) returns (r: Try<()>)
      requires Valid() && i.MoveBits?
      modifies xregs
      ensures Did(ExecMoveBits(old(Now()), i), r, Now())
    {
      if i.immr >= 64 || i.imms >= 64 || (!i.is64 && (i.immr >= 32 || i.imms >= 32)) { return Stop(Unmodelled); }
      r := Ok(());
      var len, from, to;
      if i.imms >= i.immr {
        len, from, to := i.imms - i.immr + 1, i.immr, 0;
      } else {
        len, from, to := i.imms + 1, 0, if i.is64 then 64 - i.immr else 32 - i.immr;
      }
      var imm: u32 := Lsl(Shift(xregs[i.rn], from, from + len - 1), to) % TWO32;
      SetRegister(i.rd, imm);
    }

    // ----- loads and stores -----

    method PairAccess(i: Instr) returns (r: Try<()>)
      requires Valid() && i.Pair?
      modifies this`sp, xregs, bus.mem.data, bus.virtio
      ensures Did(ExecPair(old(Now()), i), r, Now())
    {
      ghost var s := Now();
      var offset := PairOffset(i.imm7, i.wide);
      var base := if i.rn == 31 then sp else xregs[i.rn];
      var address := if i.mode == PostIndex then base else U64(base + offset);
      assert address == PairAddr(base, i);
      if i.load {
        r := LoadPair(i, address);
      } else {
        r := StorePair(i, address);
      }
      assert Did(PairTransfer(s, i, address), r, Now());
      if r.Stop? { return; }
      PairCompletes(s, i, base, Now());
      if i.mode != Offset { FinishPair(i, base, address, offset); }
    }

    /** Write-back: a post-indexed address has yet to be moved on. */
    method FinishPair(i: Instr, ghost base: u64, address: u64, offset: u64)
      requires Valid() && i.Pair? && i.mode != Offset
      requires address == PairAddr(base, i) && offset == PairOffset(i.imm7, i.wide)
      modifies this`sp, xregs
      ensures Now() == WriteBack(old(Now()), i, base)
    {
      var moved := if i.mode == PostIndex then U64(address + offset) else address;
      SetRegisterOrSp(i.rn, moved);
    }

    method LoadPair(i: Instr, address: u64) returns (r: Try<()>)
      requires Valid() && i.Pair?
      modifies xregs
      ensures Did(PairLoad(old(Now()), i, address), r, Now())
    {
      var data1 := Load(address, Access(i));
      if data1.Stop? { return Stop(data1.why); }
      var data2 := Load(NextTo(address, i), Access(i));
      if data2.Stop? { return Stop(data2.why); }
      SetRegister(i.rt, data1.value);
      SetRegister(i.rt2, data2.value);
      r := Ok(());
    }

    method StorePair(i: Instr, address: u64) returns (r: Try<()>)
      requires Valid() && i.Pair?
      modifies bus.mem.data, bus.virtio
      ensures Did(PairStore(old(Now()), i, address), r, Now())
    {
      var data2 := xregs[i.rt2];
      r := Store(address, xregs[i.rt], Access(i));
      if r.Ok? { r := Store(NextTo(address, i), data2, Access(i)); }
    }

    method SingleAccess(i: Instr) returns (r: Try<()>)
      requires Valid() && i.Single?
      modifies xregs, bus.mem.data, bus.virtio
      ensures Did(ExecSingle(old(Now()), i), r, Now())
    {
      ghost var s := Now();
      var offset := SingleOffset(i.imm12, i.size, i.mode);
      var base := if i.rn == 31 then sp else xregs[i.rn];
      var address := if i.mode == PostIndex then base else U64(base + offset);
      assert address == SingleAddr(base, i);
      r := Transfer(i, address);
      if r.Stop? { return; }
      SingleCompletes(s, i, base, Now());
      if i.mode != Offset { FinishSingle(i, offset); }
    }

    method FinishSingle(i: Instr, offset: u64)
      requires Valid() && i.Single? && i.mode != Offset && offset == SingleOffset(i.imm12, i.size, i.mode)
      modifies xregs
      ensures Now() == WriteBackSingle(old(Now()), i)
    {
      var index: int := xregs[i.rn];
      SetRegister(i.rn, U64(index + offset));
    }

    method Transfer(i: Instr, address: u64) returns (r: Try<()>)
      requires Valid() && i.Single?
      modifies xregs, bus.mem.data, bus.virtio
      ensures Did(SingleTransfer(old(Now()), i, address), r, Now())
    {
      if i.load {
        var value := Load(address, i.size);
        if value.Stop? { return Stop(value.why); }
        SetRegister(i.rt, ZeroExtend(value.value, 8 * Bytes(i.size)));
        r := Ok(());
      } else {
        r := Store(address, xregs[i.rt], i.size);
      }
    }

    // ----- branches, exceptions, system registers -----

    method BranchImm(i: Instr)
      requires Valid() && i.B?
      modifies this`pc, xregs
      ensures ExecControl(old(Now()), i) == Ok(Now())
    {
      if i.link { SetRegister(30, U64(pc + 4)); }
      JumpBy(Offset26(i.imm26));
    }

    method BranchCond(i: Instr)
      requires Valid() && i.BCond?
      modifies this`pc
      ensures ExecControl(old(Now()), i) == Ok(Now())
    {
      if CheckBFlag(i.cond, nzcv) { JumpBy(Offset19(i.imm19)); } else { IncrementPc(); }
    }

    method CompareAndBranch(i: Instr)
      requires Valid() && i.CompareBranch?
      modifies this`pc
      ensures Now() == ExecCompareBranch(old(Now()), i)
    {
      var value := if i.is64 then xregs[i.rt] else xregs[i.rt] % TWO32;
      var jump := if i.nonzero then value != 0 else value == 0;
      if jump { JumpBy(CompareOffset19(i.imm19)); } else { IncrementPc(); }
    }

    method TestAndBranch(i: Instr)
      requires Valid() && i.TestBranch?
      modifies this`pc
      ensures Now() == ExecTestBranch(old(Now()), i)
    {
      var jump := Bit(xregs[i.rt], i.pos) == i.set_;
      JumpBy(if jump then Offset14(i.imm14) else 4);
    }

    method BranchReg(i: Instr) returns (r: Try<()>)
      requires Valid() && (i.Br? || i.Blr? || i.Ret?)
      modifies this`pc, xregs
      ensures Did(ExecControl(old(Now()), i), r, Now())
    {
      r := Ok(());
      match i {
        case Br(rn) =>
          SetPc(xregs[rn]);
        case Blr(rn) =>
          SetRegister(30, U64(pc + 4));
          SetPc(xregs[rn]);
        case Ret(rn) =>
          var target := xregs[if rn == 0 then 30 else rn];
          if target == 0 { return Stop(Exit(0)); }
          SetPc(target);
      }
    }

    method ExceptionReturn()
      requires Valid()
      modifies this`spEl1, this`pc, this`el, this`sp
      ensures Now() == ExecEret(old(Now()))
    {
      spEl1 := sp;
      pc := elr;
      if spsr % 8 == 0 || !Bit(pc, 63) {
        el := 0;
        sp := spEl0;
      }
    }

    /** The branch on the current level that SVC and interrupts have in common. */
    method EnterKernel(fromUser: int, fromKernel: int)
      requires Valid()
      modifies this`spsr, this`spEl0, this`sp, this`el, this`pc
      ensures Now() == Enter(old(Now()), elr, fromUser, fromKernel)
    {
      if el == 0 {
        spsr := spsr / 8 * 8;
        spEl0 := sp;
        sp := spEl1;
        el := 1;
        pc := U64(vbar + fromUser);
      } else {
        spsr := spsr / 8 * 8 + 5;
        pc := U64(vbar + fromKernel);
      }
    }

    method SupervisorCall()
      requires Valid()
      modifies this`elr, this`esr, this`spsr, this`spEl0, this`sp, this`el, this`pc
      ensures Now() == ExecSvc(old(Now()))
    {
      elr := U64(pc + 4);
      OrBound(esr, 0x5400_0000);
      esr := Or(esr, 0x5400_0000);
      EnterKernel(0x400, 0x200);
    }

    method CauseInterrupt(irq: u64)
      requires Valid()
      modifies this`elr, this`iar, this`spsr, this`spEl0, this`sp, this`el, this`pc
      ensures Now() == Isa.CauseInterrupt(old(Now()), irq)
    {
      elr := pc;
      iar := irq;
      EnterKernel(0x480, 0x280);
    }

    method SystemRegisterMove(i: Instr)
      requires Valid() && i.SysMove?
      modifies this`elr, this`spEl0, xregs
      ensures Now() == ExecSysMove(old(Now()), i)
    {
      match i.reg {
        case Spsr => SetRegister(i.rt, spsr);
        case Elr => if i.get { SetRegister(i.rt, elr); } else { elr := xregs[i.rt]; }
        case SpEl0 => if i.get { SetRegister(i.rt, spEl0); } else { spEl0 := xregs[i.rt]; }
      }
    }

    // ----- dispatch -----

    method DataProcessing(i: Instr) returns (r: Try<()>)
      requires Valid()
      modifies this`sp, this`nzcv, xregs
      ensures Did(ExecAlu(old(Now()), i), r, Now())
    {
      r := Ok(());
      match i {
        case AddSubImm(_, _, _, _, _, _) => AddSubImm(i);
        case AddSubReg(_, _, _, _, _, _, _, _) => r := AddSubReg(i);
        case LogicalImm(_, _, _, _, _, _, _) => r := LogicalImm(i);
        case Orr(_, _, _, _, _, _, _) => r := LogicalReg(i);
        case MoveWide(_, _, _, _, _) => r := MoveWide(i);
        case MoveBits(_, _, _, _, _) => r := Bitfield(i);
        case _ =>
      }
    }

    method LoadStore(i: Instr) returns (r: Try<()>)
      requires Valid() && (i.Pair? || i.Single?)
      modifies this`sp, xregs, bus.mem.data, bus.virtio
      ensures Did(ExecData(old(Now()), i), r, Now())
    {
      if i.Pair? { r := PairAccess(i); } else { r := SingleAccess(i); }
    }

    method NotControl(i: Instr) returns (r: Try<()>)
      requires Valid()
      modifies this`sp, this`nzcv, this`elr, this`spEl0, xregs, bus.mem.data, bus.virtio
      ensures Did(ExecData(old(Now()), i), r, Now())
    {
      if i.Pair? || i.Single? { r := LoadStore(i); } else { r := NoAccess(i); }
    }

    method NoAccess(i: Instr) returns (r: Try<()>)
      requires Valid() && !i.Pair? && !i.Single?
      modifies this`sp, this`nzcv, this`elr, this`spEl0, xregs
      ensures Did(ExecData(old(Now()), i), r, Now())
    {
      r := Ok(());
      if i.SysMove? {
        SystemRegisterMove(i);
      } else if i.Halt? {
        r := Stop(i.why);
      } else {
        r := DataProcessing(i);
      }
    }

    method Branch(i: Instr) returns (r: Try<()>)
      requires Valid() && !i.Eret? && !i.Svc?
      modifies this`pc, xregs
      ensures Did(ExecControl(old(Now()), i), r, Now())
    {
      r := Ok(());
      match i {
        case B(_, _) => BranchImm(i);
        case BCond(_, _) => BranchCond(i);
        case CompareBranch(_, _, _, _) => CompareAndBranch(i);
        case TestBranch(_, _, _, _) => TestAndBranch(i);
        case Br(_) => r := BranchReg(i);
        case Blr(_) => r := BranchReg(i);
        case Ret(_) => r := BranchReg(i);
        case _ =>
      }
    }

    method Control(i: Instr) returns (r: Try<()>)
      requires Valid()
      modifies this, xregs
      ensures timerCount == old(timerCount)
      ensures Did(ExecControl(old(Now()), i), r, Now())
    {
      r := Ok(());
      if i.Eret? { ExceptionReturn(); } else if i.Svc? { SupervisorCall(); } else { r := Branch(i); }
    }

    method DecodeStart(inst: u32) returns (r: Try<()>)
      requires Valid()
      modifies this, xregs, bus.mem.data, bus.virtio
      ensures timerCount == old(timerCount)
      ensures Did(Exec(old(Now()), Decode(inst)), r, Now())
    {
      var i := Decode(inst);
      r := Execute(i);
    }

    method Execute(i: Instr) returns (r: Try<()>)
      requires Valid()
      modifies this, xregs, bus.mem.data, bus.virtio
      ensures timerCount == old(timerCount)
      ensures Did(Exec(old(Now()), i), r, Now())
    {
      if IsControl(i) {
        r := Control(i);
      } else {
        r := NotControl(i);
        if r.Ok? { IncrementPc(); }
      }
    }

    // ----- interrupts -----

    /** The whole machine as a value. */
    ghost function All(): (m: Machine)
      requires Valid()
      reads this, xregs, bus.mem.data, bus.virtio, bus.virtio.disk
      ensures m.s == Now() && m.s.Valid()
    {
      Machine(Now(), bus.virtio.disk[..], timerCount)
    }

    static ghost predicate DidAll(want: Try<Machine>, r: Try<()>, now: Machine)
    {
      match r
      case Ok(_) => want == Ok(now)
      case Stop(why) => want == Stop(why)
    }

    method ServeRequest() returns (r: Try<()>)
      requires Valid()
      modifies bus.mem.data, bus.virtio, bus.virtio.disk
      ensures DidAll(ServeDisk(old(All())), r, All())
    {
      var vio := bus.virtio;
      if vio.queue.None? || vio.queueNum == 0 { return Stop(Unmodelled); }
      var want := ReadRequest(bus.mem.data[..], vio.queue.value, vio.queueNum);
      if want.Stop? { return Stop(want.why); }
      if !Servable(vio.disk[..], vio.queue.value, vio.queueNum, vio.id, want.value) { return Stop(Unmodelled); }
      var req := vio.DiskAccess(bus.mem);
      r := Ok(());
    }

    method CheckInterrupt(uart: bool) returns (r: Try<()>)
      requires Valid()
      modifies this, bus.mem.data, bus.virtio, bus.virtio.disk
      ensures DidAll(Checked(old(All()), uart), r, All())
    {
      r := Ok(());
      if Bit(daif, 9) { return; }
      var pending := bus.virtio.IsInterrupting();
      if pending {
        assert All() == Consumed(old(All()));
        r := ServeRequest();
        if r.Ok? { CauseInterrupt(0x30); }
      } else if !Bit(pc, 63) && timerCount % 100 == 0 {
        CauseInterrupt(0x1b);
      } else if uart {
        CauseInterrupt(0x21);
      }
    }
  }
}
