/** Straight-line reasoning about programs in memory: with the MMU off, what one fetched instruction of each
    kind that the test programs use does to the state. */
module Programs {
  import opened Words
  import opened Util
  import opened Memory
  import opened Virtio
  import opened Bus
  import opened Mmu
  import opened Flags
  import opened Immediates
  import opened Isa
  import opened Listings
  import opened Pairs

  /** A program and the address it is loaded at. */
  datatype Program = Program(base: u64, code: seq<u32>)

  /** The words of `p` are in RAM, and the byte after them, which a fetch also reads, exists. */
  ghost predicate Placed(ram: Ram, p: Program)
  {
    && |ram| == RAM_SIZE
    && RAM_BASE <= p.base && p.base + 4 * |p.code| < RAM_BASE + RAM_SIZE
    && forall k :: 0 <= k < |p.code| ==> p.code[k] != 0 && Get(ram, p.base + 4 * k - RAM_BASE, 4) == p.code[k]
  }

  /** The processor is about to execute word `k` of `p`, with translation off. */
  ghost predicate At(s: State, p: Program, k: nat)
  {
    s.Valid() && !s.mmu.Enabled() && Placed(s.mem.ram, p) && k < |p.code| && s.pc == p.base + 4 * k
  }

  /** `f` is the emulator's step.  Runs are stated for a step function given by this property, so that the
      proofs about whole programs see an instruction only through the lemmas below. */
  ghost predicate Emulates(f: State -> Try<State>)
  {
    forall s, z {:trigger f(s), Open(z)} :: Open(z) ==> f(s) == Step(s)
  }

  lemma Fetches(s: State, p: Program, k: nat)
    requires At(s, p, k)
    ensures FetchWord(s) == Ok(p.code[k])
  {
    var pa := s.pc;
    assert Translate(s.mem.ram, s.mmu, pa) == Ok(pa);
    assert InHost(pa, 5) && Select(pa) == Memory;
    assert BusLoad(s.mem.ram, pa, Word) == Ok(p.code[k]);
  }

  lemma StepIs(f: State -> Try<State>, s: State, p: Program, k: nat, i: Instr, t: State)
    requires Emulates(f) && At(s, p, k) && Reads(p.code[k], i) && Does(s, i, t)
    ensures f(s) == Ok(t)
  {
    Fetches(s, p, k);
    assert Open(0);
  }

  /** Inside RAM incrementing pc does not wrap. */
  lemma NextWord(s: State, p: Program, k: nat)
    requires At(s, p, k)
    ensures s.Advance().pc == p.base + 4 * (k + 1)
    ensures U64(s.pc + 4) == p.base + 4 * (k + 1)
  {
  }

  /** Nor does a branch to another word of the program. */
  lemma BranchTo(s: State, p: Program, k: nat, d: int)
    requires At(s, p, k) && 0 <= k + d < |p.code|
    ensures s.Jump(U64(4 * d)).pc == p.base + 4 * (k + d)
  {
  }

  // ----- data in RAM -----

  function Peek(s: State, addr: int, n: nat): nat
    requires s.Valid() && InHost(addr, n)
  {
    Get(s.mem.ram, addr - RAM_BASE, n)
  }

  function Poke(s: State, addr: int, n: nat, v: nat): State
    requires s.Valid() && InHost(addr, n)
  {
    s.(mem := s.mem.(ram := Put(s.mem.ram, addr - RAM_BASE, n, v)))
  }

  lemma LoadIs(s: State, addr: u64, size: Size)
    requires s.Valid() && !s.mmu.Enabled() && InHost(addr, Span(size))
    ensures Bytes(size) <= Span(size) && Load(s, addr, size) == Ok(Peek(s, addr, Bytes(size)))
  {
    assert Translate(s.mem.ram, s.mmu, addr) == Ok(addr);
    assert InHost(addr, Span(size)) && Select(addr) == Memory;
  }

  lemma StoreIs(s: State, addr: u64, size: Size, v: u64)
    requires s.Valid() && !s.mmu.Enabled() && InHost(addr, Bytes(size))
    ensures Store(s, addr, v, size) == Ok(Poke(s, addr, Bytes(size), v))
  {
    assert Translate(s.mem.ram, s.mmu, addr) == Ok(addr);
    assert InHost(addr, Bytes(size)) && Select(addr) == Memory;
  }

  /** Code outside the changed bytes stays in place. */
  lemma CodeKept(a: Ram, b: Ram, p: Program, lo: int, hi: int)
    requires Placed(a, p) && SameOutside(a, b, lo, hi)
    requires hi <= p.base - RAM_BASE || p.base - RAM_BASE + 4 * |p.code| <= lo
    ensures Placed(b, p)
  {
    forall k | 0 <= k < |p.code| ensures Get(b, p.base + 4 * k - RAM_BASE, 4) == p.code[k] {
      GetFrame(a, b, p.base + 4 * k - RAM_BASE, 4);
    }
  }

  lemma PlacedPut(r: Ram, p: Program, off: nat, n: nat, v: nat)
    requires Placed(r, p) && off + n <= |r|
    requires off + n <= p.base - RAM_BASE || p.base - RAM_BASE + 4 * |p.code| <= off
    ensures Placed(Put(r, off, n, v), p)
  {
    CodeKept(r, Put(r, off, n, v), p, off, off + n);
  }

  // ----- one instruction -----

  function W32(v: int): u64 { v % TWO32 }

  function Plus(a: int, b: int): int { a + b }

  function Minus(a: int, b: int): int { a - b }

  lemma ExecLdr(s: State, i: Instr, offset: u64)
    requires s.Valid() && !s.mmu.Enabled() && i.Single? && i == Single(true, i.size, Offset, i.imm12, i.rt, 31)
    requires offset == i.imm12 * Bytes(i.size) && InHost(U64(s.sp + offset), Span(i.size))
    ensures Bytes(i.size) <= Span(i.size) && Peek(s, U64(s.sp + offset), Bytes(i.size)) < TWO64
    ensures Does(s, i, s.Set(i.rt, Peek(s, U64(s.sp + offset), Bytes(i.size))).Advance())
  {
    ScaledOffset(i.imm12, i.size);
    LoadIs(s, U64(s.sp + offset), i.size);
    ZeroExtendPeek(s, U64(s.sp + offset), i.size);
    ExecSingleLoad(s, i, U64(s.sp + offset), Peek(s, U64(s.sp + offset), Bytes(i.size)));
    ExecOfSingle(s, i, s.Set(i.rt, Peek(s, U64(s.sp + offset), Bytes(i.size))));
  }

  lemma ExecOfSingle(s: State, i: Instr, t: State)
    requires s.Valid() && i.Single? && ExecSingle(s, i) == Ok(t)
    ensures Does(s, i, t.Advance())
  {
  }

  lemma ExecSingleLoad(s: State, i: Instr, addr: u64, v: u64)
    requires s.Valid() && i.Single? && i.load && i.mode == Offset && i.rn == 31
    requires addr == U64(s.sp + SingleOffset(i.imm12, i.size, Offset)) && Load(s, addr, i.size) == Ok(v)
    requires ZeroExtend(v, 8 * Bytes(i.size)) == v
    ensures ExecSingle(s, i) == Ok(s.Set(i.rt, v))
  {
  }

  lemma ZeroExtendPeek(s: State, addr: u64, size: Size)
    requires s.Valid() && InHost(addr, Bytes(size))
    ensures Peek(s, addr, Bytes(size)) < TWO64
    ensures ZeroExtend(Peek(s, addr, Bytes(size)), 8 * Bytes(size)) == Peek(s, addr, Bytes(size))
  {
    var v := Peek(s, addr, Bytes(size));
    GetBound(s.mem.ram, addr - RAM_BASE, Bytes(size));
    Pow2Mono(8 * Bytes(size), 64);
    Pow2Words();
    ZeroExtendIs(v, 8 * Bytes(size));
    DivModUnique(v, Pow2(8 * Bytes(size)), 0, v);
  }

  /** LDR with an unsigned offset from sp. */
  lemma StepLdr(f: State -> Try<State>, s: State, p: Program, k: nat, size: Size, imm: Imm12, offset: u64, rt: Reg)
    requires Emulates(f) && At(s, p, k) && Reads(p.code[k], Single(true, size, Offset, imm, rt, 31))
    requires offset == imm * Bytes(size) && InHost(U64(s.sp + offset), Span(size))
    ensures Bytes(size) <= Span(size) && Peek(s, U64(s.sp + offset), Bytes(size)) < TWO64
    ensures f(s) == Ok(s.Set(rt, Peek(s, U64(s.sp + offset), Bytes(size))).Advance())
  {
    var i := Single(true, size, Offset, imm, rt, 31);
    ExecLdr(s, i, offset);
    StepIs(f, s, p, k, i, s.Set(rt, Peek(s, U64(s.sp + offset), Bytes(size))).Advance());
  }

  lemma ExecSingleStore(s: State, i: Instr, addr: u64, s1: State)
    requires s.Valid() && i.Single? && !i.load && i.mode == Offset && i.rn == 31
    requires addr == U64(s.sp + SingleOffset(i.imm12, i.size, Offset)) && Store(s, addr, s.x[i.rt], i.size) == Ok(s1)
    ensures ExecSingle(s, i) == Ok(s1)
  {
  }

  lemma ExecStr(s: State, i: Instr, offset: u64)
    requires s.Valid() && !s.mmu.Enabled() && i.Single? && i == Single(false, i.size, Offset, i.imm12, i.rt, 31)
    requires offset == i.imm12 * Bytes(i.size) && InHost(U64(s.sp + offset), Bytes(i.size))
    ensures Does(s, i, Poke(s, U64(s.sp + offset), Bytes(i.size), s.x[i.rt]).Advance())
  {
    var addr: u64 := U64(s.sp + offset);
    ScaledOffset(i.imm12, i.size);
    StoreIs(s, addr, i.size, s.x[i.rt]);
    ExecSingleStore(s, i, addr, Poke(s, addr, Bytes(i.size), s.x[i.rt]));
    ExecOfSingle(s, i, Poke(s, addr, Bytes(i.size), s.x[i.rt]));
  }

  /** STR with an unsigned offset from sp. */
  lemma StepStr(f: State -> Try<State>, s: State, p: Program, k: nat, size: Size, imm: Imm12, offset: u64, rt: Reg)
    requires Emulates(f) && At(s, p, k) && Reads(p.code[k], Single(false, size, Offset, imm, rt, 31))
    requires offset == imm * Bytes(size) && InHost(U64(s.sp + offset), Bytes(size))
    ensures f(s) == Ok(Poke(s, U64(s.sp + offset), Bytes(size), s.x[rt]).Advance())
  {
    var i := Single(false, size, Offset, imm, rt, 31);
    ExecStr(s, i, offset);
    StepIs(f, s, p, k, i, Poke(s, U64(s.sp + offset), Bytes(size), s.x[rt]).Advance());
  }

  function Pushed(s: State, room: u64, rt: Reg, rt2: Reg): State
    requires s.Valid() && room <= s.sp && InHost(s.sp - room, 16)
  {
    Poke(Poke(s, s.sp - room, 8, s.x[rt]), s.sp - room + 8, 8, s.x[rt2]).(sp := s.sp - room)
  }

  lemma PushPlace(sp: u64, i: Instr, room: u64)
    requires i.Pair? && i.wide && i.mode == PreIndex && room + 8 * SignedBy(i.imm7, 64) == 0
    requires 0 < room <= sp && InHost(sp - room, 16)
    ensures PairAddr(sp, i) == sp - room && NextTo(sp - room, i) == sp - room + 8
  {
    WidePairOffset(i.imm7);
  }

  lemma PopPlace(sp: u64, i: Instr, room: u64)
    requires i.Pair? && i.wide && i.mode == PostIndex && 8 * SignedBy(i.imm7, 64) == room && InHost(sp, 16)
    ensures PairAddr(sp, i) == sp && NextTo(sp, i) == sp + 8 && U64(sp + PairOffset(i.imm7, i.wide)) == U64(sp + room)
  {
    WidePairOffset(i.imm7);
  }

  lemma StoreWord64(s: State, addr: u64, v: u64)
    requires s.Valid() && !s.mmu.Enabled() && InHost(addr, 8)
    ensures Store(s, addr, v, DWord) == Ok(Poke(s, addr, 8, v))
  {
    StoreIs(s, addr, DWord, v);
  }

  lemma ExecPush(s: State, i: Instr, room: u64)
    requires s.Valid() && !s.mmu.Enabled() && 0 < room <= s.sp && InHost(s.sp - room, 16)
    requires i.Pair? && i == Pair(false, true, PreIndex, i.imm7, i.rt, i.rt2, 31)
    requires room + 8 * SignedBy(i.imm7, 64) == 0
    ensures Does(s, i, Pushed(s, room, i.rt, i.rt2).Advance())
  {
    var addr: u64 := s.sp - room;
    var s1 := Poke(s, addr, 8, s.x[i.rt]);
    PushPlace(s.sp, i, room);
    StoreWord64(s, addr, s.x[i.rt]);
    StoreWord64(s1, addr + 8, s.x[i.rt2]);
    StorePairOnSp(s, i, addr, s1, Poke(s1, addr + 8, 8, s.x[i.rt2]), Pushed(s, room, i.rt, i.rt2).Advance());
  }

  /** STP of two 64-bit registers, pre-indexed on sp. */
  lemma StepPush(f: State -> Try<State>, s: State, p: Program, k: nat, imm: Imm7, room: u64, rt: Reg, rt2: Reg)
    requires Emulates(f) && At(s, p, k) && 0 < room <= s.sp
    requires Reads(p.code[k], Pair(false, true, PreIndex, imm, rt, rt2, 31)) && room + 8 * SignedBy(imm, 64) == 0
    requires InHost(s.sp - room, 16)
    ensures f(s) == Ok(Pushed(s, room, rt, rt2).Advance())
  {
    var i := Pair(false, true, PreIndex, imm, rt, rt2, 31);
    ExecPush(s, i, room);
    StepIs(f, s, p, k, i, Pushed(s, room, rt, rt2).Advance());
  }

  function Popped(s: State, room: u64, rt: Reg, rt2: Reg): State
    requires s.Valid() && InHost(s.sp, 16)
  {
    s.Set(rt, Word64(s, s.sp)).Set(rt2, Word64(s, s.sp + 8)).(sp := U64(s.sp + room))
  }

  function Word64(s: State, addr: int): u64
    requires s.Valid() && InHost(addr, 8)
  {
    GetBound(s.mem.ram, addr - RAM_BASE, 8);
    Pow2Words();
    Peek(s, addr, 8)
  }

  lemma LoadWord64(s: State, addr: u64)
    requires s.Valid() && !s.mmu.Enabled() && InHost(addr, 8)
    ensures Load(s, addr, DWord) == Ok(Word64(s, addr))
  {
    LoadIs(s, addr, DWord);
  }

  lemma PoppedIs(s: State, room: u64, rt: Reg, rt2: Reg)
    requires s.Valid() && InHost(s.sp, 16)
    ensures Popped(s, room, rt, rt2).Advance()
            == s.(sp := U64(s.sp + room), pc := U64(s.pc + 4),
                  x := s.x[rt := Word64(s, s.sp)][rt2 := Word64(s, s.sp + 8)])
  {
  }

  lemma ExecPop(s: State, i: Instr, room: u64)
    requires s.Valid() && !s.mmu.Enabled() && InHost(s.sp, 16)
    requires i.Pair? && i == Pair(true, true, PostIndex, i.imm7, i.rt, i.rt2, 31) && 8 * SignedBy(i.imm7, 64) == room
    ensures Does(s, i, Popped(s, room, i.rt, i.rt2).Advance())
  {
    PopPlace(s.sp, i, room);
    LoadWord64(s, s.sp);
    LoadWord64(s, s.sp + 8);
    PoppedIs(s, room, i.rt, i.rt2);
    LoadPairOnSp(s, i, Word64(s, s.sp), Word64(s, s.sp + 8), U64(s.sp + room),
          Popped(s, room, i.rt, i.rt2).Advance());
  }

  /** LDP of two 64-bit registers, post-indexed on sp. */
  lemma StepPop(f: State -> Try<State>, s: State, p: Program, k: nat, imm: Imm7, room: u64, rt: Reg, rt2: Reg)
    requires Emulates(f) && At(s, p, k)
    requires Reads(p.code[k], Pair(true, true, PostIndex, imm, rt, rt2, 31)) && 8 * SignedBy(imm, 64) == room
    requires InHost(s.sp, 16)
    ensures f(s) == Ok(Popped(s, room, rt, rt2).Advance())
  {
    var i := Pair(true, true, PostIndex, imm, rt, rt2, 31);
    ExecPop(s, i, room);
    StepIs(f, s, p, k, i, Popped(s, room, rt, rt2).Advance());
  }

  /** 64-bit ADD or SUB of an immediate to sp. */
  lemma StepSpImm(f: State -> Try<State>, s: State, p: Program, k: nat, sub: bool, imm: u64, rd: Reg)
    requires Emulates(f) && At(s, p, k) && Reads(p.code[k], AddSubImm(true, sub, false, imm, 31, rd))
    ensures f(s) == Ok(s.SetOrSp(rd, U64(if sub then s.sp - imm else s.sp + imm)).Advance())
  {
    AddImmIs(s.sp, imm, sub);
    StepIs(f, s, p, k, AddSubImm(true, sub, false, imm, 31, rd), s.SetOrSp(rd, AddImm(s.sp, imm, sub)).Advance());
  }

  /** 32-bit SUB of an immediate from a general register. */
  lemma StepSubW(f: State -> Try<State>, s: State, p: Program, k: nat, imm: u64, rn: Reg, rd: Reg)
    requires Emulates(f) && At(s, p, k) && Reads(p.code[k], AddSubImm(false, true, false, imm, rn, rd))
    requires rn != 31 && rd != 31
    ensures f(s) == Ok(s.Set(rd, W32(Minus(s.x[rn], imm))).Advance())
  {
    AddImmIs(s.x[rn], imm, true);
    LowWord(Minus(s.x[rn], imm));
    StepIs(f, s, p, k, AddSubImm(false, true, false, imm, rn, rd), s.Set(rd, W32(Minus(s.x[rn], imm))).Advance());
  }

  lemma LowWord(v: int)
    ensures U64(v) % TWO32 == W32(v)
  {
  }

  /** 32-bit ADD of two general registers. */
  lemma StepAddW(f: State -> Try<State>, s: State, p: Program, k: nat, rm: Reg, rn: Reg, rd: Reg)
    requires Emulates(f) && At(s, p, k) && Reads(p.code[k], AddSubReg(false, false, false, 0, 0, rm, rn, rd))
    requires rd != 31
    ensures f(s) == Ok(s.Set(rd, W32(Plus(s.x[rn], s.x[rm]))).Advance())
  {
    ExecAddW(s, rm, rn, rd);
    StepIs(f, s, p, k, AddSubReg(false, false, false, 0, 0, rm, rn, rd),
          s.Set(rd, W32(Plus(s.x[rn], s.x[rm]))).Advance());
  }

  lemma ExecAddW(s: State, rm: Reg, rn: Reg, rd: Reg)
    requires s.Valid() && rd != 31
    ensures Does(s, AddSubReg(false, false, false, 0, 0, rm, rn, rd),
                 s.Set(rd, W32(Plus(s.x[rn], s.x[rm]))).Advance())
  {
    LslZero(s.x[rm]);
    AddImmIs(s.x[rn], s.x[rm], false);
    LowWord(Plus(s.x[rn], s.x[rm]));
  }

  lemma LslZero(v: u64)
    ensures Lsl(v, 0) == v
  {
  }

  /** 32-bit CMP of a general register with an immediate. */
  lemma StepCmpW(f: State -> Try<State>, s: State, p: Program, k: nat, imm: u64, rn: Reg)
    requires Emulates(f) && At(s, p, k) && Reads(p.code[k], AddSubImm(false, true, true, imm, rn, 31))
    requires rn != 31
    ensures f(s) == Ok(s.(nzcv := AddImmS32(s.x[rn], imm, true).1).Advance())
  {
    StepIs(f, s, p, k, AddSubImm(false, true, true, imm, rn, 31),
          s.(nzcv := AddImmS32(s.x[rn], imm, true).1).Advance());
  }

  lemma StepBCond(f: State -> Try<State>, s: State, p: Program, k: nat, cond: nat, imm: Imm19, d: int)
    requires Emulates(f) && At(s, p, k) && Reads(p.code[k], BCond(cond, imm)) && d == SignedBy(imm, 0x4_0000)
    ensures f(s) == Ok(if CheckBFlag(cond, s.nzcv) then s.Jump(U64(4 * d)) else s.Advance())
  {
    Offset19Is(imm);
    StepIs(f, s, p, k, BCond(cond, imm), if CheckBFlag(cond, s.nzcv) then s.Jump(U64(4 * d)) else s.Advance());
  }

  lemma StepB(f: State -> Try<State>, s: State, p: Program, k: nat, link: bool, imm: Imm26, d: int)
    requires Emulates(f) && At(s, p, k) && Reads(p.code[k], B(link, imm)) && d == SignedBy(imm, 0x200_0000)
    ensures f(s) == Ok((if link then s.Set(30, U64(s.pc + 4)) else s).Jump(U64(4 * d)))
  {
    Offset26Is(imm);
    StepIs(f, s, p, k, B(link, imm), (if link then s.Set(30, U64(s.pc + 4)) else s).Jump(U64(4 * d)));
  }

  lemma ExecMovW(s: State, imm: u16, rd: Reg)
    requires s.Valid()
    ensures Does(s, MoveWide(false, 2, 0, imm, rd), s.Set(rd, imm).Advance())
  {
    assert MovZ(0, imm) == imm by { LslZero(imm); }
  }

  /** MOVZ of a small immediate to a 32-bit register. */
  lemma StepMovW(f: State -> Try<State>, s: State, p: Program, k: nat, imm: u16, rd: Reg)
    requires Emulates(f) && At(s, p, k) && Reads(p.code[k], MoveWide(false, 2, 0, imm, rd))
    ensures f(s) == Ok(s.Set(rd, imm).Advance())
  {
    ExecMovW(s, imm, rd);
    StepIs(f, s, p, k, MoveWide(false, 2, 0, imm, rd), s.Set(rd, imm).Advance());
  }

  /** MOV between registers: ORR with the zero register copies all 64 bits. */
  lemma StepMovReg(f: State -> Try<State>, s: State, p: Program, k: nat, rm: Reg, rd: Reg)
    requires Emulates(f) && At(s, p, k) && Reads(p.code[k], Orr(false, false, 0, 0, rm, 31, rd))
    ensures f(s) == Ok(s.Set(rd, s.x[rm]).Advance())
  {
    LslZero(s.x[rm]);
    StepIs(f, s, p, k, Orr(false, false, 0, 0, rm, 31, rd), s.Set(rd, s.x[rm]).Advance());
  }

  lemma StepRet(f: State -> Try<State>, s: State, p: Program, k: nat)
    requires Emulates(f) && At(s, p, k) && Reads(p.code[k], Ret(30)) && s.x[30] != 0
    ensures f(s) == Ok(s.(pc := s.x[30]))
  {
    StepIs(f, s, p, k, Ret(30), s.(pc := s.x[30]));
  }
}
