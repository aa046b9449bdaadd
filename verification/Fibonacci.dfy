/** The recursive test function of tests/data/fun_fibonacci.s, run by the emulator's step for every input. */
module Fibonacci {
  import opened Words
  import opened Util
  import opened Memory
  import opened Virtio
  import opened Bus
  import opened Flags
  import opened Isa
  import opened Runs
  import opened Listings
  import opened Programs

  const CODE: seq<u32> := [
    0xa9bd7bfd,  //  0        stp  x29, x30, [sp, -48]!
    0x910003fd,  //  1        mov  x29, sp
    0xf9000bf3,  //  2        str  x19, [sp, 16]
    0xb9002fe0,  //  3        str  w0, [sp, 44]
    0xb9402fe0,  //  4        ldr  w0, [sp, 44]
    0x7100001f,  //  5        cmp  w0, 0
    0x54000061,  //  6        bne  9
    0x52800000,  //  7        mov  w0, 0
    0x1400000e,  //  8        b    22
    0xb9402fe0,  //  9        ldr  w0, [sp, 44]
    0x7100041f,  // 10        cmp  w0, 1
    0x54000061,  // 11        bne  14
    0x52800020,  // 12        mov  w0, 1
    0x14000009,  // 13        b    22
    0xb9402fe0,  // 14        ldr  w0, [sp, 44]
    0x51000400,  // 15        sub  w0, w0, #1
    0x97fffff0,  // 16        bl   0
    0x2a0003f3,  // 17        mov  w19, w0
    0xb9402fe0,  // 18        ldr  w0, [sp, 44]
    0x51000800,  // 19        sub  w0, w0, #2
    0x97ffffec,  // 20        bl   0
    0x0b000260,  // 21        add  w0, w19, w0
    0xf9400bf3,  // 22        ldr  x19, [sp, 16]
    0xa8c37bfd,  // 23        ldp  x29, x30, [sp], 48
    0xd65f03c0   // 24        ret
  ]

  const WORDS: nat := 25

  /** `p` is this function; the guard keeps the listing folded. */
  ghost predicate IsFibonacci(p: Program)
  {
    |p.code| == WORDS && forall z {:trigger Open(z)} :: Open(z) ==> p.code == CODE
  }

  // ----- how the emulator decodes the words -----

  lemma PushReads(p: Program)
    requires IsFibonacci(p)
    ensures Reads(p.code[0], Pair(false, true, PreIndex, 122, 29, 30, 31))
  {
    assert Open(0);
    StpDecodes(p.code[0]);
  }

  lemma MovFpReads(p: Program)
    requires IsFibonacci(p)
    ensures Reads(p.code[1], AddSubImm(true, false, false, 0, 31, 29))
  {
    assert Open(0);
    MovFpDecodes(p.code[1]);
  }

  lemma SaveX19Reads(p: Program)
    requires IsFibonacci(p)
    ensures Reads(p.code[2], Single(false, DWord, Offset, 2, 19, 31))
  {
    assert Open(0);
    StrX19Decodes(p.code[2]);
  }

  lemma SaveArgumentReads(p: Program)
    requires IsFibonacci(p)
    ensures Reads(p.code[3], Single(false, Word, Offset, 11, 0, 31))
  {
    assert Open(0);
    StrW0At44Decodes(p.code[3]);
  }

  lemma LoadArgumentReads(p: Program, k: nat)
    requires IsFibonacci(p) && k in {4, 9, 14, 18}
    ensures Reads(p.code[k], Single(true, Word, Offset, 11, 0, 31))
  {
    assert Open(0);
    LdrW0At44Decodes(p.code[k]);
  }

  lemma CompareReads(p: Program, k: nat, imm: u64)
    requires IsFibonacci(p) && ((k == 5 && imm == 0) || (k == 10 && imm == 1))
    ensures Reads(p.code[k], AddSubImm(false, true, true, imm, 0, 31))
  {
    assert Open(0);
    if k == 5 { CmpW0With0Decodes(p.code[k]); } else { CmpW0With1Decodes(p.code[k]); }
  }

  lemma NotEqualReads(p: Program, k: nat)
    requires IsFibonacci(p) && (k == 6 || k == 11)
    ensures Reads(p.code[k], BCond(1, 3))
  {
    assert Open(0);
    BneDecodes(p.code[k]);
  }

  lemma MovReads(p: Program, k: nat, n: u16)
    requires IsFibonacci(p) && ((k == 7 && n == 0) || (k == 12 && n == 1))
    ensures Reads(p.code[k], MoveWide(false, 2, 0, n, 0))
  {
    assert Open(0);
    if k == 7 { MovW0To0Decodes(p.code[k]); } else { MovW0To1Decodes(p.code[k]); }
  }

  lemma ToEpilogueReads(p: Program, k: nat)
    requires IsFibonacci(p) && (k == 8 || k == 13)
    ensures Reads(p.code[k], B(false, 22 - k))
  {
    assert Open(0);
    if k == 8 { BFrom8Decodes(p.code[k]); } else { BFrom13Decodes(p.code[k]); }
  }

  lemma LessReads(p: Program, k: nat, less: u64)
    requires IsFibonacci(p) && ((k == 15 && less == 1) || (k == 19 && less == 2))
    ensures Reads(p.code[k], AddSubImm(false, true, false, less, 0, 0))
  {
    assert Open(0);
    if k == 15 { SubW0By1Decodes(p.code[k]); } else { SubW0By2Decodes(p.code[k]); }
  }

  lemma CallReads(p: Program, k: nat, imm: Imm26)
    requires IsFibonacci(p) && ((k == 16 && imm == 0x3fffff0) || (k == 20 && imm == 0x3ffffec))
    ensures Reads(p.code[k], B(true, imm)) && 0 - k == SignedBy(imm, 0x200_0000)
  {
    assert Open(0);
    if k == 16 { BlFrom16Decodes(p.code[k]); } else { BlFrom20Decodes(p.code[k]); }
  }

  lemma KeepReads(p: Program)
    requires IsFibonacci(p)
    ensures Reads(p.code[17], Orr(false, false, 0, 0, 0, 31, 19))
  {
    assert Open(0);
    MovW19Decodes(p.code[17]);
  }

  lemma AddReads(p: Program)
    requires IsFibonacci(p)
    ensures Reads(p.code[21], AddSubReg(false, false, false, 0, 0, 0, 19, 0))
  {
    assert Open(0);
    AddW0Decodes(p.code[21]);
  }

  lemma RestoreX19Reads(p: Program)
    requires IsFibonacci(p)
    ensures Reads(p.code[22], Single(true, DWord, Offset, 2, 19, 31))
  {
    assert Open(0);
    LdrX19Decodes(p.code[22]);
  }

  lemma PopReads(p: Program)
    requires IsFibonacci(p)
    ensures Reads(p.code[23], Pair(true, true, PostIndex, 6, 29, 30, 31))
  {
    assert Open(0);
    LdpDecodes(p.code[23]);
  }

  lemma RetReads(p: Program)
    requires IsFibonacci(p)
    ensures Reads(p.code[24], Ret(30))
  {
    assert Open(0);
    RetDecodes(p.code[24]);
  }

  // ----- what the function computes -----

  function Fib(n: nat): nat { if n < 2 then n else Fib(n - 1) + Fib(n - 2) }

  /** Instructions executed, up to and including the RET. */
  function StepCount(n: nat): nat
  {
    if n == 0 then 12 else if n == 1 then 15 else 21 + StepCount(n - 1) + StepCount(n - 2)
  }

  /** Bytes of stack used: one 48-byte frame for each nested activation. */
  function StackUse(n: nat): nat { if n < 2 then 48 else 48 * n }

  /** The stack lies in RAM and does not overlap the code. */
  predicate StackFits(sp: int, base: int, n: nat)
  {
    && RAM_BASE + StackUse(n) <= sp < RAM_BASE + RAM_SIZE
    && (sp <= base || base + 4 * WORDS <= sp - StackUse(n))
  }

  /** At the entry of the function, with `n` in w0 and a return address in x30. */
  ghost predicate Entry(s: State, p: Program, n: u32)
  {
    && IsFibonacci(p) && At(s, p, 0)
    && s.x[0] % TWO32 == n && s.x[30] != 0
    && StackFits(s.sp, p.base, n)
  }

  const EQUAL: NZCV := NZCV(false, true, true, false)

  /** The state at the return address: w0 holds the result, every other register, sp and all memory outside
      the stack used are as they were on entry. */
  ghost predicate Returned(s: State, t: State, n: nat)
    requires s.Valid()
  {
    && t == s.(pc := s.x[30], x := s.x[0 := W32(Fib(n))], nzcv := EQUAL, mem := s.mem.(ram := t.mem.ram))
    && SameOutside(s.mem.ram, t.mem.ram, s.sp - StackUse(n) - RAM_BASE, s.sp - RAM_BASE)
  }

  // ----- the frame -----

  /** Where the activation entered in `s` puts its frame, as an offset into RAM. */
  function FrameAt(s: State, p: Program, n: u32): (o: nat)
    requires Entry(s, p, n)
    ensures o + 48 < RAM_SIZE
  {
    s.sp - 48 - RAM_BASE
  }

  /** The frame holds the caller's x29, x30 and x19 and the argument; from its top up, and below what the
      activation has used so far, RAM is as on entry. */
  ghost predicate FrameIntact(r0: Ram, r: Ram, o: nat, deep: nat, x: seq<u64>, n: nat)
    requires |r| == RAM_SIZE && o + 48 < RAM_SIZE && |x| == 32
  {
    && Get(r, o, 8) == x[29] && Get(r, o + 8, 8) == x[30] && Get(r, o + 16, 8) == x[19] && Get(r, o + 44, 4) == n
    && SameOutside(r0, r, o + 48 - deep, o + 48)
  }

  /** `u` runs in that frame, at word `k`. */
  ghost predicate InFrame(s: State, p: Program, n: u32, deep: nat, u: State, k: nat)
    requires Entry(s, p, n)
  {
    && u.Valid() && Placed(u.mem.ram, p) && k < |p.code|
    && u == s.(pc := p.base + 4 * k, sp := s.sp - 48, x := u.x, nzcv := u.nzcv, mem := s.mem.(ram := u.mem.ram))
    && FrameIntact(s.mem.ram, u.mem.ram, FrameAt(s, p, n), deep, s.x, n)
  }

  /** RAM with a frame at offset `o`. */
  function FrameRam(r: Ram, o: nat, x29: u64, x30: u64, x19: u64, x0: u64): (r': Ram)
    requires o + 48 <= |r|
    ensures |r'| == |r|
  {
    Put(Put(Put(Put(r, o, 8, x29), o + 8, 8, x30), o + 16, 8, x19), o + 44, 4, x0)
  }

  lemma FrameReads(r: Ram, o: nat, x29: u64, x30: u64, x19: u64, x0: u64)
    requires o + 48 <= |r|
    ensures Get(FrameRam(r, o, x29, x30, x19, x0), o, 8) == x29
    ensures Get(FrameRam(r, o, x29, x30, x19, x0), o + 8, 8) == x30
    ensures Get(FrameRam(r, o, x29, x30, x19, x0), o + 16, 8) == x19
    ensures Get(FrameRam(r, o, x29, x30, x19, x0), o + 44, 4) == x0 % TWO32
    ensures SameOutside(r, FrameRam(r, o, x29, x30, x19, x0), o, o + 48)
  {
    var r1 := Put(r, o, 8, x29);
    var r2 := Put(r1, o + 8, 8, x30);
    var r3 := Put(r2, o + 16, 8, x19);
    GetPut64(r, o, x29);
    GetPutDisjoint(r1, o + 8, 8, x30, o, 8);
    GetPutDisjoint(r2, o + 16, 8, x19, o, 8);
    GetPutDisjoint(r3, o + 44, 4, x0, o, 8);
    GetPut64(r1, o + 8, x30);
    GetPutDisjoint(r2, o + 16, 8, x19, o + 8, 8);
    GetPutDisjoint(r3, o + 44, 4, x0, o + 8, 8);
    GetPut64(r2, o + 16, x19);
    GetPutDisjoint(r3, o + 44, 4, x0, o + 16, 8);
    GetPut32(r3, o + 44, x0);
  }

  /** The state after instructions 0 to 3. */
  function Filled(s: State, p: Program, n: u32): State
    requires Entry(s, p, n)
  {
    s.(pc := p.base + 16, sp := s.sp - 48, x := s.x[29 := s.sp - 48],
       mem := s.mem.(ram := FrameRam(s.mem.ram, FrameAt(s, p, n), s.x[29], s.x[30], s.x[19], s.x[0])))
  }

  lemma FilledIsFrame(s: State, p: Program, n: u32)
    requires Entry(s, p, n)
    ensures InFrame(s, p, n, 48, Filled(s, p, n), 4)
  {
    FrameReads(s.mem.ram, FrameAt(s, p, n), s.x[29], s.x[30], s.x[19], s.x[0]);
    CodeKept(s.mem.ram, Filled(s, p, n).mem.ram, p, FrameAt(s, p, n), FrameAt(s, p, n) + 48);
  }

  // ----- prologue: words 0 to 3 -----

  function AfterPush(s: State, p: Program, n: u32): State
    requires Entry(s, p, n)
  {
    var o := FrameAt(s, p, n);
    s.(pc := p.base + 4, sp := s.sp - 48,
       mem := s.mem.(ram := Put(Put(s.mem.ram, o, 8, s.x[29]), o + 8, 8, s.x[30])))
  }

  function AfterMovFp(s: State, p: Program, n: u32): State
    requires Entry(s, p, n)
  {
    AfterPush(s, p, n).(pc := p.base + 8, x := s.x[29 := s.sp - 48])
  }

  function AfterSaveX19(s: State, p: Program, n: u32): State
    requires Entry(s, p, n)
  {
    var u := AfterMovFp(s, p, n);
    u.(pc := p.base + 12, mem := u.mem.(ram := Put(u.mem.ram, FrameAt(s, p, n) + 16, 8, s.x[19])))
  }

  lemma PushState(s: State, p: Program, n: u32)
    requires Entry(s, p, n)
    ensures Pushed(s, 48, 29, 30).Advance() == AfterPush(s, p, n) && At(AfterPush(s, p, n), p, 1)
  {
    NextWord(s, p, 0);
    assert s.sp - 48 - RAM_BASE == FrameAt(s, p, n) && s.sp - 48 + 8 - RAM_BASE == FrameAt(s, p, n) + 8;
    PlacedPut(s.mem.ram, p, FrameAt(s, p, n), 8, s.x[29]);
    PlacedPut(Put(s.mem.ram, FrameAt(s, p, n), 8, s.x[29]), p, FrameAt(s, p, n) + 8, 8, s.x[30]);
  }

  lemma SaveX19State(s: State, p: Program, n: u32)
    requires Entry(s, p, n) && At(AfterMovFp(s, p, n), p, 2)
    ensures
      var u := AfterMovFp(s, p, n);
      && InHost(U64(u.sp + 16), 8)
      && Poke(u, U64(u.sp + 16), 8, u.x[19]).Advance() == AfterSaveX19(s, p, n) && At(AfterSaveX19(s, p, n), p, 3)
  {
    var u := AfterMovFp(s, p, n);
    NextWord(u, p, 2);
    assert U64(u.sp + 16) == s.sp - 32 && s.sp - 32 - RAM_BASE == FrameAt(s, p, n) + 16;
    PlacedPut(u.mem.ram, p, FrameAt(s, p, n) + 16, 8, s.x[19]);
  }

  lemma SaveW0State(s: State, p: Program, n: u32)
    requires Entry(s, p, n) && At(AfterSaveX19(s, p, n), p, 3)
    ensures
      var u := AfterSaveX19(s, p, n);
      InHost(U64(u.sp + 44), 4) && Poke(u, U64(u.sp + 44), 4, u.x[0]).Advance() == Filled(s, p, n)
  {
    var u := AfterSaveX19(s, p, n);
    NextWord(u, p, 3);
    assert U64(u.sp + 44) == s.sp - 4 && s.sp - 4 - RAM_BASE == FrameAt(s, p, n) + 44;
  }

  lemma Word0(f: State -> Try<State>, s: State, p: Program, n: u32)
    requires Emulates(f) && Entry(s, p, n)
    ensures f(s) == Ok(AfterPush(s, p, n)) && At(AfterPush(s, p, n), p, 1)
  {
    PushReads(p);
    PushState(s, p, n);
    StepPush(f, s, p, 0, 122, 48, 29, 30);
  }

  lemma Word1(f: State -> Try<State>, s: State, p: Program, n: u32)
    requires Emulates(f) && Entry(s, p, n) && At(AfterPush(s, p, n), p, 1)
    ensures f(AfterPush(s, p, n)) == Ok(AfterMovFp(s, p, n)) && At(AfterMovFp(s, p, n), p, 2)
  {
    var u := AfterPush(s, p, n);
    NextWord(u, p, 1);
    assert U64(u.sp + 0) == s.sp - 48;
    MovFpReads(p);
    StepSpImm(f, u, p, 1, false, 0, 29);
  }

  lemma Word2(f: State -> Try<State>, s: State, p: Program, n: u32)
    requires Emulates(f) && Entry(s, p, n) && At(AfterMovFp(s, p, n), p, 2)
    ensures f(AfterMovFp(s, p, n)) == Ok(AfterSaveX19(s, p, n)) && At(AfterSaveX19(s, p, n), p, 3)
  {
    SaveX19State(s, p, n);
    SaveX19Reads(p);
    StepStr(f, AfterMovFp(s, p, n), p, 2, DWord, 2, 16, 19);
  }

  lemma Word3(f: State -> Try<State>, s: State, p: Program, n: u32)
    requires Emulates(f) && Entry(s, p, n) && At(AfterSaveX19(s, p, n), p, 3)
    ensures f(AfterSaveX19(s, p, n)) == Ok(Filled(s, p, n))
  {
    SaveW0State(s, p, n);
    SaveArgumentReads(p);
    StepStr(f, AfterSaveX19(s, p, n), p, 3, Word, 11, 44, 0);
  }

  lemma Prologue(f: State -> Try<State>, s: State, p: Program, n: u32)
    requires Emulates(f) && Entry(s, p, n)
    ensures Goes(f, s, 4, Filled(s, p, n))
  {
    Word0(f, s, p, n);
    GoesOne(f, s, AfterPush(s, p, n));
    Word1(f, s, p, n);
    GoesStep(f, s, 1, AfterPush(s, p, n), AfterMovFp(s, p, n));
    Word2(f, s, p, n);
    GoesStep(f, s, 2, AfterMovFp(s, p, n), AfterSaveX19(s, p, n));
    Word3(f, s, p, n);
    GoesStep(f, s, 3, AfterSaveX19(s, p, n), Filled(s, p, n));
  }

  // ----- steps inside the frame -----

  /** Registers, flags and pc do not matter to the frame. */
  lemma StillInFrame(s: State, p: Program, n: u32, deep: nat, u: State, k: nat, t: State, k': nat)
    requires Entry(s, p, n) && InFrame(s, p, n, deep, u, k)
    requires k' < |p.code| && |t.x| == 32 && t == u.(pc := p.base + 4 * k', x := t.x, nzcv := t.nzcv)
    ensures InFrame(s, p, n, deep, t, k')
  {
  }

  lemma InFrameIsAt(s: State, p: Program, n: u32, deep: nat, u: State, k: nat)
    requires Entry(s, p, n) && InFrame(s, p, n, deep, u, k)
    ensures At(u, p, k)
  {
  }

  lemma ArgumentWord(s: State, p: Program, n: u32, deep: nat, u: State, k: nat)
    requires Entry(s, p, n) && InFrame(s, p, n, deep, u, k)
    ensures InHost(U64(u.sp + 44), Span(Word)) && 44 == 11 * Bytes(Word) && Bytes(Word) <= Span(Word)
    ensures Peek(u, U64(u.sp + 44), Bytes(Word)) == n
  {
    assert U64(u.sp + 44) == s.sp - 4 && s.sp - 4 - RAM_BASE == FrameAt(s, p, n) + 44;
  }

  /** LDR w0, [sp, 44] puts the argument back into w0. */
  lemma LoadArgument(f: State -> Try<State>, s: State, p: Program, n: u32, deep: nat, u: State, k: nat)
    returns (t: State)
    requires Emulates(f) && Entry(s, p, n) && InFrame(s, p, n, deep, u, k)
    requires k in {4, 9, 14, 18}
    ensures f(u) == Ok(t) && InFrame(s, p, n, deep, t, k + 1)
    ensures t.x == u.x[0 := n]
  {
    InFrameIsAt(s, p, n, deep, u, k);
    ArgumentWord(s, p, n, deep, u, k);
    NextWord(u, p, k);
    LoadArgumentReads(p, k);
    StepLdr(f, u, p, k, Word, 11, 44, 0);
    t := u.Set(0, n).Advance();
    StillInFrame(s, p, n, deep, u, k, t, k + 1);
  }

  /** CMP w0, #imm then B.NE three words on. */
  lemma CompareArgument(f: State -> Try<State>, s: State, p: Program, n: u32, u: State, k: nat, imm: u64)
    returns (t: State)
    requires Emulates(f) && Entry(s, p, n) && InFrame(s, p, n, 48, u, k) && u.x[0] == n
    requires (k == 5 && imm == 0) || (k == 10 && imm == 1)
    ensures Goes(f, u, 2, t) && InFrame(s, p, n, 48, t, if n == imm then k + 2 else k + 4)
    ensures t.x == u.x && (n == imm ==> t.nzcv == EQUAL)
  {
    InFrameIsAt(s, p, n, 48, u, k);
    NextWord(u, p, k);
    CompareReads(p, k, imm);
    StepCmpW(f, u, p, k, imm, 0);
    var v := u.(nzcv := AddImmS32(u.x[0], imm, true).1).Advance();
    StillInFrame(s, p, n, 48, u, k, v, k + 1);
    GoesOne(f, u, v);
    t := NotEqualBranch(f, s, p, n, v, k + 1, imm);
    GoesStep(f, u, 1, v, t);
  }

  lemma NotEqualBranch(f: State -> Try<State>, s: State, p: Program, n: u32, v: State, k: nat, imm: u64)
    returns (t: State)
    requires Emulates(f) && Entry(s, p, n) && InFrame(s, p, n, 48, v, k) && (k == 6 || k == 11) && imm < 2
    requires v.nzcv == AddImmS32(n, imm, true).1
    ensures f(v) == Ok(t) && InFrame(s, p, n, 48, t, if n == imm then k + 1 else k + 3)
    ensures t.x == v.x && (n == imm ==> t.nzcv == EQUAL)
  {
    InFrameIsAt(s, p, n, 48, v, k);
    NextWord(v, p, k);
    BranchTo(v, p, k, 3);
    NotEqualReads(p, k);
    StepBCond(f, v, p, k, 1, 3, 3);
    CompareWith(n, imm);
    t := if n == imm then v.Advance() else v.Jump(U64(12));
    StillInFrame(s, p, n, 48, v, k, t, if n == imm then k + 1 else k + 3);
  }

  lemma CompareWith(n: u32, imm: u32)
    requires imm < 2
    ensures CheckBFlag(1, AddImmS32(n, imm, true).1) == (n != imm)
    ensures n == imm ==> AddImmS32(n, imm, true).1 == EQUAL
  {
    Compare32(1, n, imm);
  }

  /** MOV w0, #imm then B to the epilogue. */
  lemma BaseCase(f: State -> Try<State>, s: State, p: Program, n: u32, u: State, k: nat) returns (t: State)
    requires Emulates(f) && Entry(s, p, n) && n < 2 && InFrame(s, p, n, 48, u, k) && k == (if n == 0 then 7 else 12)
    ensures Goes(f, u, 2, t) && InFrame(s, p, n, 48, t, 22) && t.x == u.x[0 := n] && t.nzcv == u.nzcv
  {
    InFrameIsAt(s, p, n, 48, u, k);
    NextWord(u, p, k);
    MovReads(p, k, n);
    StepMovW(f, u, p, k, n, 0);
    var v := u.Set(0, n).Advance();
    StillInFrame(s, p, n, 48, u, k, v, k + 1);
    GoesOne(f, u, v);
    t := ToEpilogue(f, s, p, n, v, k + 1);
    GoesStep(f, u, 1, v, t);
  }

  lemma ToEpilogue(f: State -> Try<State>, s: State, p: Program, n: u32, v: State, k: nat) returns (t: State)
    requires Emulates(f) && Entry(s, p, n) && n < 2 && InFrame(s, p, n, 48, v, k) && k == (if n == 0 then 8 else 13)
    ensures f(v) == Ok(t) && InFrame(s, p, n, 48, t, 22) && t.x == v.x && t.nzcv == v.nzcv
  {
    InFrameIsAt(s, p, n, 48, v, k);
    ToEpilogueReads(p, k);
    StepB(f, v, p, k, false, 22 - k, 22 - k);
    BranchTo(v, p, k, 22 - k);
    t := v.Jump(U64(4 * (22 - k)));
    StillInFrame(s, p, n, 48, v, k, t, 22);
  }

  // ----- epilogue: words 22 to 24 -----

  lemma SavedX19(s: State, p: Program, n: u32, deep: nat, u: State, k: nat)
    requires Entry(s, p, n) && InFrame(s, p, n, deep, u, k)
    ensures InHost(U64(u.sp + 16), Span(DWord)) && 16 == 2 * Bytes(DWord) && Bytes(DWord) <= Span(DWord)
    ensures Peek(u, U64(u.sp + 16), Bytes(DWord)) == s.x[19]
  {
    assert U64(u.sp + 16) == s.sp - 32 && s.sp - 32 - RAM_BASE == FrameAt(s, p, n) + 16;
  }

  lemma RestoreX19(f: State -> Try<State>, s: State, p: Program, n: u32, deep: nat, u: State) returns (t: State)
    requires Emulates(f) && Entry(s, p, n) && InFrame(s, p, n, deep, u, 22)
    ensures f(u) == Ok(t) && InFrame(s, p, n, deep, t, 23)
    ensures t == u.(pc := p.base + 92, x := u.x[19 := s.x[19]])
  {
    InFrameIsAt(s, p, n, deep, u, 22);
    SavedX19(s, p, n, deep, u, 22);
    NextWord(u, p, 22);
    RestoreX19Reads(p);
    StepLdr(f, u, p, 22, DWord, 2, 16, 19);
    t := u.Set(19, s.x[19]).Advance();
    StillInFrame(s, p, n, deep, u, 22, t, 23);
  }

  lemma PopState(s: State, p: Program, n: u32, deep: nat, u: State) returns (t: State)
    requires Entry(s, p, n) && InFrame(s, p, n, deep, u, 23)
    ensures InHost(u.sp, 16) && Popped(u, 48, 29, 30).Advance() == t && At(t, p, 24)
    ensures t == u.(pc := p.base + 96, sp := s.sp, x := u.x[29 := s.x[29]][30 := s.x[30]])
  {
    InFrameIsAt(s, p, n, deep, u, 23);
    NextWord(u, p, 23);
    assert u.sp - RAM_BASE == FrameAt(s, p, n) && u.sp + 8 - RAM_BASE == FrameAt(s, p, n) + 8;
    assert U64(u.sp + 48) == s.sp;
    t := Popped(u, 48, 29, 30).Advance();
  }

  lemma RestoreFp(f: State -> Try<State>, s: State, p: Program, n: u32, deep: nat, u: State) returns (t: State)
    requires Emulates(f) && Entry(s, p, n) && InFrame(s, p, n, deep, u, 23)
    ensures f(u) == Ok(t) && At(t, p, 24)
    ensures t == u.(pc := p.base + 96, sp := s.sp, x := u.x[29 := s.x[29]][30 := s.x[30]])
  {
    InFrameIsAt(s, p, n, deep, u, 23);
    t := PopState(s, p, n, deep, u);
    PopReads(p);
    StepPop(f, u, p, 23, 6, 48, 29, 30);
  }

  /** From the epilogue the activation returns with w0 as it is and its caller's registers restored. */
  lemma Epilogue(f: State -> Try<State>, s: State, p: Program, n: u32, deep: nat, u: State) returns (t: State)
    requires Emulates(f) && Entry(s, p, n) && InFrame(s, p, n, deep, u, 22)
    ensures Goes(f, u, 3, t)
    ensures t == u.(pc := s.x[30], sp := s.sp, x := u.x[19 := s.x[19]][29 := s.x[29]][30 := s.x[30]])
  {
    var v := RestoreX19(f, s, p, n, deep, u);
    GoesOne(f, u, v);
    var w := RestoreFp(f, s, p, n, deep, v);
    GoesStep(f, u, 1, v, w);
    RetReads(p);
    StepRet(f, w, p, 24);
    t := w.(pc := s.x[30]);
    GoesStep(f, u, 2, w, t);
  }

  // ----- an activation -----

  /** The registers a call may leave changed in its caller's frame. */
  ghost predicate CallerKept(s: State, u: State)
    requires s.Valid()
  {
    |u.x| == 32 && u.x == s.x[0 := u.x[0]][19 := u.x[19]][29 := u.x[29]][30 := u.x[30]]
  }

  lemma KeptBySet(s: State, u: State, i: Reg, v: u64, t: State)
    requires s.Valid() && CallerKept(s, u) && i in {0, 19, 29, 30} && t.x == u.x[i := v]
    ensures CallerKept(s, t)
  {
  }

  /** At the epilogue with the result in w0, the activation completes. */
  lemma Finish(f: State -> Try<State>, s: State, p: Program, n: u32, deep: nat, u: State) returns (t: State)
    requires Emulates(f) && Entry(s, p, n) && InFrame(s, p, n, deep, u, 22)
    requires u.x[0] == W32(Fib(n)) && u.nzcv == EQUAL && deep <= StackUse(n)
    requires CallerKept(s, u)
    ensures Goes(f, u, 3, t) && Returned(s, t, n)
  {
    t := Epilogue(f, s, p, n, deep, u);
    assert t.x == s.x[0 := W32(Fib(n))];
  }

  /** The call's argument is a base case. */
  lemma Base(f: State -> Try<State>, s: State, p: Program, n: u32) returns (t: State)
    requires Emulates(f) && Entry(s, p, n) && n < 2
    ensures Goes(f, s, StepCount(n), t) && Returned(s, t, n)
  {
    var u := UpToFirstBranch(f, s, p, n);
    var m := 7;
    if n == 1 {
      u := UpToSecondBranch(f, s, p, n, u);
      m := 10;
    }
    var v := BaseCase(f, s, p, n, u, if n == 0 then 7 else 12);
    GoesThrough(f, s, m, u, 2, v);
    t := Finish(f, s, p, n, 48, v);
    GoesThrough(f, s, m + 2, v, 3, t);
  }

  lemma FilledKeeps(s: State, p: Program, n: u32)
    requires Entry(s, p, n)
    ensures CallerKept(s, Filled(s, p, n))
  {
    assert s.x == s.x[0 := s.x[0]][19 := s.x[19]][29 := s.x[29]][30 := s.x[30]];
    KeptBySet(s, s, 29, s.sp - 48, Filled(s, p, n));
  }

  /** Words 0 to 6. */
  lemma UpToFirstBranch(f: State -> Try<State>, s: State, p: Program, n: u32) returns (t: State)
    requires Emulates(f) && Entry(s, p, n)
    ensures Goes(f, s, 7, t) && InFrame(s, p, n, 48, t, if n == 0 then 7 else 9)
    ensures CallerKept(s, t) && (n == 0 ==> t.nzcv == EQUAL)
  {
    var u0 := Filled(s, p, n);
    Prologue(f, s, p, n);
    FilledIsFrame(s, p, n);
    var u1 := LoadArgument(f, s, p, n, 48, u0, 4);
    GoesStep(f, s, 4, u0, u1);
    FilledKeeps(s, p, n);
    KeptBySet(s, u0, 0, n, u1);
    t := CompareArgument(f, s, p, n, u1, 5, 0);
    GoesThrough(f, s, 5, u1, 2, t);
  }

  /** Words 9 to 11. */
  lemma UpToSecondBranch(f: State -> Try<State>, s: State, p: Program, n: u32, u: State) returns (t: State)
    requires Emulates(f) && Entry(s, p, n) && n != 0
    requires Goes(f, s, 7, u) && InFrame(s, p, n, 48, u, 9) && CallerKept(s, u)
    ensures Goes(f, s, 10, t) && InFrame(s, p, n, 48, t, if n == 1 then 12 else 14)
    ensures CallerKept(s, t) && (n == 1 ==> t.nzcv == EQUAL)
  {
    var u1 := LoadArgument(f, s, p, n, 48, u, 9);
    GoesStep(f, s, 7, u, u1);
    t := CompareArgument(f, s, p, n, u1, 10, 1);
    GoesThrough(f, s, 8, u1, 2, t);
  }

  // ----- the two recursive calls -----

  /** The address of word `k`. */
  function WordAt(p: Program, k: nat): int { p.base + 4 * k }

  /** SUB w0, w0, #less at word `k`, BL at the next: the callee is entered with `n - less`. */
  lemma Call(f: State -> Try<State>, s: State, p: Program, n: u32, deep: nat, u: State, k: nat, less: u32)
    returns (c: State)
    requires Emulates(f) && Entry(s, p, n) && n >= 2 && InFrame(s, p, n, deep, u, k) && u.x[0] == n
    requires (k == 15 && less == 1) || (k == 19 && less == 2)
    ensures Goes(f, u, 2, c) && Entry(c, p, n - less)
    ensures c == u.(pc := p.base, x := u.x[0 := n - less][30 := WordAt(p, k + 2)])
  {
    InFrameIsAt(s, p, n, deep, u, k);
    NextWord(u, p, k);
    LessReads(p, k, less);
    LessThanArgument(n, less);
    StepSubW(f, u, p, k, less, 0, 0);
    var v := u.Set(0, n - less).Advance();
    StillInFrame(s, p, n, deep, u, k, v, k + 1);
    GoesOne(f, u, v);
    c := Branch(f, s, p, n, deep, v, k + 1);
    GoesStep(f, u, 1, v, c);
  }

  lemma Branch(f: State -> Try<State>, s: State, p: Program, n: u32, deep: nat, v: State, k: nat) returns (c: State)
    requires Emulates(f) && Entry(s, p, n) && n >= 2 && InFrame(s, p, n, deep, v, k)
    requires (k == 16 && v.x[0] == n - 1) || (k == 20 && v.x[0] == n - 2)
    ensures f(v) == Ok(c) && Entry(c, p, v.x[0])
    ensures c == v.(pc := p.base, x := v.x[30 := WordAt(p, k + 1)])
  {
    InFrameIsAt(s, p, n, deep, v, k);
    NextWord(v, p, k);
    BranchTo(v, p, k, 0 - k);
    var imm: Imm26 := if k == 16 then 0x3fffff0 else 0x3ffffec;
    CallReads(p, k, imm);
    StepB(f, v, p, k, true, imm, 0 - k);
    c := v.Set(30, U64(v.pc + 4)).Jump(U64(4 * (0 - k)));
    CalleeFits(s, p, n, v.x[0]);
  }

  lemma LessThanArgument(n: u32, less: u32)
    requires less <= n
    ensures W32(Minus(n, less)) == n - less
  {
  }

  lemma CalleeFits(s: State, p: Program, n: u32, m: u32)
    requires Entry(s, p, n) && n >= 2 && (m == n - 1 || m == n - 2)
    ensures 48 + StackUse(m) <= 48 + StackUse(n - 1) == StackUse(n) && StackFits(s.sp - 48, p.base, m)
  {
  }

  /** After a call has returned, the caller's frame is intact. */
  lemma AfterCall(s: State, p: Program, n: u32, deep: nat, u: State, k: nat, c: State, m: u32, r: State, k': nat)
    requires Entry(s, p, n) && n >= 2 && InFrame(s, p, n, deep, u, k) && k' < |p.code|
    requires Entry(c, p, m) && c == u.(pc := p.base, x := c.x) && c.x[30] == WordAt(p, k') && (m == n - 1 || m == n - 2)
    requires Returned(c, r, m) && deep <= StackUse(n)
    ensures InFrame(s, p, n, StackUse(n), r, k')
  {
    CalleeFits(s, p, n, m);
    var o := FrameAt(s, p, n);
    CodeKept(c.mem.ram, r.mem.ram, p, o - StackUse(m), o);
    FrameUntouched(s.mem.ram, c.mem.ram, r.mem.ram, o, deep, s.x, n, StackUse(m), StackUse(n));
  }

  lemma FrameUntouched(r0: Ram, a: Ram, b: Ram, o: nat, deep: nat, x: seq<u64>, n: nat, used: nat, deep': nat)
    requires |a| == RAM_SIZE && o + 48 < RAM_SIZE && |x| == 32 && FrameIntact(r0, a, o, deep, x, n)
    requires SameOutside(a, b, o - used, o) && deep <= deep' && 48 + used <= deep'
    ensures FrameIntact(r0, b, o, deep', x, n)
  {
    GetFrame(a, b, o, 8);
    GetFrame(a, b, o + 8, 8);
    GetFrame(a, b, o + 16, 8);
    GetFrame(a, b, o + 44, 4);
  }

  lemma KeepFirst(f: State -> Try<State>, s: State, p: Program, n: u32, u: State) returns (t: State)
    requires Emulates(f) && Entry(s, p, n) && InFrame(s, p, n, StackUse(n), u, 17)
    ensures f(u) == Ok(t) && InFrame(s, p, n, StackUse(n), t, 18) && t.x == u.x[19 := u.x[0]]
  {
    InFrameIsAt(s, p, n, StackUse(n), u, 17);
    NextWord(u, p, 17);
    KeepReads(p);
    StepMovReg(f, u, p, 17, 0, 19);
    t := u.Set(19, u.x[0]).Advance();
    StillInFrame(s, p, n, StackUse(n), u, 17, t, 18);
  }

  lemma AddResults(f: State -> Try<State>, s: State, p: Program, n: u32, u: State) returns (t: State)
    requires Emulates(f) && Entry(s, p, n) && InFrame(s, p, n, StackUse(n), u, 21)
    ensures f(u) == Ok(t) && InFrame(s, p, n, StackUse(n), t, 22)
    ensures t.x == u.x[0 := W32(Plus(u.x[19], u.x[0]))] && t.nzcv == u.nzcv
  {
    InFrameIsAt(s, p, n, StackUse(n), u, 21);
    NextWord(u, p, 21);
    AddReads(p);
    StepAddW(f, u, p, 21, 0, 19, 0);
    t := u.Set(0, W32(Plus(u.x[19], u.x[0]))).Advance();
    StillInFrame(s, p, n, StackUse(n), u, 21, t, 22);
  }

  lemma SumOfResults(n: nat)
    requires n >= 2
    ensures W32(Plus(W32(Fib(n - 1)), W32(Fib(n - 2)))) == W32(Fib(n))
  {
    SumWraps(Fib(n - 1), Fib(n - 2));
  }

  lemma SumWraps(a: int, b: int)
    ensures W32(Plus(W32(a), W32(b))) == W32(a + b)
  {
  }

  /** Words 0 to 16: up to the entry of the first call. */
  lemma ToFirstCall(f: State -> Try<State>, s: State, p: Program, n: u32) returns (u: State, c: State)
    requires Emulates(f) && Entry(s, p, n) && n >= 2
    ensures Goes(f, s, 13, c) && Entry(c, p, n - 1) && InFrame(s, p, n, 48, u, 15) && CallerKept(s, u)
    ensures c == u.(pc := p.base, x := u.x[0 := n - 1][30 := WordAt(p, 17)])
  {
    var u1 := UpToFirstBranch(f, s, p, n);
    var u2 := UpToSecondBranch(f, s, p, n, u1);
    u := LoadArgument(f, s, p, n, 48, u2, 14);
    GoesStep(f, s, 10, u2, u);
    c := Call(f, s, p, n, 48, u, 15, 1);
    GoesThrough(f, s, 11, u, 2, c);
  }

  /** Words 17 to 20: from the first call's return to the entry of the second. */
  lemma ToSecondCall(f: State -> Try<State>, s: State, p: Program, n: u32, r: State) returns (u: State, c: State)
    requires Emulates(f) && Entry(s, p, n) && n >= 2 && InFrame(s, p, n, StackUse(n), r, 17)
    ensures Goes(f, r, 4, c) && Entry(c, p, n - 2) && InFrame(s, p, n, StackUse(n), u, 19)
    ensures u.x == r.x[19 := r.x[0]][0 := n]
    ensures c == u.(pc := p.base, x := u.x[0 := n - 2][30 := WordAt(p, 21)])
  {
    var u1 := KeepFirst(f, s, p, n, r);
    GoesOne(f, r, u1);
    u := LoadArgument(f, s, p, n, StackUse(n), u1, 18);
    GoesStep(f, r, 1, u1, u);
    c := Call(f, s, p, n, StackUse(n), u, 19, 2);
    GoesThrough(f, r, 2, u, 2, c);
  }

  /** For every argument whose recursion fits in the stack, the function returns to x30 after StepCount(n)
      instructions with w0 = Fib(n) mod 2^32, everything else as on entry. */
  lemma {:induction false} FibonacciRuns(f: State -> Try<State>, s: State, p: Program, n: u32) returns (t: State)
    requires Emulates(f) && Entry(s, p, n)
    ensures Goes(f, s, StepCount(n), t) && Returned(s, t, n)
    decreases n
  {
    if n < 2 {
      t := Base(f, s, p, n);
    } else {
      var u1, c1 := ToFirstCall(f, s, p, n);
      var r1 := FibonacciRuns(f, c1, p, n - 1);
      var u2, c2 := SecondCall(f, s, p, n, u1, c1, r1);
      var r2 := FibonacciRuns(f, c2, p, n - 2);
      t := ReturnFromSecond(f, s, p, n, u2, c2, r2);
      FiveParts(f, s, c1, StepCount(n - 1), r1, c2, StepCount(n - 2), r2, t, StepCount(n));
    }
  }

  lemma FiveParts(f: State -> Try<State>, s: State, c1: State, a: nat, r1: State, c2: State, b: nat, r2: State,
        t: State, m: nat)
    requires m == 21 + a + b && Goes(f, s, 13, c1) && Goes(f, c1, a, r1) && Goes(f, r1, 4, c2)
    requires Goes(f, c2, b, r2) && Goes(f, r2, 4, t)
    ensures Goes(f, s, m, t)
  {
    GoesThrough(f, s, 13, c1, a, r1);
    GoesThrough(f, s, 13 + a, r1, 4, c2);
    GoesThrough(f, s, 17 + a, c2, b, r2);
    GoesThrough(f, s, 17 + a + b, r2, 4, t);
  }

  /** The first call has returned: on to the second, with the first result in w19. */
  lemma SecondCall(f: State -> Try<State>, s: State, p: Program, n: u32, u1: State, c1: State, r1: State)
    returns (u: State, c: State)
    requires Emulates(f) && Entry(s, p, n) && n >= 2 && InFrame(s, p, n, 48, u1, 15) && CallerKept(s, u1)
    requires c1 == u1.(pc := p.base, x := u1.x[0 := n - 1][30 := WordAt(p, 17)])
    requires Entry(c1, p, n - 1) && Returned(c1, r1, n - 1)
    ensures Goes(f, r1, 4, c) && Entry(c, p, n - 2) && InFrame(s, p, n, StackUse(n), u, 19)
    ensures CallerKept(s, u) && u.x[19] == W32(Fib(n - 1))
    ensures c == u.(pc := p.base, x := u.x[0 := n - 2][30 := WordAt(p, 21)])
  {
    AfterCall(s, p, n, 48, u1, 15, c1, n - 1, r1, 17);
    u, c := ToSecondCall(f, s, p, n, r1);
  }

  /** The second call has returned: add, and return. */
  lemma ReturnFromSecond(f: State -> Try<State>, s: State, p: Program, n: u32, u2: State, c2: State, r2: State)
    returns (t: State)
    requires Emulates(f) && Entry(s, p, n) && n >= 2 && InFrame(s, p, n, StackUse(n), u2, 19) && CallerKept(s, u2)
    requires u2.x[19] == W32(Fib(n - 1)) && c2 == u2.(pc := p.base, x := u2.x[0 := n - 2][30 := WordAt(p, 21)])
    requires Entry(c2, p, n - 2) && Returned(c2, r2, n - 2)
    ensures Goes(f, r2, 4, t) && Returned(s, t, n)
  {
    AfterCall(s, p, n, StackUse(n), u2, 19, c2, n - 2, r2, 21);
    t := AfterBoth(f, s, p, n, r2);
  }

  lemma AfterBoth(f: State -> Try<State>, s: State, p: Program, n: u32, r: State) returns (t: State)
    requires Emulates(f) && Entry(s, p, n) && n >= 2 && InFrame(s, p, n, StackUse(n), r, 21)
    requires r.x[19] == W32(Fib(n - 1)) && r.x[0] == W32(Fib(n - 2)) && r.nzcv == EQUAL && CallerKept(s, r)
    ensures Goes(f, r, 4, t) && Returned(s, t, n)
  {
    var v := AddResults(f, s, p, n, r);
    SumOfResults(n);
    GoesOne(f, r, v);
    t := Finish(f, s, p, n, StackUse(n), v);
    GoesThrough(f, r, 1, v, 3, t);
  }
}
