/** The loop of tests/data/fun_sum.s, run by the emulator's step for every input. */
module Sum {
  import opened Words
  import opened Util
  import opened Memory
  import opened Virtio
  import opened Bus
  import opened Flags
  import opened Isa
  import opened Runs
  import opened Listings
  import opened Programs

  const CODE: seq<u32> := [
    0xd10083ff,  //  0        sub  sp, sp, #32
    0xb9000fe0,  //  1        str  w0, [sp, 12]
    0xb9001bff,  //  2        str  wzr, [sp, 24]
    0xb9400fe0,  //  3        ldr  w0, [sp, 12]
    0xb9001fe0,  //  4        str  w0, [sp, 28]
    0x14000008,  //  5        b    13
    0xb9401be1,  //  6        ldr  w1, [sp, 24]
    0xb9401fe0,  //  7        ldr  w0, [sp, 28]
    0x0b000020,  //  8        add  w0, w1, w0
    0xb9001be0,  //  9        str  w0, [sp, 24]
    0xb9401fe0,  // 10        ldr  w0, [sp, 28]
    0x51000400,  // 11        sub  w0, w0, #1
    0xb9001fe0,  // 12        str  w0, [sp, 28]
    0xb9401fe0,  // 13        ldr  w0, [sp, 28]
    0x7100001f,  // 14        cmp  w0, 0
    0x54fffeec,  // 15        bgt  6
    0xb9401be0,  // 16        ldr  w0, [sp, 24]
    0x910083ff,  // 17        add  sp, sp, 32
    0xd65f03c0   // 18        ret
  ]

  const WORDS: nat := 19

  /** `p` is this function; the guard keeps the listing folded. */
  ghost predicate IsSum(p: Program)
  {
    |p.code| == WORDS && forall z {:trigger Open(z)} :: Open(z) ==> p.code == CODE
  }

  // ----- how the emulator decodes the words -----

  lemma SubSpReads(p: Program)
    requires IsSum(p)
    ensures Reads(p.code[0], AddSubImm(true, true, false, 32, 31, 31))
  {
    assert Open(0);
    SubSpDecodes(p.code[0]);
  }

  lemma SaveArgumentReads(p: Program)
    requires IsSum(p)
    ensures Reads(p.code[1], Single(false, Word, Offset, 3, 0, 31))
  {
    assert Open(0);
    StrW0At12Decodes(p.code[1]);
  }

  lemma ZeroTotalReads(p: Program)
    requires IsSum(p)
    ensures Reads(p.code[2], Single(false, Word, Offset, 6, 31, 31))
  {
    assert Open(0);
    StrWzrAt24Decodes(p.code[2]);
  }

  lemma LoadArgumentReads(p: Program)
    requires IsSum(p)
    ensures Reads(p.code[3], Single(true, Word, Offset, 3, 0, 31))
  {
    assert Open(0);
    LdrW0At12Decodes(p.code[3]);
  }

  lemma StoreCountReads(p: Program, k: nat)
    requires IsSum(p) && k in {4, 12}
    ensures Reads(p.code[k], Single(false, Word, Offset, 7, 0, 31))
  {
    assert Open(0);
    StrW0At28Decodes(p.code[k]);
  }

  lemma ToLoopReads(p: Program)
    requires IsSum(p)
    ensures Reads(p.code[5], B(false, 8))
  {
    assert Open(0);
    BFrom5Decodes(p.code[5]);
  }

  lemma LoadTotalReads(p: Program, k: nat, rt: Reg)
    requires IsSum(p) && ((k == 6 && rt == 1) || (k == 16 && rt == 0))
    ensures Reads(p.code[k], Single(true, Word, Offset, 6, rt, 31))
  {
    assert Open(0);
    if k == 6 { LdrW1At24Decodes(p.code[k]); } else { LdrW0At24Decodes(p.code[k]); }
  }

  lemma LoadCountReads(p: Program, k: nat)
    requires IsSum(p) && k in {7, 10, 13}
    ensures Reads(p.code[k], Single(true, Word, Offset, 7, 0, 31))
  {
    assert Open(0);
    LdrW0At28Decodes(p.code[k]);
  }

  lemma AddReads(p: Program)
    requires IsSum(p)
    ensures Reads(p.code[8], AddSubReg(false, false, false, 0, 0, 0, 1, 0))
  {
    assert Open(0);
    AddW0W1Decodes(p.code[8]);
  }

  lemma StoreTotalReads(p: Program)
    requires IsSum(p)
    ensures Reads(p.code[9], Single(false, Word, Offset, 6, 0, 31))
  {
    assert Open(0);
    StrW0At24Decodes(p.code[9]);
  }

  lemma SubReads(p: Program)
    requires IsSum(p)
    ensures Reads(p.code[11], AddSubImm(false, true, false, 1, 0, 0))
  {
    assert Open(0);
    SubW0By1Decodes(p.code[11]);
  }

  lemma CompareReads(p: Program)
    requires IsSum(p)
    ensures Reads(p.code[14], AddSubImm(false, true, true, 0, 0, 31))
  {
    assert Open(0);
    CmpW0With0Decodes(p.code[14]);
  }

  lemma GreaterReads(p: Program)
    requires IsSum(p)
    ensures Reads(p.code[15], BCond(12, 0x7fff7)) && 0 - 9 == SignedBy(0x7fff7, 0x4_0000)
  {
    assert Open(0);
    BgtDecodes(p.code[15]);
  }

  lemma AddSpReads(p: Program)
    requires IsSum(p)
    ensures Reads(p.code[17], AddSubImm(true, false, false, 32, 31, 31))
  {
    assert Open(0);
    AddSpDecodes(p.code[17]);
  }

  lemma RetReads(p: Program)
    requires IsSum(p)
    ensures Reads(p.code[18], Ret(30))
  {
    assert Open(0);
    RetDecodes(p.code[18]);
  }

  // ----- the frame -----

  /** The frame lies in RAM and does not overlap the code. */
  predicate FrameFits(sp: int, base: int)
  {
    && RAM_BASE + 32 <= sp < RAM_BASE + RAM_SIZE
    && (sp <= base || base + 4 * WORDS <= sp - 32)
  }

  /** At the entry of the function, with the argument in w0 and a return address in x30. */
  ghost predicate Entry(s: State, p: Program)
  {
    && IsSum(p) && At(s, p, 0)
    && s.x[30] != 0
    && FrameFits(s.sp, p.base)
  }

  function FrameAt(s: State, p: Program): (o: nat)
    requires Entry(s, p)
    ensures o + 32 < RAM_SIZE
  {
    s.sp - 32 - RAM_BASE
  }

  /** The frame at `o` holds the running total and the counter; RAM outside it is as on entry. */
  ghost predicate Holds(r0: Ram, r: Ram, o: nat, total: int, count: int)
    requires |r| == RAM_SIZE && o + 32 < RAM_SIZE
  {
    Get(r, o + 24, 4) == total && Get(r, o + 28, 4) == count && SameOutside(r0, r, o, o + 32)
  }

  /** `u` runs in the frame, at word `k`; only w0, w1, the flags and the frame have changed. */
  ghost predicate InFrame(s: State, p: Program, total: u32, count: u32, u: State, k: nat)
    requires Entry(s, p)
  {
    && u.Valid() && Placed(u.mem.ram, p) && k < |p.code|
    && u == s.(pc := p.base + 4 * k, sp := s.sp - 32, x := u.x, nzcv := u.nzcv, mem := s.mem.(ram := u.mem.ram))
    && Kept(s.x, u.x)
    && Holds(s.mem.ram, u.mem.ram, FrameAt(s, p), total, count)
  }

  /** Only x0 and x1 differ. */
  ghost predicate Kept(x: seq<u64>, y: seq<u64>)
  {
    |x| == |y| == 32 && forall i :: 2 <= i < 32 ==> x[i] == y[i]
  }

  lemma InFrameIsAt(s: State, p: Program, total: u32, count: u32, u: State, k: nat)
    requires Entry(s, p) && InFrame(s, p, total, count, u, k)
    ensures At(u, p, k)
  {
  }

  /** Moving on with w0, w1 or the flags changed stays in the frame. */
  lemma StillInFrame(s: State, p: Program, total: u32, count: u32, u: State, k: nat, t: State, k': nat)
    requires Entry(s, p) && InFrame(s, p, total, count, u, k)
    requires k' < |p.code| && Kept(s.x, t.x) && t == u.(pc := p.base + 4 * k', x := t.x, nzcv := t.nzcv)
    ensures InFrame(s, p, total, count, t, k')
  {
  }

  lemma KeptBySet(x: seq<u64>, y: seq<u64>, i: Reg, v: u64)
    requires Kept(x, y) && i < 2
    ensures Kept(x, y[i := v])
  {
  }

  // ----- prologue: words 0 to 5 -----

  function Argument(s: State): u32
    requires s.Valid()
  {
    s.x[0] % TWO32
  }

  /** What `str wzr` stores: the low word of register 31 of the array, which nothing in the emulator keeps zero. */
  function Start(s: State): u32
    requires s.Valid()
  {
    W32(s.x[31])
  }

  function AfterSub(s: State, p: Program): State
    requires Entry(s, p)
  {
    s.(pc := p.base + 4, sp := s.sp - 32)
  }

  function AfterSave(s: State, p: Program): State
    requires Entry(s, p)
  {
    s.(pc := p.base + 8, sp := s.sp - 32, mem := s.mem.(ram := Put(s.mem.ram, FrameAt(s, p) + 12, 4, s.x[0])))
  }

  function AfterZero(s: State, p: Program): State
    requires Entry(s, p)
  {
    var r := AfterSave(s, p).mem.ram;
    s.(pc := p.base + 12, sp := s.sp - 32, mem := s.mem.(ram := Put(r, FrameAt(s, p) + 24, 4, s.x[31])))
  }

  function AfterLoad(s: State, p: Program): State
    requires Entry(s, p)
  {
    AfterZero(s, p).(pc := p.base + 16, x := s.x[0 := Argument(s)])
  }

  function AfterCount(s: State, p: Program): State
    requires Entry(s, p)
  {
    var u := AfterLoad(s, p);
    u.(pc := p.base + 20, mem := s.mem.(ram := Put(u.mem.ram, FrameAt(s, p) + 28, 4, Argument(s))))
  }

  lemma SlotAt(s: State, p: Program, sp: u64, at: nat)
    requires Entry(s, p) && sp == s.sp - 32 && at <= 28
    ensures U64(sp + at) == sp + at && InHost(U64(sp + at), 5) && U64(sp + at) - RAM_BASE == FrameAt(s, p) + at
  {
  }

  lemma Word0(f: State -> Try<State>, s: State, p: Program)
    requires Emulates(f) && Entry(s, p)
    ensures f(s) == Ok(AfterSub(s, p)) && At(AfterSub(s, p), p, 1)
  {
    NextWord(s, p, 0);
    assert U64(s.sp - 32) == s.sp - 32;
    SubSpReads(p);
    StepSpImm(f, s, p, 0, true, 32, 31);
  }

  lemma SaveState(s: State, p: Program)
    requires Entry(s, p) && At(AfterSub(s, p), p, 1)
    ensures
      var u := AfterSub(s, p);
      && InHost(U64(u.sp + 12), Bytes(Word)) && 12 == 3 * Bytes(Word)
      && Poke(u, U64(u.sp + 12), Bytes(Word), u.x[0]).Advance() == AfterSave(s, p) && At(AfterSave(s, p), p, 2)
  {
    NextWord(AfterSub(s, p), p, 1);
    SlotAt(s, p, AfterSub(s, p).sp, 12);
    PlacedPut(s.mem.ram, p, FrameAt(s, p) + 12, 4, s.x[0]);
  }

  lemma Word1(f: State -> Try<State>, s: State, p: Program)
    requires Emulates(f) && Entry(s, p) && At(AfterSub(s, p), p, 1)
    ensures f(AfterSub(s, p)) == Ok(AfterSave(s, p)) && At(AfterSave(s, p), p, 2)
  {
    SaveState(s, p);
    SaveArgumentReads(p);
    StepStr(f, AfterSub(s, p), p, 1, Word, 3, 12, 0);
  }

  lemma ZeroState(s: State, p: Program)
    requires Entry(s, p) && At(AfterSave(s, p), p, 2)
    ensures
      var u := AfterSave(s, p);
      && InHost(U64(u.sp + 24), Bytes(Word)) && 24 == 6 * Bytes(Word)
      && Poke(u, U64(u.sp + 24), Bytes(Word), u.x[31]).Advance() == AfterZero(s, p) && At(AfterZero(s, p), p, 3)
  {
    NextWord(AfterSave(s, p), p, 2);
    SlotAt(s, p, AfterSave(s, p).sp, 24);
    PlacedPut(AfterSave(s, p).mem.ram, p, FrameAt(s, p) + 24, 4, s.x[31]);
  }

  lemma Word2(f: State -> Try<State>, s: State, p: Program)
    requires Emulates(f) && Entry(s, p) && At(AfterSave(s, p), p, 2)
    ensures f(AfterSave(s, p)) == Ok(AfterZero(s, p)) && At(AfterZero(s, p), p, 3)
  {
    ZeroState(s, p);
    ZeroTotalReads(p);
    StepStr(f, AfterSave(s, p), p, 2, Word, 6, 24, 31);
  }

  lemma LoadState(s: State, p: Program)
    requires Entry(s, p) && At(AfterZero(s, p), p, 3)
    ensures
      var u := AfterZero(s, p);
      && InHost(U64(u.sp + 12), Span(Word)) && 12 == 3 * Bytes(Word) && Bytes(Word) <= Span(Word)
      && Peek(u, U64(u.sp + 12), Bytes(Word)) == Argument(s)
      && u.Set(0, Argument(s)).Advance() == AfterLoad(s, p) && At(AfterLoad(s, p), p, 4)
  {
    var o := FrameAt(s, p);
    NextWord(AfterZero(s, p), p, 3);
    SlotAt(s, p, AfterZero(s, p).sp, 12);
    GetPut32(s.mem.ram, o + 12, s.x[0]);
    GetPutDisjoint(AfterSave(s, p).mem.ram, o + 24, 4, s.x[31], o + 12, 4);
  }

  lemma Word3(f: State -> Try<State>, s: State, p: Program)
    requires Emulates(f) && Entry(s, p) && At(AfterZero(s, p), p, 3)
    ensures f(AfterZero(s, p)) == Ok(AfterLoad(s, p)) && At(AfterLoad(s, p), p, 4)
  {
    LoadState(s, p);
    LoadArgumentReads(p);
    StepLdr(f, AfterZero(s, p), p, 3, Word, 3, 12, 0);
  }

  lemma CountState(s: State, p: Program)
    requires Entry(s, p) && At(AfterLoad(s, p), p, 4)
    ensures
      var u := AfterLoad(s, p);
      && InHost(U64(u.sp + 28), Bytes(Word)) && 28 == 7 * Bytes(Word)
      && Poke(u, U64(u.sp + 28), Bytes(Word), u.x[0]).Advance() == AfterCount(s, p)
  {
    NextWord(AfterLoad(s, p), p, 4);
    SlotAt(s, p, AfterLoad(s, p).sp, 28);
  }

  lemma Word4(f: State -> Try<State>, s: State, p: Program)
    requires Emulates(f) && Entry(s, p) && At(AfterLoad(s, p), p, 4)
    ensures f(AfterLoad(s, p)) == Ok(AfterCount(s, p))
  {
    CountState(s, p);
    StoreCountReads(p, 4);
    StepStr(f, AfterLoad(s, p), p, 4, Word, 7, 28, 0);
  }

  lemma PrologueRam(r: Ram, o: nat, x0: u64, x31: u64, n: u32)
    requires |r| == RAM_SIZE && o + 32 < RAM_SIZE
    ensures Holds(r, Put(Put(Put(r, o + 12, 4, x0), o + 24, 4, x31), o + 28, 4, n), o, W32(x31), n)
  {
    var r1 := Put(r, o + 12, 4, x0);
    var r2 := Put(r1, o + 24, 4, x31);
    GetPut32(r1, o + 24, x31);
    GetPutDisjoint(r2, o + 28, 4, n, o + 24, 4);
    GetPut32(r2, o + 28, n);
  }

  lemma CountIsInFrame(s: State, p: Program)
    requires Entry(s, p)
    ensures InFrame(s, p, Start(s), Argument(s), AfterCount(s, p), 5)
  {
    PrologueRam(s.mem.ram, FrameAt(s, p), s.x[0], s.x[31], Argument(s));
    CodeKept(s.mem.ram, AfterCount(s, p).mem.ram, p, FrameAt(s, p), FrameAt(s, p) + 32);
  }

  lemma Prologue(f: State -> Try<State>, s: State, p: Program)
    requires Emulates(f) && Entry(s, p)
    ensures Goes(f, s, 5, AfterCount(s, p)) && InFrame(s, p, Start(s), Argument(s), AfterCount(s, p), 5)
  {
    Word0(f, s, p);
    GoesOne(f, s, AfterSub(s, p));
    Word1(f, s, p);
    GoesStep(f, s, 1, AfterSub(s, p), AfterSave(s, p));
    Word2(f, s, p);
    GoesStep(f, s, 2, AfterSave(s, p), AfterZero(s, p));
    Word3(f, s, p);
    GoesStep(f, s, 3, AfterZero(s, p), AfterLoad(s, p));
    Word4(f, s, p);
    GoesStep(f, s, 4, AfterLoad(s, p), AfterCount(s, p));
    CountIsInFrame(s, p);
  }

  lemma ToLoop(f: State -> Try<State>, s: State, p: Program, total: u32, count: u32, u: State) returns (t: State)
    requires Emulates(f) && Entry(s, p) && InFrame(s, p, total, count, u, 5)
    ensures f(u) == Ok(t) && InFrame(s, p, total, count, t, 13) && t.x == u.x
  {
    InFrameIsAt(s, p, total, count, u, 5);
    ToLoopReads(p);
    StepB(f, u, p, 5, false, 8, 8);
    BranchTo(u, p, 5, 8);
    t := u.Jump(U64(4 * 8));
    StillInFrame(s, p, total, count, u, 5, t, 13);
  }

  // ----- steps inside the frame -----

  lemma CountWord(s: State, p: Program, total: u32, count: u32, u: State, k: nat)
    requires Entry(s, p) && InFrame(s, p, total, count, u, k)
    ensures InHost(U64(u.sp + 28), Span(Word)) && 28 == 7 * Bytes(Word) && Bytes(Word) <= Span(Word)
    ensures Peek(u, U64(u.sp + 28), Bytes(Word)) == count
  {
    SlotAt(s, p, u.sp, 28);
  }

  lemma TotalWord(s: State, p: Program, total: u32, count: u32, u: State, k: nat)
    requires Entry(s, p) && InFrame(s, p, total, count, u, k)
    ensures InHost(U64(u.sp + 24), Span(Word)) && 24 == 6 * Bytes(Word) && Bytes(Word) <= Span(Word)
    ensures Peek(u, U64(u.sp + 24), Bytes(Word)) == total
  {
    SlotAt(s, p, u.sp, 24);
  }

  /** LDR w0, [sp, 28]. */
  lemma LoadCount(f: State -> Try<State>, s: State, p: Program, total: u32, count: u32, u: State, k: nat)
    returns (t: State)
    requires Emulates(f) && Entry(s, p) && InFrame(s, p, total, count, u, k) && k in {7, 10, 13}
    ensures f(u) == Ok(t) && InFrame(s, p, total, count, t, k + 1) && t.x == u.x[0 := count]
  {
    InFrameIsAt(s, p, total, count, u, k);
    CountWord(s, p, total, count, u, k);
    NextWord(u, p, k);
    LoadCountReads(p, k);
    StepLdr(f, u, p, k, Word, 7, 28, 0);
    t := u.Set(0, count).Advance();
    KeptBySet(s.x, u.x, 0, count);
    StillInFrame(s, p, total, count, u, k, t, k + 1);
  }

  /** LDR w1 or w0, [sp, 24]. */
  lemma LoadTotal(f: State -> Try<State>, s: State, p: Program, total: u32, count: u32, u: State, k: nat, rt: Reg)
    returns (t: State)
    requires Emulates(f) && Entry(s, p) && InFrame(s, p, total, count, u, k)
    requires (k == 6 && rt == 1) || (k == 16 && rt == 0)
    ensures f(u) == Ok(t) && InFrame(s, p, total, count, t, k + 1)
    ensures t == u.(pc := t.pc, x := u.x[rt := total])
  {
    InFrameIsAt(s, p, total, count, u, k);
    TotalWord(s, p, total, count, u, k);
    NextWord(u, p, k);
    LoadTotalReads(p, k, rt);
    StepLdr(f, u, p, k, Word, 6, 24, rt);
    t := u.Set(rt, total).Advance();
    KeptBySet(s.x, u.x, rt, total);
    StillInFrame(s, p, total, count, u, k, t, k + 1);
  }

  /** ADD w0, w1, w0. */
  lemma AddToTotal(f: State -> Try<State>, s: State, p: Program, total: u32, count: u32, u: State) returns (t: State)
    requires Emulates(f) && Entry(s, p) && InFrame(s, p, total, count, u, 8)
    ensures f(u) == Ok(t) && InFrame(s, p, total, count, t, 9) && t.x == u.x[0 := W32(Plus(u.x[1], u.x[0]))]
  {
    InFrameIsAt(s, p, total, count, u, 8);
    NextWord(u, p, 8);
    AddReads(p);
    StepAddW(f, u, p, 8, 0, 1, 0);
    t := u.Set(0, W32(Plus(u.x[1], u.x[0]))).Advance();
    KeptBySet(s.x, u.x, 0, W32(Plus(u.x[1], u.x[0])));
    StillInFrame(s, p, total, count, u, 8, t, 9);
  }

  /** SUB w0, w0, #1. */
  lemma CountDown(f: State -> Try<State>, s: State, p: Program, total: u32, count: u32, u: State) returns (t: State)
    requires Emulates(f) && Entry(s, p) && InFrame(s, p, total, count, u, 11) && u.x[0] == count && count > 0
    ensures f(u) == Ok(t) && InFrame(s, p, total, count, t, 12) && t.x == u.x[0 := count - 1]
  {
    InFrameIsAt(s, p, total, count, u, 11);
    NextWord(u, p, 11);
    OneLess(count);
    SubReads(p);
    StepSubW(f, u, p, 11, 1, 0, 0);
    t := u.Set(0, count - 1).Advance();
    KeptBySet(s.x, u.x, 0, count - 1);
    StillInFrame(s, p, total, count, u, 11, t, 12);
  }

  lemma OneLess(count: u32)
    requires count > 0
    ensures W32(Minus(count, 1)) == count - 1
  {
  }

  /** Storing a word in one of the frame's slots. */
  lemma SlotStored(r0: Ram, r: Ram, o: nat, total: u32, count: u32, at: nat, v: u32)
    requires |r| == RAM_SIZE && o + 32 < RAM_SIZE && Holds(r0, r, o, total, count) && (at == 24 || at == 28)
    ensures Holds(r0, Put(r, o + at, 4, v), o, if at == 24 then v else total, if at == 28 then v else count)
  {
    if at == 24 { WordStored(r, o + 24, v, o + 28); } else { WordStored(r, o + 28, v, o + 24); }
    StoreOutside(r0, r, o, at, v);
  }

  lemma WordStored(r: Ram, at: nat, v: u32, other: nat)
    requires at + 4 <= |r| && other + 4 <= |r| && (at + 4 <= other || other + 4 <= at)
    ensures Get(Put(r, at, 4, v), at, 4) == v && Get(Put(r, at, 4, v), other, 4) == Get(r, other, 4)
  {
    GetPut32(r, at, v);
    GetPutDisjoint(r, at, 4, v, other, 4);
  }

  lemma StoreOutside(r0: Ram, r: Ram, o: nat, at: nat, v: u32)
    requires o + 32 <= |r| && at <= 28 && SameOutside(r0, r, o, o + 32)
    ensures SameOutside(r0, Put(r, o + at, 4, v), o, o + 32)
  {
  }

  lemma Stored(s: State, p: Program, total: u32, count: u32, u: State, k: nat, at: nat, v: u32) returns (t: State)
    requires Entry(s, p) && InFrame(s, p, total, count, u, k) && k + 1 < |p.code| && (at == 24 || at == 28)
    ensures InHost(U64(u.sp + at), Bytes(Word)) && t == Poke(u, U64(u.sp + at), Bytes(Word), v).Advance()
    ensures InFrame(s, p, if at == 24 then v else total, if at == 28 then v else count, t, k + 1) && t.x == u.x
  {
    InFrameIsAt(s, p, total, count, u, k);
    NextWord(u, p, k);
    SlotAt(s, p, u.sp, at);
    SlotStored(s.mem.ram, u.mem.ram, FrameAt(s, p), total, count, at, v);
    PlacedPut(u.mem.ram, p, FrameAt(s, p) + at, 4, v);
    t := Poke(u, U64(u.sp + at), Bytes(Word), v).Advance();
    assert t.mem.ram == Put(u.mem.ram, FrameAt(s, p) + at, 4, v);
  }

  /** STR w0, [sp, 24]. */
  lemma StoreTotal(f: State -> Try<State>, s: State, p: Program, total: u32, count: u32, u: State, v: u32)
    returns (t: State)
    requires Emulates(f) && Entry(s, p) && InFrame(s, p, total, count, u, 9) && u.x[0] == v
    ensures f(u) == Ok(t) && InFrame(s, p, v, count, t, 10) && t.x == u.x
  {
    InFrameIsAt(s, p, total, count, u, 9);
    t := Stored(s, p, total, count, u, 9, 24, v);
    StoreTotalReads(p);
    assert 24 == 6 * Bytes(Word);
    StepStr(f, u, p, 9, Word, 6, 24, 0);
  }

  /** STR w0, [sp, 28]. */
  lemma StoreCount(f: State -> Try<State>, s: State, p: Program, total: u32, count: u32, u: State, v: u32)
    returns (t: State)
    requires Emulates(f) && Entry(s, p) && InFrame(s, p, total, count, u, 12) && u.x[0] == v
    ensures f(u) == Ok(t) && InFrame(s, p, total, v, t, 13) && t.x == u.x
  {
    InFrameIsAt(s, p, total, count, u, 12);
    t := Stored(s, p, total, count, u, 12, 28, v);
    StoreCountReads(p, 12);
    assert 28 == 7 * Bytes(Word);
    StepStr(f, u, p, 12, Word, 7, 28, 0);
  }

  /** CMP w0, 0. */
  lemma CompareCount(f: State -> Try<State>, s: State, p: Program, total: u32, count: u32, u: State) returns (t: State)
    requires Emulates(f) && Entry(s, p) && InFrame(s, p, total, count, u, 14) && u.x[0] == count
    ensures f(u) == Ok(t) && InFrame(s, p, total, count, t, 15) && t.x == u.x && t.nzcv == WithZero(count)
  {
    InFrameIsAt(s, p, total, count, u, 14);
    NextWord(u, p, 14);
    CompareReads(p);
    StepCmpW(f, u, p, 14, 0, 0);
    t := u.(nzcv := WithZero(count)).Advance();
    StillInFrame(s, p, total, count, u, 14, t, 15);
  }

  /** The flags of a comparison with zero. */
  function WithZero(count: u32): NZCV { AddImmS32(count, 0, true).1 }

  lemma GreaterThanZero(count: u32)
    ensures CheckBFlag(12, WithZero(count)) == (0 < count < TWO31)
  {
    Compare32(12, count, 0);
  }

  /** B.GT to the loop body while the counter, read as a signed number, is positive. */
  lemma BranchIfPositive(f: State -> Try<State>, s: State, p: Program, total: u32, count: u32, u: State)
    returns (t: State)
    requires Emulates(f) && Entry(s, p) && InFrame(s, p, total, count, u, 15) && u.nzcv == WithZero(count)
    ensures f(u) == Ok(t) && InFrame(s, p, total, count, t, if 0 < count < TWO31 then 6 else 16)
    ensures t.x == u.x && t.nzcv == u.nzcv
  {
    InFrameIsAt(s, p, total, count, u, 15);
    NextWord(u, p, 15);
    BranchTo(u, p, 15, 0 - 9);
    GreaterReads(p);
    StepBCond(f, u, p, 15, 12, 0x7fff7, 0 - 9);
    GreaterThanZero(count);
    t := if 0 < count < TWO31 then u.Jump(U64(4 * (0 - 9))) else u.Advance();
    StillInFrame(s, p, total, count, u, 15, t, if 0 < count < TWO31 then 6 else 16);
  }

  // ----- the loop -----

  /** Words 13 to 15: the loop test. */
  lemma Test(f: State -> Try<State>, s: State, p: Program, total: u32, count: u32, u: State) returns (t: State)
    requires Emulates(f) && Entry(s, p) && InFrame(s, p, total, count, u, 13)
    ensures Goes(f, u, 3, t) && InFrame(s, p, total, count, t, if 0 < count < TWO31 then 6 else 16)
    ensures t.nzcv == WithZero(count) && t.x == u.x[0 := count]
  {
    var u1 := LoadCount(f, s, p, total, count, u, 13);
    GoesOne(f, u, u1);
    var u2 := CompareCount(f, s, p, total, count, u1);
    GoesStep(f, u, 1, u1, u2);
    t := BranchIfPositive(f, s, p, total, count, u2);
    GoesStep(f, u, 2, u2, t);
  }

  /** Words 6 to 9: the total grows by the counter. */
  lemma AddCount(f: State -> Try<State>, s: State, p: Program, total: u32, count: u32, u: State) returns (t: State)
    requires Emulates(f) && Entry(s, p) && InFrame(s, p, total, count, u, 6)
    ensures Goes(f, u, 4, t) && InFrame(s, p, W32(total + count), count, t, 10) && t.x[1] == total
  {
    var u1 := LoadTotal(f, s, p, total, count, u, 6, 1);
    GoesOne(f, u, u1);
    var u2 := LoadCount(f, s, p, total, count, u1, 7);
    GoesStep(f, u, 1, u1, u2);
    var u3 := AddToTotal(f, s, p, total, count, u2);
    GoesStep(f, u, 2, u2, u3);
    t := StoreTotal(f, s, p, total, count, u3, W32(total + count));
    GoesStep(f, u, 3, u3, t);
  }

  /** Words 10 to 12: the counter goes down by one. */
  lemma Decrement(f: State -> Try<State>, s: State, p: Program, total: u32, count: u32, u: State) returns (t: State)
    requires Emulates(f) && Entry(s, p) && InFrame(s, p, total, count, u, 10) && count > 0
    ensures Goes(f, u, 3, t) && InFrame(s, p, total, count - 1, t, 13) && t.x[1] == u.x[1]
  {
    var u1 := LoadCount(f, s, p, total, count, u, 10);
    GoesOne(f, u, u1);
    var u2 := CountDown(f, s, p, total, count, u1);
    GoesStep(f, u, 1, u1, u2);
    t := StoreCount(f, s, p, total, count, u2, count - 1);
    GoesStep(f, u, 2, u2, t);
  }

  /** 1 + 2 + ... + n. */
  function Total(n: nat): nat { if n == 0 then 0 else n + Total(n - 1) }

  lemma {:induction false} TotalClosed(n: nat)
    ensures Total(n) == n * (n + 1) / 2
  {
    if n == 0 {
    } else {
      TotalClosed(n - 1);
      NextTriangle(n, n * n);
    }
  }

  lemma NextTriangle(n: nat, square: nat)
    requires square == n * n
    ensures n * (n + 1) == square + n && (n - 1) * n == square - n
    ensures n + (square - n) / 2 == (square + n) / 2
  {
  }

  /** What the loop leaves in w1: the total before the last addition. */
  function LastAddend(total: int, count: nat, x1: u64): u64
  {
    if count == 0 then x1 else W32(total + Total(count) - 1)
  }

  lemma LastAddendStep(total: int, count: nat, x1: u64)
    requires count > 0
    ensures LastAddend(total + count, count - 1, W32(total)) == LastAddend(total, count, x1)
    ensures total + count + Total(count - 1) == total + Total(count)
  {
    assert count == 1 ==> Total(count) == 1;
  }

  /** One turn of the loop. */
  lemma Turn(f: State -> Try<State>, s: State, p: Program, total: int, count: u32, u: State) returns (t: State)
    requires Emulates(f) && Entry(s, p) && InFrame(s, p, W32(total), count, u, 13) && 0 < count < TWO31
    ensures Goes(f, u, 10, t) && InFrame(s, p, W32(total + count), count - 1, t, 13) && t.x[1] == W32(total)
  {
    var u0 := Test(f, s, p, W32(total), count, u);
    var u1 := AddCount(f, s, p, W32(total), count, u0);
    GoesThrough(f, u, 3, u0, 4, u1);
    AddWraps(total, count);
    t := Decrement(f, s, p, W32(total + count), count, u1);
    GoesThrough(f, u, 7, u1, 3, t);
  }

  lemma AddWraps(total: int, count: int)
    ensures W32(W32(total) + count) == W32(total + count)
  {
  }

  /** From the loop test on, a counter that is not negative runs down to zero and all its values are added. */
  lemma {:induction false} Loop(f: State -> Try<State>, s: State, p: Program, total: int, count: u32, u: State)
    returns (t: State)
    requires Emulates(f) && Entry(s, p) && InFrame(s, p, W32(total), count, u, 13) && count < TWO31
    ensures Goes(f, u, 10 * count + 3, t) && InFrame(s, p, W32(total + Total(count)), 0, t, 16)
    ensures t.nzcv == WithZero(0) && t.x[1] == LastAddend(total, count, u.x[1])
    decreases count
  {
    if count == 0 {
      t := Test(f, s, p, W32(total), 0, u);
    } else {
      var u2 := Turn(f, s, p, total, count, u);
      t := Loop(f, s, p, total + count, count - 1, u2);
      LastAddendStep(total, count, u.x[1]);
      GoesOn(f, u, u2, 10 * (count - 1) + 3, t, 10 * count + 3);
    }
  }

  lemma GoesOn(f: State -> Try<State>, u: State, u2: State, m: nat, t: State, n: nat)
    requires Goes(f, u, 10, u2) && Goes(f, u2, m, t) && n == 10 + m
    ensures Goes(f, u, n, t)
  {
    GoesThrough(f, u, 10, u2, m, t);
  }

  // ----- epilogue: words 16 to 18 -----

  /** The state at the return address: w0 holds the result; w1, the flags and the frame may have changed. */
  ghost predicate Returned(s: State, t: State, result: u32, x1: u64, flags: NZCV)
    requires s.Valid() && s.sp >= RAM_BASE
  {
    && t == s.(pc := s.x[30], x := s.x[0 := result][1 := x1], nzcv := flags, mem := s.mem.(ram := t.mem.ram))
    && SameOutside(s.mem.ram, t.mem.ram, s.sp - 32 - RAM_BASE, s.sp - RAM_BASE)
  }

  lemma FreeFrame(f: State -> Try<State>, s: State, p: Program, total: u32, count: u32, u: State) returns (t: State)
    requires Emulates(f) && Entry(s, p) && InFrame(s, p, total, count, u, 17)
    ensures f(u) == Ok(t) && At(t, p, 18) && t == u.(pc := p.base + 72, sp := s.sp)
  {
    InFrameIsAt(s, p, total, count, u, 17);
    NextWord(u, p, 17);
    assert U64(u.sp + 32) == s.sp;
    AddSpReads(p);
    StepSpImm(f, u, p, 17, false, 32, 31);
    t := u.(pc := p.base + 72, sp := s.sp);
  }

  lemma SameRegisters(x: seq<u64>, y: seq<u64>)
    requires Kept(x, y)
    ensures y == x[0 := y[0]][1 := y[1]]
  {
  }

  lemma ReturnedState(s: State, p: Program, total: u32, count: u32, u: State, t: State)
    requires Entry(s, p) && InFrame(s, p, total, count, u, 17) && u.x[0] == total && t == u.(pc := s.x[30], sp := s.sp)
    ensures Returned(s, t, total, u.x[1], u.nzcv)
  {
    SameRegisters(s.x, u.x);
  }

  lemma Epilogue(f: State -> Try<State>, s: State, p: Program, total: u32, count: u32, u: State) returns (t: State)
    requires Emulates(f) && Entry(s, p) && InFrame(s, p, total, count, u, 16)
    ensures Goes(f, u, 3, t) && Returned(s, t, total, u.x[1], u.nzcv)
  {
    var u1 := LoadTotal(f, s, p, total, count, u, 16, 0);
    GoesOne(f, u, u1);
    var u2 := FreeFrame(f, s, p, total, count, u1);
    GoesStep(f, u, 1, u1, u2);
    RetReads(p);
    StepRet(f, u2, p, 18);
    t := u2.(pc := s.x[30]);
    GoesStep(f, u, 2, u2, t);
    ReturnedState(s, p, total, count, u1, t);
  }

  // ----- the function -----

  /** What the function computes when register 31 of the array starts as `x31`. */
  function Result(x31: u64, n: u32): u32 { if n < TWO31 then W32(x31 + n * (n + 1) / 2) else W32(x31) }

  /** What it is for. */
  function Triangle(n: u32): u32 { if n < TWO31 then W32(n * (n + 1) / 2) else 0 }

  /** It computes that exactly when the low word of register 31 is zero. */
  lemma RightIff(x31: u64, n: u32)
    ensures Result(x31, n) == Triangle(n) <==> W32(x31) == 0
  {
    if n < TWO31 { SameSumIff(x31, n * (n + 1) / 2); }
  }

  lemma SameSumIff(a: int, b: int)
    ensures W32(a + b) == W32(b) <==> W32(a) == 0
  {
    if W32(a + b) == W32(b) { DivModUnique(a, TWO32, (a + b) / TWO32 - b / TWO32, 0); }
    if W32(a) == 0 { DivModUnique(a + b, TWO32, a / TWO32 + b / TWO32, W32(b)); }
  }

  /** From a register 31 of -32 the result is 32 too small: sum_test_enter leaves that value when it was zero. */
  lemma AfterIndexedPush(n: u32)
    ensures Result(U64(-32), n) == W32(Triangle(n) - 32) != Triangle(n)
  {
    if n < TWO31 { LessInModulus(n * (n + 1) / 2); }
    RightIff(U64(-32), n);
  }

  lemma LessInModulus(b: nat)
    ensures W32(U64(-32) + b) == W32(W32(b) - 32)
  {
    var v := (b + 0xffff_ffe0) % TWO32;
    DivModUnique(U64(-32) + b, TWO32, 0xffff_ffff + (b + 0xffff_ffe0) / TWO32, v);
    DivModUnique(W32(b) - 32, TWO32, (b + 0xffff_ffe0) / TWO32 - b / TWO32 - 1, v);
  }

  /** The run is over: w0 holds the result, w1 the total before the last addition if there was one, the flags
      are those of the last comparison, and nothing else but the frame has changed. */
  ghost predicate Completed(s: State, t: State, n: u32)
    requires s.Valid() && s.sp >= RAM_BASE
  {
    if n < TWO31 then Returned(s, t, Result(s.x[31], n), LastAddend(s.x[31], n, s.x[1]), WithZero(0))
    else Returned(s, t, Result(s.x[31], n), s.x[1], WithZero(n))
  }

  function StepCount(n: u32): nat { if n < TWO31 then 10 * n + 12 else 12 }

  /** The run from the entry to the loop test. */
  lemma UpToLoop(f: State -> Try<State>, s: State, p: Program) returns (t: State)
    requires Emulates(f) && Entry(s, p)
    ensures Goes(f, s, 6, t) && InFrame(s, p, Start(s), Argument(s), t, 13) && t.x[1] == s.x[1]
  {
    Prologue(f, s, p);
    t := ToLoop(f, s, p, Start(s), Argument(s), AfterCount(s, p));
    GoesStep(f, s, 5, AfterCount(s, p), t);
  }

  lemma ThreeParts(f: State -> Try<State>, s: State, u: State, m: nat, v: State, t: State, n: nat)
    requires Goes(f, s, 6, u) && Goes(f, u, m, v) && Goes(f, v, 3, t) && n == 9 + m
    ensures Goes(f, s, n, t)
  {
    GoesThrough(f, s, 6, u, m, v);
    GoesThrough(f, s, 6 + m, v, 3, t);
  }

  lemma RunsDown(f: State -> Try<State>, s: State, p: Program, n: u32) returns (t: State)
    requires Emulates(f) && Entry(s, p) && n == Argument(s) < TWO31
    ensures Goes(f, s, StepCount(n), t) && Completed(s, t, n)
  {
    var u := UpToLoop(f, s, p);
    var v := Loop(f, s, p, s.x[31], n, u);
    TotalClosed(n);
    t := Epilogue(f, s, p, W32(s.x[31] + Total(n)), 0, v);
    ThreeParts(f, s, u, 10 * n + 3, v, t, StepCount(n));
  }

  lemma RunsOnce(f: State -> Try<State>, s: State, p: Program, n: u32) returns (t: State)
    requires Emulates(f) && Entry(s, p) && n == Argument(s) >= TWO31
    ensures Goes(f, s, StepCount(n), t) && Completed(s, t, n)
  {
    var u := UpToLoop(f, s, p);
    var v := Test(f, s, p, Start(s), n, u);
    t := Epilogue(f, s, p, Start(s), n, v);
    ThreeParts(f, s, u, 3, v, t, StepCount(n));
  }

  /** For every argument below 2^31 the function returns after exactly 10n + 12 instructions with n(n+1)/2
      added to the low word of register 31; a negative one gives that word after 12.  So the result is right
      exactly when that word is zero.  sp and every other register are as on entry, and no byte outside the
      32-byte frame has changed. */
  lemma SumRuns(f: State -> Try<State>, s: State, p: Program) returns (t: State)
    requires Emulates(f) && Entry(s, p)
    ensures
      var n := Argument(s);
      Goes(f, s, StepCount(n), t) && Completed(s, t, n)
    ensures Result(s.x[31], Argument(s)) == Triangle(Argument(s)) <==> W32(s.x[31]) == 0
  {
    RightIff(s.x[31], Argument(s));
    if Argument(s) < TWO31 { t := RunsDown(f, s, p, Argument(s)); } else { t := RunsOnce(f, s, p, Argument(s)); }
  }
}
