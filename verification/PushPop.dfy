/** STP pre-indexed on sp and LDP post-indexed on sp undo each other, with translation on or off; STR and LDR,
    indexed, do not move sp. */
module PushPop {
  import opened Words
  import opened Util
  import opened Memory
  import opened Virtio
  import opened Isa
  import opened Listings
  import opened Pairs
  import opened VirtualMemory

  /** The two words of a pair translate to RAM, and neither store disturbs the other word or a walk. */
  ghost predicate PairRoom(s: State, va: u64, vb: u64, pa: u64, pb: u64, size: Size)
    requires s.Valid()
  {
    && MapsTo(s, va, pa, size) && MapsTo(s, vb, pb, size)
    && WalkClear(s, va, pa, size) && WalkClear(s, va, pb, size)
    && WalkClear(s, vb, pa, size) && WalkClear(s, vb, pb, size)
    && (pa + Bytes(size) <= pb || pb + Bytes(size) <= pa)
  }

  /** `s` with both words stored. */
  function BothWritten(s: State, pa: u64, pb: u64, v1: u64, v2: u64, size: Size): (t: State)
    requires s.Valid() && InHost(pa, Bytes(size)) && InHost(pb, Bytes(size))
    ensures t.Valid() && t == s.(mem := s.mem.(ram := t.mem.ram))
  {
    Written(Written(s, pa, v1, size), pb, v2, size)
  }

  lemma FirstWritten(s: State, va: u64, vb: u64, pa: u64, pb: u64, v1: u64, size: Size)
    requires s.Valid() && PairRoom(s, va, vb, pa, pb, size)
    ensures Store(s, va, v1, size) == Ok(Written(s, pa, v1, size))
    ensures MapsTo(Written(s, pa, v1, size), va, pa, size) && MapsTo(Written(s, pa, v1, size), vb, pb, size)
    ensures WalkClear(Written(s, pa, v1, size), va, pb, size) && WalkClear(Written(s, pa, v1, size), vb, pb, size)
  {
    StoreWrites(s, va, pa, v1, size);
    StoreKeepsTranslation(s.mem.ram, s.mmu, va, pa, Bytes(size), v1);
    StoreKeepsTranslation(s.mem.ram, s.mmu, vb, pa, Bytes(size), v1);
  }

  /** Both stores go through, and afterwards both addresses still translate as before. */
  lemma PairWritten(s: State, va: u64, vb: u64, pa: u64, pb: u64, v1: u64, v2: u64, size: Size)
    requires s.Valid() && PairRoom(s, va, vb, pa, pb, size)
    ensures Store(s, va, v1, size) == Ok(Written(s, pa, v1, size))
    ensures Store(Written(s, pa, v1, size), vb, v2, size) == Ok(BothWritten(s, pa, pb, v1, v2, size))
    ensures MapsTo(BothWritten(s, pa, pb, v1, v2, size), va, pa, size)
    ensures MapsTo(BothWritten(s, pa, pb, v1, v2, size), vb, pb, size)
  {
    var s1 := Written(s, pa, v1, size);
    FirstWritten(s, va, vb, pa, pb, v1, size);
    StoreWrites(s1, vb, pb, v2, size);
    MapsAfter(s1, vb, pb, v2, size, va, pa, size);
    MapsAfter(s1, vb, pb, v2, size, vb, pb, size);
  }

  /** Both words read back. */
  lemma PairReadBack(s: State, w: State, va: u64, vb: u64, pa: u64, pb: u64, v1: u64, v2: u64, size: Size)
    requires s.Valid() && PairRoom(s, va, vb, pa, pb, size)
    requires w.Valid() && w.mem.ram == BothWritten(s, pa, pb, v1, v2, size).mem.ram && w.mmu == s.mmu
    ensures Load(w, va, size) == Ok(Low(v1, size)) && Load(w, vb, size) == Ok(Low(v2, size))
  {
    PairMapped(s, w, va, vb, pa, pb, v1, v2, size);
    PairHeld(s, w, pa, pb, v1, v2, size);
    ReadsLow(w, va, pa, v1, size);
    ReadsLow(w, vb, pb, v2, size);
  }

  lemma PairMapped(s: State, w: State, va: u64, vb: u64, pa: u64, pb: u64, v1: u64, v2: u64, size: Size)
    requires s.Valid() && PairRoom(s, va, vb, pa, pb, size)
    requires w.Valid() && w.mem.ram == BothWritten(s, pa, pb, v1, v2, size).mem.ram && w.mmu == s.mmu
    ensures MapsTo(w, va, pa, size) && MapsTo(w, vb, pb, size)
  {
    PairWritten(s, va, vb, pa, pb, v1, v2, size);
  }

  lemma PairHeld(s: State, w: State, pa: u64, pb: u64, v1: u64, v2: u64, size: Size)
    requires s.Valid() && InHost(pa, Bytes(size)) && InHost(pb, Bytes(size))
    requires pa + Bytes(size) <= pb || pb + Bytes(size) <= pa
    requires w.Valid() && w.mem.ram == BothWritten(s, pa, pb, v1, v2, size).mem.ram
    ensures Get(w.mem.ram, pa - RAM_BASE, Bytes(size)) == v1 % Pow2(8 * Bytes(size))
    ensures Get(w.mem.ram, pb - RAM_BASE, Bytes(size)) == v2 % Pow2(8 * Bytes(size))
  {
    var oa, ob, n := pa - RAM_BASE, pb - RAM_BASE, Bytes(size);
    assert w.mem.ram == Put(Put(s.mem.ram, oa, n, v1), ob, n, v2);
    BothRead(s.mem.ram, oa, ob, n, v1, v2);
  }

  lemma ReadsLow(w: State, va: u64, pa: u64, v: u64, size: Size)
    requires w.Valid() && MapsTo(w, va, pa, size)
    requires Get(w.mem.ram, pa - RAM_BASE, Bytes(size)) == v % Pow2(8 * Bytes(size))
    ensures Load(w, va, size) == Ok(Low(v, size))
  {
    LoadReads(w, va, pa, size);
  }

  lemma BothRead(r: Ram, oa: nat, ob: nat, n: nat, v1: nat, v2: nat)
    requires oa + n <= |r| && ob + n <= |r| && (oa + n <= ob || ob + n <= oa)
    ensures Get(Put(Put(r, oa, n, v1), ob, n, v2), oa, n) == v1 % Pow2(8 * n)
    ensures Get(Put(Put(r, oa, n, v1), ob, n, v2), ob, n) == v2 % Pow2(8 * n)
  {
    GetPut(r, oa, n, v1);
    GetPutDisjoint(Put(r, oa, n, v1), ob, n, v2, oa, n);
    GetPut(Put(r, oa, n, v1), ob, n, v2);
  }

  // ----- the instructions -----

  function WordSize(wide: bool): Size { if wide then DWord else Word }

  function Push(wide: bool, imm: Imm7, rt: Reg, rt2: Reg): Instr { Pair(false, wide, PreIndex, imm, rt, rt2, 31) }

  function Pop(wide: bool, imm: Imm7, rt: Reg, rt2: Reg): Instr { Pair(true, wide, PostIndex, imm, rt, rt2, 31) }

  // ----- addresses -----

  /** The displacement of a pair access, in bytes. */
  function Displacement(wide: bool, imm: Imm7): int { if wide then 8 * SignedBy(imm, 64) else 4 * SignedBy(imm, 64) }

  lemma PairOffsetIs(imm: Imm7, wide: bool)
    ensures PairOffset(imm, wide) == U64(Displacement(wide, imm))
  {
    if wide { WidePairOffset(imm); } else { NarrowPairOffset(imm); }
  }

  lemma WrapRight(a: int, b: int)
    ensures U64(a + U64(b)) == U64(a + b)
  {
    DivModUnique(a + b, TWO64, (a + U64(b)) / TWO64 + b / TWO64, U64(a + U64(b)));
  }

  /** Where a push by `-k` puts its first word. */
  lemma PushAddress(i: Instr, sp: u64, k: int)
    requires i.Pair? && i.mode == PreIndex && Displacement(i.wide, i.imm7) == 0 - k
    ensures PairAddr(sp, i) == U64(sp - k)
  {
    PairOffsetIs(i.imm7, i.wide);
    WrapRight(sp, 0 - k);
  }

  /** Where a pop by `+k` leaves sp, after a push by `-k`. */
  lemma PopAddress(i: Instr, sp: u64, k: int, down: u64)
    requires i.Pair? && i.mode == PostIndex && Displacement(i.wide, i.imm7) == k && down == U64(sp - k)
    ensures PairAddr(down, i) == down && U64(down + PairOffset(i.imm7, i.wide)) == sp
  {
    PairOffsetIs(i.imm7, i.wide);
    DownAndUp(sp, k, down, PairOffset(i.imm7, i.wide));
  }

  lemma DownAndUp(sp: u64, k: int, down: u64, up: u64)
    requires down == U64(sp - k) && up == U64(k)
    ensures U64(down + up) == sp
  {
    DivModUnique(down + up, TWO64, 0 - (sp - k) / TWO64 - k / TWO64, sp);
  }

  // ----- execution -----

  /** The state after the push. */
  function PushedState(s: State, rt: Reg, rt2: Reg, size: Size, va: u64, pa: u64, pb: u64): State
    requires s.Valid() && InHost(pa, Bytes(size)) && InHost(pb, Bytes(size))
  {
    BothWritten(s, pa, pb, s.x[rt], s.x[rt2], size).(sp := va, pc := U64(s.pc + 4))
  }

  lemma PushRuns(s: State, i: Instr, va: u64, vb: u64, pa: u64, pb: u64)
    requires s.Valid() && i.Pair? && !i.load && i.mode == PreIndex && i.rn == 31
    requires va == PairAddr(s.sp, i) && vb == NextTo(va, i) && PairRoom(s, va, vb, pa, pb, Access(i))
    ensures Does(s, i, PushedState(s, i.rt, i.rt2, Access(i), va, pa, pb))
  {
    PairWritten(s, va, vb, pa, pb, s.x[i.rt], s.x[i.rt2], Access(i));
    StorePairOnSp(s, i, va, Written(s, pa, s.x[i.rt], Access(i)),
          BothWritten(s, pa, pb, s.x[i.rt], s.x[i.rt2], Access(i)),
          PushedState(s, i.rt, i.rt2, Access(i), va, pa, pb));
  }

  /** The state after the pop: two registers, sp and pc have changed. */
  function PoppedState(w: State, sp: u64, rt: Reg, rt2: Reg, v1: u64, v2: u64): State
    requires w.Valid()
  {
    w.(sp := sp, pc := U64(w.pc + 4), x := w.x[rt := v1][rt2 := v2])
  }

  lemma PopAfter(s: State, w: State, i: Instr, j: Instr, vb: u64, pa: u64, pb: u64)
    requires s.Valid() && i.Pair? && j.Pair? && j == i.(load := true, mode := PostIndex, imm7 := j.imm7) && i.rn == 31
    requires vb == NextTo(w.sp, i) && PairAddr(w.sp, j) == w.sp && U64(w.sp + PairOffset(j.imm7, j.wide)) == s.sp
    requires PairRoom(s, w.sp, vb, pa, pb, Access(i)) && w.Valid() && w.mmu == s.mmu
    requires w.mem.ram == BothWritten(s, pa, pb, s.x[i.rt], s.x[i.rt2], Access(i)).mem.ram
    ensures Does(w, j, PoppedState(w, s.sp, i.rt, i.rt2, Low(s.x[i.rt], Access(i)), Low(s.x[i.rt2], Access(i))))
  {
    assert NextTo(w.sp, j) == vb;
    var v1, v2 := Low(s.x[i.rt], Access(i)), Low(s.x[i.rt2], Access(i));
    assert Load(w, w.sp, Access(j)) == Ok(v1) && Load(w, vb, Access(j)) == Ok(v2) by {
      PairReadBack(s, w, w.sp, vb, pa, pb, s.x[i.rt], s.x[i.rt2], Access(i));
    }
    LoadPairOnSp(w, j, v1, v2, s.sp, PoppedState(w, s.sp, i.rt, i.rt2, v1, v2));
  }

  lemma PushFrom(s: State, i: Instr, k: int, va: u64, vb: u64, pa: u64, pb: u64)
    requires s.Valid() && i.Pair? && !i.load && i.mode == PreIndex && i.rn == 31
    requires Displacement(i.wide, i.imm7) == 0 - k && va == U64(s.sp - k) && vb == NextTo(va, i)
    requires PairRoom(s, va, vb, pa, pb, Access(i))
    ensures Does(s, i, PushedState(s, i.rt, i.rt2, Access(i), va, pa, pb))
  {
    PushAddress(i, s.sp, k);
    PushRuns(s, i, va, vb, pa, pb);
  }

  lemma PopTo(s: State, w: State, i: Instr, j: Instr, k: int, vb: u64, pa: u64, pb: u64)
    requires s.Valid() && i.Pair? && j.Pair? && !i.load && j == i.(load := true, mode := PostIndex, imm7 := j.imm7)
    requires i.rn == 31
    requires Displacement(j.wide, j.imm7) == k && w.sp == U64(s.sp - k) && vb == NextTo(w.sp, i)
    requires PairRoom(s, w.sp, vb, pa, pb, Access(i)) && w.Valid() && w.mmu == s.mmu
    requires w.mem.ram == BothWritten(s, pa, pb, s.x[i.rt], s.x[i.rt2], Access(i)).mem.ram
    ensures Does(w, j, PoppedState(w, s.sp, i.rt, i.rt2, Low(s.x[i.rt], Access(i)), Low(s.x[i.rt2], Access(i))))
  {
    PopAddress(j, s.sp, k, w.sp);
    PopAfter(s, w, i, j, vb, pa, pb);
  }

  /** A pair pushed by `-k` and popped by `+k` comes back, whatever registers, flags or pc have changed in
      between: the two registers (their low words, for a 32-bit pair) and sp are as before the push, and the
      pop changes nothing else.  Holds for every sp, and for every scaled `k`, also a negative one. */
  lemma PushThenPop(s: State, w: State, wide: bool, down: Imm7, up: Imm7, k: int, rt: Reg, rt2: Reg,
                    va: u64, vb: u64, pa: u64, pb: u64)
    requires s.Valid() && Displacement(wide, up) == k && Displacement(wide, down) == 0 - k
    requires va == U64(s.sp - k) && vb == NextTo(va, Push(wide, down, rt, rt2))
    requires PairRoom(s, va, vb, pa, pb, WordSize(wide))
    requires w.Valid() && w.mmu == s.mmu && w.sp == va
    requires w.mem.ram == PushedState(s, rt, rt2, WordSize(wide), va, pa, pb).mem.ram
    ensures Does(s, Push(wide, down, rt, rt2), PushedState(s, rt, rt2, WordSize(wide), va, pa, pb))
    ensures Does(w, Pop(wide, up, rt, rt2),
                 PoppedState(w, s.sp, rt, rt2, Low(s.x[rt], WordSize(wide)), Low(s.x[rt2], WordSize(wide))))
  {
    PushFrom(s, Push(wide, down, rt, rt2), k, va, vb, pa, pb);
    PopTo(s, w, Push(wide, down, rt, rt2), Pop(wide, up, rt, rt2), k, vb, pa, pb);
  }

  // ----- indexed single accesses -----

  /** The registers after an indexed access: number `rn` of the array has been moved on, after the load if there
      was one, and sp is untouched. */
  lemma SingleRegisters(s: State, i: Instr, t: State, offset: u64)
    requires s.Valid() && i.Single? && i.mode != Offset && Does(s, i, t)
    requires offset == SingleOffset(i.imm12, i.size, i.mode)
    ensures t.Valid() && t.sp == s.sp
    ensures !(i.load && i.rt == i.rn) ==> t.x[i.rn] == U64(s.x[i.rn] + offset)
  {
    var addr := SingleAddr(s.RegOrSp(i.rn), i);
    var u := TransferOf(s, i, t, addr);
    TransferRegisters(s, i, addr, u);
    WriteBackRegisters(u, i, offset);
  }

  lemma WriteBackRegisters(u: State, i: Instr, offset: u64)
    requires u.Valid() && i.Single? && i.mode != Offset && offset == SingleOffset(i.imm12, i.size, i.mode)
    ensures WriteBackSingle(u, i).Valid() && WriteBackSingle(u, i).sp == u.sp
    ensures WriteBackSingle(u, i).x[i.rn] == U64(u.x[i.rn] + offset)
  {
  }

  /** `u` is what the transfer at `addr` makes of `s`; folded like `Does`. */
  ghost predicate Accesses(s: State, i: Instr, addr: u64, u: State)
    requires s.Valid() && i.Single?
  {
    u.Valid() && forall z {:trigger Open(z)} :: Open(z) ==> SingleTransfer(s, i, addr) == Ok(u)
  }

  lemma TransferOf(s: State, i: Instr, t: State, addr: u64) returns (u: State)
    requires s.Valid() && i.Single? && Does(s, i, t) && addr == SingleAddr(s.RegOrSp(i.rn), i)
    ensures Accesses(s, i, addr, u) && t == WriteBackSingle(u, i).Advance()
  {
    assert Open(0);
    u := SingleTransfer(s, i, addr).value;
  }

  lemma TransferRegisters(s: State, i: Instr, addr: u64, u: State)
    requires s.Valid() && i.Single? && Accesses(s, i, addr, u)
    ensures u.sp == s.sp && (!(i.load && i.rt == i.rn) ==> u.x[i.rn] == s.x[i.rn])
  {
    assert Open(0);
  }

  lemma MovesUnlessZero(base: u64, offset: u64)
    ensures U64(base + offset) == base <==> offset == 0
  {
  }

  /** An indexed single load or store moves its base register as the architecture has it exactly when the base
      is not sp or the offset is zero: with base sp the emulator updates register 31 of its array instead,
      which is also what reads as zero elsewhere.  (A load into its own base is unpredictable there; see
      LoadIntoOwnBase for what happens here.) */
  lemma SingleWriteBackReachesBaseIff(s: State, i: Instr, t: State, offset: u64)
    requires s.Valid() && i.Single? && i.mode != Offset && Does(s, i, t) && !(i.load && i.rt == i.rn)
    requires offset == SingleOffset(i.imm12, i.size, i.mode)
    ensures t.Valid() && (t.RegOrSp(i.rn) == U64(s.RegOrSp(i.rn) + offset) <==> i.rn != 31 || offset == 0)
  {
    SingleRegisters(s, i, t, offset);
    BaseMoved(s, t, i.rn, offset);
  }

  lemma BaseMoved(s: State, t: State, rn: Reg, offset: u64)
    requires |s.x| == |t.x| == 32 && t.sp == s.sp && t.x[rn] == U64(s.x[rn] + offset)
    ensures t.RegOrSp(rn) == U64(s.RegOrSp(rn) + offset) <==> rn != 31 || offset == 0
  {
    MovesUnlessZero(s.sp, offset);
  }

  /** An indexed load into its own base adds the offset to what was loaded. */
  lemma LoadIntoOwnBase(s: State, i: Instr, t: State, offset: u64) returns (v: u64)
    requires s.Valid() && i.Single? && i.load && i.mode != Offset && i.rt == i.rn && Does(s, i, t)
    requires offset == SingleOffset(i.imm12, i.size, i.mode)
    ensures Load(s, SingleAddr(s.RegOrSp(i.rn), i), i.size) == Ok(v)
    ensures t.Valid() && t.x[i.rn] == U64(ZeroExtend(v, 8 * Bytes(i.size)) + offset)
  {
    var addr := SingleAddr(s.RegOrSp(i.rn), i);
    var u := TransferOf(s, i, t, addr);
    v := LoadedBy(s, i, addr, u);
    WriteBackRegisters(u, i, offset);
  }

  lemma LoadedBy(s: State, i: Instr, addr: u64, u: State) returns (v: u64)
    requires s.Valid() && i.Single? && i.load && Accesses(s, i, addr, u)
    ensures Load(s, addr, i.size) == Ok(v) && u.x[i.rt] == ZeroExtend(v, 8 * Bytes(i.size))
  {
    assert Open(0);
    v := Load(s, addr, i.size).value;
  }

  /** `v` moved by `d` bytes. */
  function By(v: int, d: int): u64 { U64(v + d) }

  /** An indexed store with base sp stores below or above sp as it should, but leaves sp where it was and moves
      register 31 instead. */
  lemma IndexedStoreLeavesSp(s: State, i: Instr, d: int, pa: u64, t: State)
    requires s.Valid() && i.Single? && !i.load && i.mode == PreIndex && i.rn == 31
    requires i.imm12 < 512 && d == SignedBy(i.imm12, 256) && Writes(s, By(s.sp, d), pa, i.size)
    requires t == Written(s, pa, s.x[i.rt], i.size).(x := s.x[31 := By(s.x[31], d)], pc := U64(s.pc + 4))
    ensures Does(s, i, t)
  {
    MovedBy(s.sp, i, d);
    MovedBy(s.x[31], i, d);
    StoreWrites(s, By(s.sp, d), pa, s.x[i.rt], i.size);
    StoreSingle(s, i, By(s.sp, d), Written(s, pa, s.x[i.rt], i.size), By(s.x[31], d), t);
  }

  lemma MovedBy(v: u64, i: Instr, d: int)
    requires i.Single? && i.mode != Offset && i.imm12 < 512 && d == SignedBy(i.imm12, 256)
    ensures U64(v + SingleOffset(i.imm12, i.size, i.mode)) == By(v, d)
    ensures SingleAddr(v, i) == if i.mode == PreIndex then By(v, d) else v
  {
    NineBits(i.imm12);
    WrapRight(v, d);
  }

  lemma NineBits(imm: u64)
    requires imm < 512
    ensures SignExtend(imm, 9) == U64(SignedBy(imm, 256))
  {
    assert Pow2(9) == 512 && Pow2(8) == 256 by { Pow2Table(); }
    SignExtendBy(imm, 9, 256);
  }

  lemma SignExtendBy(imm: u64, w: nat, half: nat)
    requires 1 <= w <= 64 && half == Pow2(w - 1) && imm < Pow2(w)
    ensures SignExtend(imm, w) == U64(SignedBy(imm, half))
  {
    SignExtendMeans(imm, w);
    DivModUnique(imm, Pow2(w), 0, imm);
  }

  lemma StoreSingle(s: State, i: Instr, va: u64, u: State, x31: u64, t: State)
    requires s.Valid() && u.Valid() && i.Single? && !i.load && i.mode == PreIndex && i.rn == 31
    requires va == SingleAddr(s.sp, i) && Store(s, va, s.x[i.rt], i.size) == Ok(u)
    requires x31 == U64(u.x[31] + SingleOffset(i.imm12, i.size, i.mode))
    requires t == u.(x := u.x[31 := x31], pc := U64(u.pc + 4))
    ensures Does(s, i, t)
  {
    assert SingleTransfer(s, i, va) == Ok(u);
    assert WriteBackSingle(u, i) == u.(x := u.x[31 := x31]);
  }

  /** A post-indexed load with base sp loads at sp, but leaves sp where it was and moves register 31 instead. */
  lemma IndexedLoadLeavesSp(s: State, i: Instr, d: int, v: u64, t: State)
    requires s.Valid() && i.Single? && i.load && i.mode == PostIndex && i.size == DWord && i.rn == 31 && i.rt != 31
    requires i.imm12 < 512 && d == SignedBy(i.imm12, 256) && Load(s, s.sp, DWord) == Ok(v)
    requires t == s.(x := s.x[i.rt := v][31 := By(s.x[31], d)], pc := U64(s.pc + 4))
    ensures Does(s, i, t)
  {
    MovedBy(s.sp, i, d);
    MovedBy(s.x[31], i, d);
    LoadSingle(s, i, v, By(s.x[31], d), t);
  }

  lemma LoadSingle(s: State, i: Instr, v: u64, x31: u64, t: State)
    requires s.Valid() && i.Single? && i.load && i.mode == PostIndex && i.size == DWord && i.rn == 31 && i.rt != 31
    requires SingleAddr(s.sp, i) == s.sp && Load(s, s.sp, i.size) == Ok(v)
    requires x31 == U64(s.x[31] + SingleOffset(i.imm12, i.size, i.mode))
    requires t == s.(x := s.x[i.rt := v][31 := x31], pc := U64(s.pc + 4))
    ensures Does(s, i, t)
  {
    var u := s.Set(i.rt, v);
    assert SingleTransfer(s, i, s.sp) == Ok(u);
    assert WriteBackSingle(u, i) == u.(x := u.x[31 := x31]);
  }

  /** `str x30, [sp, #-64]!`, with which fibonacci_test_enter saves the link register. */
  const PUSH_LR: Instr := Single(false, DWord, PreIndex, 448, 30, 31)

  lemma PushLrDecodes()
    ensures Reads(0xf81c_0ffe, PUSH_LR)
  {
  }

  /** It stores the link register 64 bytes below sp, leaves sp where it was, and takes 64 from register 31. */
  lemma PushLrLeavesSp(s: State, pa: u64)
    requires s.Valid() && Writes(s, By(s.sp, -64), pa, DWord)
    ensures InHost(pa, 8) && Reads(0xf81c_0ffe, PUSH_LR)
    ensures Does(s, PUSH_LR, Written(s, pa, s.x[30], DWord).(x := s.x[31 := By(s.x[31], -64)], pc := U64(s.pc + 4)))
  {
    PushLrDecodes();
    IndexedStoreLeavesSp(s, PUSH_LR, -64, pa,
          Written(s, pa, s.x[30], DWord).(x := s.x[31 := By(s.x[31], -64)], pc := U64(s.pc + 4)));
  }
}
