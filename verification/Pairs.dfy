/** LDP and STP on sp, in terms of the loads and stores they make. */
module Pairs {
  import opened Words
  import opened Util
  import opened Memory
  import opened Isa
  import opened Listings

  /** The two accesses of `i` at `addr` take `s` to `u`; the guard keeps them folded. */
  ghost predicate Transfers(s: State, i: Instr, addr: u64, u: State)
    requires s.Valid() && i.Pair?
  {
    forall z {:trigger Open(z)} :: Open(z) ==> PairTransfer(s, i, addr) == Ok(u)
  }

  /** STP pre-indexed on sp. */
  lemma StorePairOnSp(s: State, i: Instr, va: u64, s1: State, s2: State, t: State)
    requires s.Valid() && i.Pair? && !i.load && i.mode == PreIndex && i.rn == 31
    requires va == PairAddr(s.sp, i)
    requires Store(s, va, s.x[i.rt], Access(i)) == Ok(s1)
    requires Store(s1, NextTo(va, i), s.x[i.rt2], Access(i)) == Ok(s2)
    requires t == s2.(sp := va, pc := U64(s2.pc + 4))
    ensures Does(s, i, t)
  {
    BothStores(s, i, va, s1, s2);
    WrittenBack(s, i, va, s2, va, t);
  }

  lemma BothStores(s: State, i: Instr, va: u64, s1: State, s2: State)
    requires s.Valid() && i.Pair? && !i.load && Store(s, va, s.x[i.rt], Access(i)) == Ok(s1)
    requires Store(s1, NextTo(va, i), s.x[i.rt2], Access(i)) == Ok(s2)
    ensures Transfers(s, i, va, s2)
  {
  }

  /** LDP post-indexed on sp. */
  lemma LoadPairOnSp(s: State, i: Instr, v1: u64, v2: u64, sp: u64, t: State)
    requires s.Valid() && i.Pair? && i.load && i.mode == PostIndex && i.rn == 31
    requires sp == U64(s.sp + PairOffset(i.imm7, i.wide)) && PairAddr(s.sp, i) == s.sp
    requires Load(s, s.sp, Access(i)) == Ok(v1) && Load(s, NextTo(s.sp, i), Access(i)) == Ok(v2)
    requires t == s.(sp := sp, pc := U64(s.pc + 4), x := s.x[i.rt := v1][i.rt2 := v2])
    ensures Does(s, i, t)
  {
    BothLoads(s, i, s.sp, v1, v2);
    WrittenBack(s, i, s.sp, s.(x := s.x[i.rt := v1][i.rt2 := v2]), sp, t);
  }

  lemma BothLoads(s: State, i: Instr, va: u64, v1: u64, v2: u64)
    requires s.Valid() && i.Pair? && i.load
    requires Load(s, va, Access(i)) == Ok(v1) && Load(s, NextTo(va, i), Access(i)) == Ok(v2)
    ensures Transfers(s, i, va, s.(x := s.x[i.rt := v1][i.rt2 := v2]))
  {
  }

  lemma WrittenBack(s: State, i: Instr, va: u64, u: State, sp: u64, t: State)
    requires s.Valid() && u.Valid() && i.Pair? && i.mode != Offset && i.rn == 31
    requires va == PairAddr(s.sp, i) && Transfers(s, i, va, u) && sp == U64(s.sp + PairOffset(i.imm7, i.wide))
    requires t == u.(sp := sp, pc := U64(u.pc + 4))
    ensures Does(s, i, t)
  {
    WriteBackFollows(s, i, s.sp, u, u.(sp := sp));
    ExecOfPair(s, i, u.(sp := sp), t);
  }

  /** A transfer that goes through is followed by the write-back. */
  lemma PairCompletes(s: State, i: Instr, base: u64, u: State)
    requires s.Valid() && u.Valid() && i.Pair? && base == s.RegOrSp(i.rn)
    requires PairTransfer(s, i, PairAddr(base, i)) == Ok(u)
    ensures ExecPair(s, i) == Ok(WriteBack(u, i, base))
  {
  }

  lemma WriteBackFollows(s: State, i: Instr, base: u64, u: State, v: State)
    requires s.Valid() && u.Valid() && i.Pair? && base == s.RegOrSp(i.rn) && Transfers(s, i, PairAddr(base, i), u)
    requires v == WriteBack(u, i, base)
    ensures Completes(s, i, v)
  {
    assert Open(0);
    PairCompletes(s, i, base, u);
  }

  /** Executing `i` up to the increment of pc takes `s` to `v`; folded like Transfers. */
  ghost predicate Completes(s: State, i: Instr, v: State)
    requires s.Valid() && i.Pair?
  {
    forall z {:trigger Open(z)} :: Open(z) ==> ExecPair(s, i) == Ok(v)
  }

  lemma ExecOfPair(s: State, i: Instr, v: State, t: State)
    requires s.Valid() && i.Pair? && Completes(s, i, v) && t == v.Advance()
    ensures Does(s, i, t)
  {
  }
}
