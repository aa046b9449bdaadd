/** Executed loads and stores, of one register and of a pair, in all addressing forms: the addresses and the state
    after them written out, in terms of Load and Store. */
module Accesses {
  import opened Words
  import opened Util
  import opened Memory
  import opened Listings
  import opened Isa
  import opened Pairs
  import opened PushPop

  /** The base of an access: register `rn`, or sp for number 31. */
  function Base(s: State, rn: Reg): u64
    requires s.Valid()
  {
    if rn == 31 then s.sp else s.x[rn]
  }

  // ----- one register -----

  /** Unsigned offsets count in units of the access; the offset of an indexed access is a signed nine-bit number. */
  function SingleDisplacement(i: Instr): int
    requires i.Single?
  {
    if i.mode == Offset then i.imm12 * Bytes(i.size) else SignedBy(i.imm12, 256)
  }

  function SingleAddress(s: State, i: Instr): u64
    requires s.Valid() && i.Single?
  {
    if i.mode == PostIndex then Base(s, i.rn) else U64(Base(s, i.rn) + SingleDisplacement(i))
  }

  /** The field of an indexed access has nine bits. */
  predicate Fits(i: Instr) { i.Single? && (i.mode == Offset || i.imm12 < 512) }

  /** The write-back of an indexed access, which goes to the register of that number also when it is 31. */
  function Indexed(x: seq<u64>, i: Instr): seq<u64>
    requires |x| == 32 && i.Single?
  {
    if i.mode == Offset then x else x[i.rn := U64(x[i.rn] + SingleDisplacement(i))]
  }

  lemma SingleOffsetIs(v: u64, i: Instr)
    requires Fits(i)
    ensures U64(v + SingleOffset(i.imm12, i.size, i.mode)) == U64(v + SingleDisplacement(i))
  {
    if i.mode == Offset { ScaledOffset(i.imm12, i.size); } else { MovedBy(v, i, SignedBy(i.imm12, 256)); }
  }

  lemma SingleAddressIs(s: State, i: Instr)
    requires s.Valid() && Fits(i)
    ensures SingleAddr(s.RegOrSp(i.rn), i) == SingleAddress(s, i)
  {
    SingleOffsetIs(Base(s, i.rn), i);
  }

  lemma IndexedIs(u: State, i: Instr)
    requires u.Valid() && Fits(i)
    ensures WriteBackSingle(u, i) == u.(x := Indexed(u.x, i))
  {
    SingleOffsetIs(u.x[i.rn], i);
  }

  /** LDR: the bytes at the address, zero-extended. */
  lemma LoadMeans(s: State, i: Instr, v: u64)
    requires s.Valid() && Fits(i) && i.load && Load(s, SingleAddress(s, i), i.size) == Ok(v)
    ensures v % Pow2(8 * Bytes(i.size)) < TWO64
    ensures Does(s, i, s.(x := Indexed(s.x[i.rt := v % Pow2(8 * Bytes(i.size))], i), pc := U64(s.pc + 4)))
  {
    ZeroExtendIs(v, 8 * Bytes(i.size));
    SingleAddressIs(s, i);
    var u := s.(x := s.x[i.rt := v % Pow2(8 * Bytes(i.size))]);
    LoadTransfers(s, i, v, u);
    IndexedIs(u, i);
    SingleRuns(s, i, u, s.(x := Indexed(u.x, i), pc := U64(s.pc + 4)));
  }

  lemma LoadTransfers(s: State, i: Instr, v: u64, u: State)
    requires s.Valid() && i.Single? && i.load && Load(s, SingleAddr(s.RegOrSp(i.rn), i), i.size) == Ok(v)
    requires u == s.(x := s.x[i.rt := ZeroExtend(v, 8 * Bytes(i.size))])
    ensures PushPop.Accesses(s, i, SingleAddr(s.RegOrSp(i.rn), i), u)
  {
  }

  /** STR: the register goes to the address. */
  lemma StoreMeans(s: State, i: Instr, u: State)
    requires s.Valid() && Fits(i) && !i.load && Store(s, SingleAddress(s, i), s.x[i.rt], i.size) == Ok(u)
    ensures u.Valid() && u.x == s.x && u.pc == s.pc
    ensures Does(s, i, u.(x := Indexed(s.x, i), pc := U64(s.pc + 4)))
  {
    SingleAddressIs(s, i);
    StoreTransfers(s, i, u);
    IndexedIs(u, i);
    SingleRuns(s, i, u, u.(x := Indexed(s.x, i), pc := U64(s.pc + 4)));
  }

  lemma StoreTransfers(s: State, i: Instr, u: State)
    requires s.Valid() && i.Single? && !i.load && Store(s, SingleAddr(s.RegOrSp(i.rn), i), s.x[i.rt], i.size) == Ok(u)
    ensures PushPop.Accesses(s, i, SingleAddr(s.RegOrSp(i.rn), i), u) && u == s.(mem := u.mem)
  {
  }

  lemma SingleRuns(s: State, i: Instr, u: State, t: State)
    requires s.Valid() && i.Single? && PushPop.Accesses(s, i, SingleAddr(s.RegOrSp(i.rn), i), u)
    requires t == WriteBackSingle(u, i).Advance()
    ensures Does(s, i, t)
  {
  }

  /** An access that does not complete stops the instruction. */
  lemma SingleStops(s: State, i: Instr, why: Why)
    requires s.Valid() && Fits(i)
    requires i.load ==> Load(s, SingleAddress(s, i), i.size) == Stop(why)
    requires !i.load ==> Store(s, SingleAddress(s, i), s.x[i.rt], i.size) == Stop(why)
    ensures Stops(s, i, why)
  {
    SingleAddressIs(s, i);
  }

  // ----- a pair -----

  /** The size of each access, and the displacement, which counts in units of it. */
  function Unit(i: Instr): nat
    requires i.Pair?
  {
    if i.wide then 8 else 4
  }

  function UnitSize(i: Instr): Size
    requires i.Pair?
  {
    if i.wide then DWord else Word
  }

  function PairTarget(s: State, i: Instr): u64
    requires s.Valid() && i.Pair?
  {
    U64(Base(s, i.rn) + Unit(i) * SignedBy(i.imm7, 64))
  }

  function PairAddress(s: State, i: Instr): u64
    requires s.Valid() && i.Pair?
  {
    if i.mode == PostIndex then Base(s, i.rn) else PairTarget(s, i)
  }

  /** The write-back of an indexed pair goes to register or sp. */
  function Updated(u: State, i: Instr, base: u64): State
    requires u.Valid() && i.Pair?
  {
    if i.mode == Offset then u else if i.rn == 31 then u.(sp := base) else u.(x := u.x[i.rn := base])
  }

  lemma PairAddressIs(s: State, i: Instr)
    requires s.Valid() && i.Pair?
    ensures PairAddr(s.RegOrSp(i.rn), i) == PairAddress(s, i)
    ensures U64(s.RegOrSp(i.rn) + PairOffset(i.imm7, i.wide)) == PairTarget(s, i)
  {
    PairOffsetIs(i.imm7, i.wide);
    WrapRight(Base(s, i.rn), Unit(i) * SignedBy(i.imm7, 64));
  }

  lemma UpdatedIs(s: State, u: State, i: Instr)
    requires s.Valid() && u.Valid() && i.Pair?
    ensures WriteBack(u, i, s.RegOrSp(i.rn)) == Updated(u, i, PairTarget(s, i))
  {
    PairAddressIs(s, i);
  }

  lemma PairRuns(s: State, i: Instr, u: State, t: State)
    requires s.Valid() && u.Valid() && i.Pair? && Transfers(s, i, PairAddr(s.RegOrSp(i.rn), i), u)
    requires t == Updated(u, i, PairTarget(s, i)).Advance()
    ensures Does(s, i, t)
  {
    var v := Updated(u, i, PairTarget(s, i));
    UpdatedIs(s, u, i);
    WriteBackFollows(s, i, s.RegOrSp(i.rn), u, v);
    ExecOfPair(s, i, v, t);
  }

  /** LDP: the first register, then the second, then the base. */
  lemma LoadPairMeans(s: State, i: Instr, v1: u64, v2: u64)
    requires s.Valid() && i.Pair? && i.load && Load(s, PairAddress(s, i), UnitSize(i)) == Ok(v1)
    requires Load(s, U64(PairAddress(s, i) + Unit(i)), UnitSize(i)) == Ok(v2)
    ensures Does(s, i, Updated(s.(x := s.x[i.rt := v1][i.rt2 := v2]), i, PairTarget(s, i)).(pc := U64(s.pc + 4)))
  {
    var u := s.(x := s.x[i.rt := v1][i.rt2 := v2]);
    PairAddressIs(s, i);
    BothLoads(s, i, PairAddress(s, i), v1, v2);
    PairRuns(s, i, u, Updated(u, i, PairTarget(s, i)).(pc := U64(s.pc + 4)));
  }

  /** STP: the first register, then the second, then the base. */
  lemma StorePairMeans(s: State, i: Instr, u1: State, u2: State)
    requires s.Valid() && i.Pair? && !i.load && Store(s, PairAddress(s, i), s.x[i.rt], UnitSize(i)) == Ok(u1)
    requires Store(u1, U64(PairAddress(s, i) + Unit(i)), s.x[i.rt2], UnitSize(i)) == Ok(u2)
    ensures u2.Valid() && u2 == s.(mem := u2.mem)
    ensures Does(s, i, Updated(u2, i, PairTarget(s, i)).(pc := U64(s.pc + 4)))
  {
    PairAddressIs(s, i);
    BothStores(s, i, PairAddress(s, i), u1, u2);
    PairRuns(s, i, u2, Updated(u2, i, PairTarget(s, i)).(pc := U64(s.pc + 4)));
  }
}
