/** Exception entry and return as a protocol between the emulator and the software it runs.

    Software never gets to restore SPSR_EL1, because MSR SPSR_EL1 reads it; ERET chooses the level from what
    the last entry left there, or from bit 63 of the return address.  Properly nested runs still return to
    the right level at any depth; runs that switch between saved contexts do so under an exact condition. */
module Exceptions {
  import opened Words
  import opened Util
  import opened Memory
  import opened Listings
  import opened Isa

  datatype Cause = Call | Interrupt(irq: u64)

  function Taken(s: State, cause: Cause): State
  {
    match cause
    case Call => ExecSvc(s)
    case Interrupt(irq) => CauseInterrupt(s, irq)
  }

  /** The address an entry saves to return to: a supervisor call resumes after itself. */
  function ResumeAt(s: State, cause: Cause): u64
  {
    match cause
    case Call => U64(s.pc + 4)
    case Interrupt(_) => s.pc
  }

  /** Code below 2^63 is user code, code above is kernel code. */
  predicate UserHalf(pc: u64) { pc < TWO63 }

  /** The exception level is the one that the program counter's half of the address space stands for. */
  predicate AtLevel(s: State) { s.el == LevelOf(s.pc) }

  function LevelOf(pc: u64): u8 { if UserHalf(pc) then 0 else 1 }

  /** All four vectors lie in the kernel's half. */
  predicate KernelVectors(vbar: u64) { TWO63 <= vbar && vbar + 0x480 < TWO64 }

  // ----- one entry, one return, and what software can do -----

  lemma TakenIs(s: State, cause: Cause)
    requires KernelVectors(s.vbar) && s.el < 2
    ensures
      var t := Taken(s, cause);
      && t.el == 1 && !UserHalf(t.pc) && t.elr == ResumeAt(s, cause) && t.vbar == s.vbar && t.spEl1 == s.spEl1
      && t.spsr % 8 == (if s.el == 0 then 0 else 5)
      && (if s.el == 0 then t.spEl0 == s.sp && t.sp == s.spEl1 else t.spEl0 == s.spEl0 && t.sp == s.sp)
  {
  }

  /** The offset of the vector for a cause taken from a level. */
  function VectorOffset(cause: Cause, el: u8): nat
  {
    match cause
    case Call => if el == 0 then 0x400 else 0x200
    case Interrupt(_) => if el == 0 then 0x480 else 0x280
  }

  /** The state after an entry: return address, level and cause are saved, the user's stack pointer is banked, and pc
      is at the vector.  Of SPSR_EL1 only the low three bits are written. */
  function EntryState(s: State, cause: Cause, esr: u64): State
  {
    var e := s.(elr := if cause.Call? then U64(s.pc + 4) else s.pc, esr := esr,
                iar := if cause.Call? then s.iar else cause.irq,
                spsr := s.spsr / 8 * 8 + (if s.el == 0 then 0 else 5),
                pc := U64(s.vbar + VectorOffset(cause, s.el)));
    if s.el == 0 then e.(spEl0 := s.sp, sp := s.spEl1, el := 1) else e
  }

  /** Every entry leaves that state; a call or-s 0x54000000 into ESR_EL1. */
  lemma EntryMeans(s: State, cause: Cause)
    ensures
      var t := Taken(s, cause);
      && t == EntryState(s, cause, t.esr)
      && (cause.Interrupt? ==> t.esr == s.esr)
      && (cause.Call? ==> forall k :: 0 <= k < 64 ==> Bit(t.esr, k) == (Bit(s.esr, k) || k in {26, 28, 30}))
  {
    match cause
    case Interrupt(_) =>
    case Call =>
      forall k | 0 <= k < 64
        ensures Bit(Or(s.esr, 0x5400_0000), k) == (Bit(s.esr, k) || k in {26, 28, 30})
      {
        BitOr(s.esr, 0x5400_0000, k);
        SyndromeBit(0x5400_0000, k);
      }
  }

  lemma SyndromeBit(v: nat, k: nat)
    requires v == 0x5400_0000
    ensures Bit(v, k) == (k in {26, 28, 30})
  {
    assert Pow2(26) == 0x400_0000 by { Pow2Table(); }
    BitMul(0x15, 26, k);
    if k >= 26 { FiveBits(0x15, k - 26); }
  }

  lemma FiveBits(v: nat, j: nat)
    requires v == 0x15
    ensures Bit(v, j) == (j in {0, 2, 4})
  {
    assert v / 2 == 0xa && v / 2 / 2 == 5 && v / 2 / 2 / 2 == 2 && v / 2 / 2 / 2 / 2 == 1;
    if j >= 5 {
      assert Pow2(5) == 0x20 by { Pow2Table(); }
      Pow2Mono(5, j);
      BitAbove(v, 5, j);
    } else {
      BitIsParity(v, j);
      Pow2Table();
    }
  }

  /** An executed SVC enters the kernel. */
  lemma SvcMeans(s: State) returns (esr: u64)
    requires s.Valid()
    ensures Does(s, Svc, EntryState(s, Call, esr))
    ensures forall k :: 0 <= k < 64 ==> Bit(esr, k) == (Bit(s.esr, k) || k in {26, 28, 30})
  {
    esr := Taken(s, Call).esr;
    EntryMeans(s, Call);
    SvcRuns(s);
  }

  lemma SvcRuns(s: State)
    requires s.Valid()
    ensures Does(s, Svc, Taken(s, Call))
  {
  }

  lemma HalfIsTopBit(pc: u64)
    ensures Bit(pc, 63) == !UserHalf(pc)
  {
    assert Pow2(64) == TWO64 && Pow2(63) == TWO63 by { Pow2Words(); }
    TopBitSet(pc, 63);
  }

  lemma EretIs(s: State)
    ensures
      var t := ExecEret(s);
      && t.pc == s.elr && t.spEl1 == s.sp && t.vbar == s.vbar && t.spsr == s.spsr
      && (if s.spsr % 8 == 0 || UserHalf(s.elr) then t.el == 0 && t.sp == s.spEl0 else t.el == s.el && t.sp == s.sp)
  {
    HalfIsTopBit(s.elr);
  }

  /** An executed ERET: the kernel's stack pointer is banked, and the level falls to 0 if SPSR_EL1 says so or the
      return address is the user's. */
  lemma EretMeans(s: State)
    requires s.Valid()
    ensures
      var r := s.(spEl1 := s.sp, pc := s.elr);
      Does(s, Eret, if s.spsr % 8 == 0 || UserHalf(s.elr) then r.(el := 0, sp := s.spEl0) else r)
  {
    HalfIsTopBit(s.elr);
    EretRuns(s);
  }

  lemma EretRuns(s: State)
    requires s.Valid()
    ensures Does(s, Eret, ExecEret(s))
  {
  }

  /** What any number of instructions other than SVC and ERET leave alone. */
  ghost predicate Untouched(s: State, t: State)
  {
    t.el == s.el && t.spsr == s.spsr && t.spEl1 == s.spEl1 && t.vbar == s.vbar
  }

  /** Every modelled instruction but SVC and ERET leaves the level and the saved state alone, also the one
      that is meant to write SPSR_EL1. */
  lemma OtherInstructionsKeep(s: State, i: Instr)
    requires s.Valid() && !i.Svc? && !i.Eret?
    ensures Exec(s, i).Ok? ==> Untouched(s, Exec(s, i).value) && Exec(s, i).value.daif == s.daif
  {
    match i
    case Pair(_, _, _, _, _, _, _) => PairKeeps(s, i);
    case Single(_, _, _, _, _, _) => SingleKeeps(s, i);
    case _ => if IsControl(i) { ControlKeeps(s, i); } else { AluKeeps(s, i); }
  }

  lemma PairKeeps(s: State, i: Instr)
    requires s.Valid() && i.Pair?
    ensures ExecPair(s, i).Ok? ==> Untouched(s, ExecPair(s, i).value) && ExecPair(s, i).value.daif == s.daif
  {
  }

  lemma SingleKeeps(s: State, i: Instr)
    requires s.Valid() && i.Single?
    ensures ExecSingle(s, i).Ok? ==> Untouched(s, ExecSingle(s, i).value) && ExecSingle(s, i).value.daif == s.daif
  {
  }

  lemma ControlKeeps(s: State, i: Instr)
    requires s.Valid() && IsControl(i) && !i.Svc? && !i.Eret?
    ensures ExecControl(s, i).Ok? ==> Untouched(s, ExecControl(s, i).value) && ExecControl(s, i).value.daif == s.daif
  {
  }

  lemma AluKeeps(s: State, i: Instr)
    requires s.Valid() && !IsControl(i) && !i.Pair? && !i.Single?
    ensures ExecData(s, i).Ok? ==> Untouched(s, ExecData(s, i).value) && ExecData(s, i).value.daif == s.daif
  {
    if !i.SysMove? && !i.Halt? && ExecAlu(s, i).Ok? { AluChanges(s, i); }
  }

  // ----- moves -----

  /** A run alternates between software, entries and returns. */
  datatype Move = Runs(to: State) | Takes(cause: Cause) | Returns

  function Next(s: State, m: Move): State
  {
    match m
    case Runs(t) => t
    case Takes(cause) => Taken(s, cause)
    case Returns => ExecEret(s)
  }

  /** Software stays in its half of the address space; only the kernel executes ERET. */
  ghost predicate Permitted(s: State, m: Move)
  {
    match m
    case Runs(t) => Untouched(s, t) && (UserHalf(t.pc) == UserHalf(s.pc))
    case Takes(cause) => UserHalf(ResumeAt(s, cause)) == UserHalf(s.pc)
    case Returns => s.el == 1
  }

  lemma MoveKeepsVectors(s: State, m: Move)
    requires Permitted(s, m)
    ensures Next(s, m).vbar == s.vbar
    ensures Next(s, m).spEl1 == if m == Returns then s.sp else s.spEl1
  {
  }

  /** The emulator's step is one of these moves. */
  lemma StepIsMove(s: State) returns (m: Move)
    requires s.Valid() && Step(s).Ok?
    ensures Step(s) == Ok(Next(s, m))
    ensures m.Runs? ==> Untouched(s, m.to)
    ensures FetchWord(s).Ok? && (m == Takes(Call) <==> Decode(FetchWord(s).value).Svc?)
    ensures m == Returns <==> Decode(FetchWord(s).value).Eret?
    ensures m.Takes? ==> m.cause == Call
    ensures Step(s).value.daif == s.daif
  {
    var i := Decode(FetchWord(s).value);
    if i.Svc? {
      m := Takes(Call);
    } else if i.Eret? {
      m := Returns;
    } else {
      OtherInstructionsKeep(s, i);
      m := Runs(Step(s).value);
    }
  }

  // ----- properly nested runs -----

  /** An interrupted context. */
  datatype Frame = Frame(pc: u64, sp: u64, el: u8)

  /** The processor, and the contexts interrupted and not yet returned to, innermost last. */
  datatype Config = Config(s: State, frames: seq<Frame>)

  function Interrupted(s: State, cause: Cause): Frame { Frame(ResumeAt(s, cause), s.sp, s.el) }

  function Top(c: Config): Frame
    requires c.frames != []
  {
    c.frames[|c.frames| - 1]
  }

  /** Before a return, the handler has reinstated the innermost context in ELR_EL1 and the stack pointers. */
  ghost predicate Reinstated(c: Config)
  {
    && c.frames != [] && c.s.elr == Top(c).pc
    && Top(c).sp == if Top(c).el == 0 then c.s.spEl0 else c.s.sp
  }

  ghost predicate Allowed(c: Config, m: Move)
  {
    Permitted(c.s, m) && (m == Returns ==> Reinstated(c))
  }

  function After(c: Config, m: Move): Config
  {
    Config(Next(c.s, m),
      match m
      case Runs(_) => c.frames
      case Takes(cause) => c.frames + [Interrupted(c.s, cause)]
      case Returns => if c.frames == [] then [] else c.frames[..|c.frames| - 1])
  }

  /** A properly nested run: `cs[i]` is the configuration before move `i`. */
  ghost predicate NestedRun(cs: seq<Config>, ms: seq<Move>)
  {
    && |cs| == |ms| + 1
    && forall i {:trigger ms[i]} :: 0 <= i < |ms| ==> Allowed(cs[i], ms[i]) && cs[i + 1] == After(cs[i], ms[i])
  }

  ghost predicate FrameAtLevel(f: Frame) { f.el == LevelOf(f.pc) }

  /** The level agrees with the program counter, in the processor and in every saved context; only the
      outermost context can be a user's; and while the innermost is the kernel's, SPSR_EL1 says so. */
  ghost predicate Inv(c: Config)
  {
    && AtLevel(c.s) && KernelVectors(c.s.vbar)
    && (c.frames != [] ==> c.s.el == 1)
    && (forall k :: 0 <= k < |c.frames| ==> FrameAtLevel(c.frames[k]) && (k > 0 ==> c.frames[k].el == 1))
    && (c.frames != [] && Top(c).el == 1 ==> c.s.spsr % 8 == 5)
  }

  lemma MoveKeepsInv(c: Config, m: Move)
    requires Inv(c) && Allowed(c, m)
    ensures Inv(After(c, m))
  {
    match m
    case Runs(_) =>
    case Takes(cause) => TakenIs(c.s, cause);
    case Returns => EretIs(c.s);
  }

  /** One return gives the innermost context back. */
  lemma ReturnRestoresTop(c: Config)
    requires Inv(c) && Allowed(c, Returns)
    ensures
      var t := After(c, Returns).s;
      t.pc == Top(c).pc && t.sp == Top(c).sp && t.el == Top(c).el
  {
    EretIs(c.s);
    assert FrameAtLevel(c.frames[|c.frames| - 1]);
  }

  /** At any depth and after any number of moves the invariant holds. */
  lemma {:induction false} InvHolds(cs: seq<Config>, ms: seq<Move>, i: nat)
    requires NestedRun(cs, ms) && Inv(cs[0]) && i < |cs|
    ensures Inv(cs[i])
  {
    if i == 0 {
    } else {
      InvHolds(cs, ms, i - 1);
      var m := ms[i - 1];
      MoveKeepsInv(cs[i - 1], m);
    }
  }

  /** So the level is always 0 exactly in the user's half. */
  lemma LevelFollowsPc(cs: seq<Config>, ms: seq<Move>)
    requires NestedRun(cs, ms) && Inv(cs[0])
    ensures forall i :: 0 <= i < |cs| ==> (cs[i].s.el == 0 <==> UserHalf(cs[i].s.pc))
  {
    forall i | 0 <= i < |cs| ensures cs[i].s.el == 0 <==> UserHalf(cs[i].s.pc) { InvHolds(cs, ms, i); }
  }

  function Depth(c: Config): nat { |c.frames| }

  /** Entry `j` and return `i` belong together: in between, the run is always deeper than before the entry. */
  ghost predicate Matches(cs: seq<Config>, ms: seq<Move>, j: nat, i: nat)
    requires |cs| == |ms| + 1
  {
    && j < i < |ms| && ms[j].Takes? && ms[i].Returns? && Depth(cs[i + 1]) == Depth(cs[j])
    && forall k :: j < k <= i ==> Depth(cs[k]) > Depth(cs[j])
  }

  lemma DepthStep(cs: seq<Config>, ms: seq<Move>, i: nat)
    requires NestedRun(cs, ms) && i < |ms|
    ensures Depth(cs[i + 1]) <= Depth(cs[i]) + 1
    ensures Depth(cs[i + 1]) > Depth(cs[i]) ==> ms[i].Takes?
  {
    var m := ms[i];
  }

  /** The last entry that went deeper than `d` before move `i`. */
  lemma {:induction false} LastEntryFrom(cs: seq<Config>, ms: seq<Move>, d: nat, i: nat) returns (j: nat)
    requires NestedRun(cs, ms) && i < |cs| && Depth(cs[0]) <= d < Depth(cs[i])
    ensures j < i && ms[j].Takes? && Depth(cs[j]) == d
    ensures forall k :: j < k <= i ==> Depth(cs[k]) > d
  {
    DepthStep(cs, ms, i - 1);
    if Depth(cs[i - 1]) <= d { j := i - 1; } else { j := LastEntryFrom(cs, ms, d, i - 1); }
  }

  lemma FrameStays(c: Config, m: Move, d: nat)
    requires d < Depth(c) && d < Depth(After(c, m))
    ensures After(c, m).frames[d] == c.frames[d]
  {
  }

  /** Between an entry and its return the interrupted context stays where the entry put it. */
  lemma {:induction false} ContextStays(cs: seq<Config>, ms: seq<Move>, j: nat, k: nat)
    requires NestedRun(cs, ms) && j < k < |cs| && ms[j].Takes?
    requires forall l :: j < l <= k ==> Depth(cs[l]) > Depth(cs[j])
    ensures Depth(cs[k]) > Depth(cs[j]) && cs[k].frames[Depth(cs[j])] == Interrupted(cs[j].s, ms[j].cause)
    decreases k
  {
    assert Depth(cs[k]) > Depth(cs[j]);
    var m := ms[k - 1];
    if k - 1 > j {
      ContextStays(cs, ms, j, k - 1);
      FrameStays(cs[k - 1], m, Depth(cs[j]));
    }
  }

  /** In a properly nested run every return belongs to exactly one entry, and gives back the program counter,
      stack pointer and level which that entry interrupted. */
  lemma EveryReturnRestores(cs: seq<Config>, ms: seq<Move>, i: nat) returns (j: nat)
    requires NestedRun(cs, ms) && Inv(cs[0]) && cs[0].frames == [] && i < |ms| && ms[i].Returns?
    ensures Matches(cs, ms, j, i) && forall j' :: Matches(cs, ms, j', i) ==> j' == j
    ensures
      var before, after := cs[j].s, cs[i + 1].s;
      after.pc == ResumeAt(before, ms[j].cause) && after.sp == before.sp && after.el == before.el
  {
    assert Allowed(cs[i], ms[i]);
    InvHolds(cs, ms, i);
    j := LastEntryFrom(cs, ms, Depth(cs[i]) - 1, i);
    ContextStays(cs, ms, j, i);
    ReturnRestoresTop(cs[i]);
  }

  lemma {:induction false} KernelStackStays(cs: seq<Config>, ms: seq<Move>, j: nat, i: nat)
    requires NestedRun(cs, ms) && j < i < |cs| && ms[j].Returns? && forall k :: j < k < i ==> !ms[k].Returns?
    ensures cs[i].s.spEl1 == cs[j].s.sp
    decreases i
  {
    var m := ms[i - 1];
    MoveKeepsVectors(cs[i - 1].s, m);
    if i - 1 > j { KernelStackStays(cs, ms, j, i - 1); }
  }

  /** An entry from the user resumes the kernel stack pointer at the last return before it. */
  lemma EntryResumesKernelStack(cs: seq<Config>, ms: seq<Move>, j: nat, i: nat)
    requires NestedRun(cs, ms) && Inv(cs[0]) && j < i < |ms| && ms[j].Returns? && ms[i].Takes?
    requires (forall k :: j < k < i ==> !ms[k].Returns?) && cs[i].s.el == 0
    ensures cs[i + 1].s.sp == cs[j].s.sp
  {
    KernelStackStays(cs, ms, j, i);
    InvHolds(cs, ms, i);
    var m := ms[i];
    TakenIs(cs[i].s, m.cause);
  }

  // ----- runs that switch contexts -----

  /** A run in which the kernel returns to whatever it likes; `ss[i]` is the processor before move `i`. */
  ghost predicate SwitchingRun(ss: seq<State>, ms: seq<Move>)
  {
    && |ss| == |ms| + 1 && KernelVectors(ss[0].vbar)
    && forall i {:trigger ms[i]} :: 0 <= i < |ms| ==> Permitted(ss[i], ms[i]) && ss[i + 1] == Next(ss[i], ms[i])
  }

  /** Up to move `i`, every return has ended at the level of its target. */
  ghost predicate RightUpTo(ss: seq<State>, i: nat) { forall k :: 0 <= k <= i && k < |ss| ==> AtLevel(ss[k]) }

  /** Move `j` is the last entry before move `i`. */
  ghost predicate LastEntry(ms: seq<Move>, j: nat, i: nat)
  {
    j < i <= |ms| && ms[j].Takes? && forall k :: j < k < i ==> !ms[k].Takes?
  }

  /** There is no entry before move `i`. */
  ghost predicate NoEntry(ms: seq<Move>, i: nat) { i <= |ms| && forall k :: 0 <= k < i ==> !ms[k].Takes? }

  /** The last entry before move `i` came from the kernel or, when there has been none, SPSR_EL1 started with
      low bits that stand for it. */
  ghost predicate LastFromKernel(ss: seq<State>, ms: seq<Move>, i: nat)
    requires |ss| == |ms| + 1
  {
    || (NoEntry(ms, i) && ss[0].spsr % 8 != 0)
    || exists j: nat :: LastEntry(ms, j, i) && ss[j].el == 1
  }

  lemma {:induction false} FindLastEntry(ms: seq<Move>, i: nat) returns (j: nat)
    requires i <= |ms| && !NoEntry(ms, i)
    ensures LastEntry(ms, j, i)
  {
    if ms[i - 1].Takes? { j := i - 1; } else { j := FindLastEntry(ms, i - 1); }
  }

  lemma {:induction false} VectorsStay(ss: seq<State>, ms: seq<Move>, i: nat)
    requires SwitchingRun(ss, ms) && i < |ss|
    ensures ss[i].vbar == ss[0].vbar
  {
    if i == 0 {
    } else {
      VectorsStay(ss, ms, i - 1);
      var m := ms[i - 1];
      MoveKeepsVectors(ss[i - 1], m);
    }
  }

  /** SPSR_EL1 remembers the level that the last entry was taken from, whatever has happened since. */
  lemma {:induction false} SpsrIsLastEntry(ss: seq<State>, ms: seq<Move>, j: nat, i: nat)
    requires SwitchingRun(ss, ms) && RightUpTo(ss, i) && LastEntry(ms, j, i)
    ensures ss[i].spsr % 8 == if ss[j].el == 0 then 0 else 5
    decreases i
  {
    var m := ms[i - 1];
    if i - 1 == j {
      VectorsStay(ss, ms, j);
      assert AtLevel(ss[j]);
      TakenIs(ss[j], m.cause);
    } else {
      SpsrIsLastEntry(ss, ms, j, i - 1);
      MoveKeepsSpsr(ss[i - 1], m);
    }
  }

  lemma MoveKeepsSpsr(s: State, m: Move)
    requires Permitted(s, m) && !m.Takes?
    ensures Next(s, m).spsr == s.spsr
  {
  }

  lemma {:induction false} SpsrStays(ss: seq<State>, ms: seq<Move>, i: nat)
    requires SwitchingRun(ss, ms) && NoEntry(ms, i)
    ensures ss[i].spsr == ss[0].spsr
  {
    if i == 0 {
    } else {
      var m := ms[i - 1];
      SpsrStays(ss, ms, i - 1);
      MoveKeepsSpsr(ss[i - 1], m);
    }
  }

  /** The low bits of SPSR_EL1 tell the level of the last entry, and before the first one are the initial ones. */
  lemma SpsrTells(ss: seq<State>, ms: seq<Move>, i: nat)
    requires SwitchingRun(ss, ms) && RightUpTo(ss, i) && i <= |ms|
    ensures ss[i].spsr % 8 != 0 <==> LastFromKernel(ss, ms, i)
  {
    if NoEntry(ms, i) {
      SpsrStays(ss, ms, i);
    } else {
      var j := FindLastEntry(ms, i);
      SpsrIsLastEntry(ss, ms, j, i);
      assert AtLevel(ss[j]);
      assert forall k: nat :: LastEntry(ms, k, i) ==> k == j;
    }
  }

  /** When the kernel may return to any context, a return ends at the level of its target exactly when the
      target is in the user's half, or the last entry was taken from the kernel; for a return before the first
      entry, with which a kernel first reaches user code, the initial SPSR_EL1 stands for that entry. */
  lemma SwitchingReturnsRightIff(ss: seq<State>, ms: seq<Move>, i: nat)
    requires SwitchingRun(ss, ms) && RightUpTo(ss, i) && i < |ms| && ms[i].Returns?
    ensures AtLevel(ss[i + 1]) <==> UserHalf(ss[i].elr) || LastFromKernel(ss, ms, i)
  {
    SpsrTells(ss, ms, i);
    assert Permitted(ss[i], ms[i]);
    EretIs(ss[i]);
  }

  /** The six moves of such a switch and back. */
  lemma SwitchAndBack(s: State, user: u64) returns (s1: State, s2: State, s3: State, s4: State, s5: State, s6: State)
    requires AtLevel(s) && s.el == 1 && KernelVectors(s.vbar) && user + 4 < TWO63
    ensures Permitted(s, Takes(Interrupt(0x30))) && s1 == Next(s, Takes(Interrupt(0x30))) && AtLevel(s1)
    ensures Permitted(s1, Runs(s2)) && AtLevel(s2)
    ensures Permitted(s2, Returns) && s3 == Next(s2, Returns) && AtLevel(s3)
    ensures Permitted(s3, Takes(Call)) && s4 == Next(s3, Takes(Call)) && AtLevel(s4)
    ensures Permitted(s4, Runs(s5)) && AtLevel(s5)
    ensures Permitted(s5, Returns) && s6 == Next(s5, Returns) && s6.pc == s.pc && s6.el == 0
  {
    s1 := Taken(s, Interrupt(0x30));
    TakenIs(s, Interrupt(0x30));
    s2 := s1.(elr := user);
    s3 := ExecEret(s2);
    EretIs(s2);
    s4 := Taken(s3, Call);
    TakenIs(s3, Call);
    s5 := s4.(elr := s.pc);
    s6 := ExecEret(s5);
    EretIs(s5);
  }

  /** The condition can fail: when the kernel switches from an interrupted kernel thread to a user context, and
      back on that context's next call, the thread resumes with its own program counter at level 0. */
  lemma SwitchingBackLosesLevel(s: State, user: u64) returns (ss: seq<State>, ms: seq<Move>)
    requires AtLevel(s) && s.el == 1 && KernelVectors(s.vbar) && user + 4 < TWO63
    ensures SwitchingRun(ss, ms) && ss[0] == s && |ms| == 6 && RightUpTo(ss, 5)
    ensures ms[0] == Takes(Interrupt(0x30)) && ms[2].Returns? && ms[3] == Takes(Call) && ms[5].Returns?
    ensures ss[6].pc == s.pc && ss[6].el == 0
  {
    var s1, s2, s3, s4, s5, s6 := SwitchAndBack(s, user);
    ss := [s, s1, s2, s3, s4, s5, s6];
    ms := [Takes(Interrupt(0x30)), Runs(s2), Returns, Takes(Call), Runs(s5), Returns];
  }
}
