/** Executed branches to registers, conditional branches, system register moves and the instructions that do
    nothing: the state after them written out. */
module ControlFlow {
  import opened Util
  import opened Memory
  import opened Flags
  import opened Listings
  import opened Isa
  import opened Meaning

  /** ConditionHolds (section C1.2.4 of the Arm ARM): the upper three bits name a test, the lowest one negates it,
      and the last two codes always hold. */
  predicate ConditionHolds(cond: nat, f: NZCV)
    requires cond < 16
  {
    var test := match cond / 2
      case 0 => f.z
      case 1 => f.c
      case 2 => f.n
      case 3 => f.v
      case 4 => f.c && !f.z
      case 5 => f.n == f.v
      case 6 => f.n == f.v && !f.z
      case _ => true;
    if cond % 2 == 1 && cond != 15 then !test else test
  }

  lemma ConditionIs(cond: nat, f: NZCV)
    requires cond < 16
    ensures CheckBFlag(cond, f) == ConditionHolds(cond, f)
  {
  }

  /** B.cond. */
  lemma ConditionalMeans(s: State, cond: nat, imm: Imm19)
    requires s.Valid() && cond < 16
    ensures
      var d := if ConditionHolds(cond, s.nzcv) then 4 * SignedBy(imm, 0x4_0000) else 4;
      Does(s, BCond(cond, imm), s.(pc := U64(s.pc + d)))
  {
    ConditionIs(cond, s.nzcv);
    BranchOnFlags(s, cond, imm);
  }

  /** BR. */
  lemma BrMeans(s: State, rn: Reg)
    requires s.Valid()
    ensures Does(s, Br(rn), s.(pc := s.x[rn]))
  {
  }

  /** BLR writes the link register before it reads its target, so through x30 it goes to the next instruction. */
  lemma BlrMeans(s: State, rn: Reg)
    requires s.Valid()
    ensures
      var next := U64(s.pc + 4);
      Does(s, Blr(rn), s.(pc := if rn == 30 then next else s.x[rn], x := s.x[30 := next]))
  {
  }

  /** RET returns to its register, where number 0 stands for x30; a zero target ends the process. */
  lemma RetMeans(s: State, rn: Reg)
    requires s.Valid()
    ensures
      var target := if rn == 0 then s.x[30] else s.x[rn];
      if target == 0 then Stops(s, Ret(rn), Exit(0)) else Does(s, Ret(rn), s.(pc := target))
  {
  }

  /** A move from a system register, and a move to one; a move to SPSR_EL1 reads it. */
  lemma SysMoveMeans(s: State, get: bool, reg: SysReg, rt: Reg)
    requires s.Valid()
    ensures reg == Spsr ==> Does(s, SysMove(get, reg, rt), s.(x := s.x[rt := s.spsr], pc := U64(s.pc + 4)))
    ensures reg == Elr && get ==> Does(s, SysMove(get, reg, rt), s.(x := s.x[rt := s.elr], pc := U64(s.pc + 4)))
    ensures reg == SpEl0 && get ==> Does(s, SysMove(get, reg, rt), s.(x := s.x[rt := s.spEl0], pc := U64(s.pc + 4)))
    ensures reg == Elr && !get ==> Does(s, SysMove(get, reg, rt), s.(elr := s.x[rt], pc := U64(s.pc + 4)))
    ensures reg == SpEl0 && !get ==> Does(s, SysMove(get, reg, rt), s.(spEl0 := s.x[rt], pc := U64(s.pc + 4)))
  {
    match reg
    case Spsr => SpsrMoveRuns(s, get, rt);
    case Elr => ElrMoveRuns(s, get, rt);
    case SpEl0 => SpMoveRuns(s, get, rt);
  }

  lemma SpsrMoveRuns(s: State, get: bool, rt: Reg)
    requires s.Valid()
    ensures Does(s, SysMove(get, Spsr, rt), s.(x := s.x[rt := s.spsr], pc := U64(s.pc + 4)))
  {
  }

  lemma ElrMoveRuns(s: State, get: bool, rt: Reg)
    requires s.Valid()
    ensures
      var t := if get then s.(x := s.x[rt := s.elr]) else s.(elr := s.x[rt]);
      Does(s, SysMove(get, Elr, rt), t.(pc := U64(s.pc + 4)))
  {
  }

  lemma SpMoveRuns(s: State, get: bool, rt: Reg)
    requires s.Valid()
    ensures
      var t := if get then s.(x := s.x[rt := s.spEl0]) else s.(spEl0 := s.x[rt]);
      Does(s, SysMove(get, SpEl0, rt), t.(pc := U64(s.pc + 4)))
  {
  }

  /** The classes that are only logged move on, or do not even do that; the others stop. */
  lemma NothingDone(s: State, why: Why)
    requires s.Valid()
    ensures Does(s, Nop, s.(pc := U64(s.pc + 4))) && Does(s, Stay, s) && Stops(s, Halt(why), why)
  {
  }
}
