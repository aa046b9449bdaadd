/** The virtqueue's cached addresses stay current in every run of the main loop, whatever program runs. */
module LayoutRuns {
  import opened Words
  import opened Util
  import opened Memory
  import opened Virtio
  import opened VirtioProperties
  import opened Bus
  import opened Mmu
  import opened Isa
  import opened Machines

  /** What an instruction does to the device: its count of requests stays, and so does a current layout. */
  ghost predicate Kept(r: Regs, r': Regs) { r'.id == r.id && (LayoutCurrent(r) ==> LayoutCurrent(r')) }

  lemma StoreRegKeeps(r: Regs, addr: u64, value: u64)
    requires StoreReg(r, addr, value).Ok?
    ensures Kept(r, StoreReg(r, addr, value).value)
  {
  }

  lemma StoreKeeps(s: State, va: u64, value: u64, size: Size)
    requires s.Valid() && Store(s, va, value, size).Ok?
    ensures Kept(s.mem.vio, Store(s, va, value, size).value.mem.vio)
  {
    var pa := Translate(s.mem.ram, s.mmu, va).value;
    BusStoreKeeps(s.mem, pa, value, size);
  }

  lemma BusStoreKeeps(m: Storage, pa: u64, value: u64, size: Size)
    requires |m.ram| == RAM_SIZE && BusStore(m, pa, value, size).Ok?
    ensures Kept(m.vio, BusStore(m, pa, value, size).value.vio)
  {
    if Select(pa) == VirtioRegs { StoreRegKeeps(m.vio, pa, value); }
  }

  lemma PairKeeps(s: State, i: Instr)
    requires s.Valid() && i.Pair? && ExecPair(s, i).Ok?
    ensures Kept(s.mem.vio, ExecPair(s, i).value.mem.vio)
  {
    var va := PairAddr(s.RegOrSp(i.rn), i);
    if !i.load {
      var s1 := Store(s, va, s.x[i.rt], Access(i)).value;
      StoreKeeps(s, va, s.x[i.rt], Access(i));
      StoreKeeps(s1, NextTo(va, i), s.x[i.rt2], Access(i));
    }
  }

  lemma SingleKeeps(s: State, i: Instr)
    requires s.Valid() && i.Single? && ExecSingle(s, i).Ok?
    ensures Kept(s.mem.vio, ExecSingle(s, i).value.mem.vio)
  {
    if !i.load { StoreKeeps(s, SingleAddr(s.RegOrSp(i.rn), i), s.x[i.rt], i.size); }
  }

  lemma ControlKeepsMemory(s: State, i: Instr)
    requires s.Valid() && IsControl(i) && ExecControl(s, i).Ok?
    ensures ExecControl(s, i).value.mem == s.mem
  {
  }

  lemma ExecKeeps(s: State, i: Instr)
    requires s.Valid() && Exec(s, i).Ok?
    ensures Kept(s.mem.vio, Exec(s, i).value.mem.vio)
  {
    if IsControl(i) {
      ControlKeepsMemory(s, i);
    } else {
      match i
      case Pair(_, _, _, _, _, _, _) => PairKeeps(s, i);
      case Single(_, _, _, _, _, _) => SingleKeeps(s, i);
      case SysMove(_, _, _) =>
      case Halt(_) =>
      case _ => AluChanges(s, i);
    }
  }

  lemma StepKeeps(s: State, t: State)
    requires s.Valid() && Step(s) == Ok(t)
    ensures Kept(s.mem.vio, t.mem.vio)
  {
    ExecKeeps(s, Decode(FetchWord(s).value));
  }

  ghost predicate Current(s: State) { LayoutCurrent(s.mem.vio) }

  lemma CheckKeeps(m: Machine, uart: bool)
    requires m.s.Valid() && Current(m.s) && Checked(m, uart).Ok?
    ensures Current(Checked(m, uart).value.s)
  {
  }

  lemma SteppedKeeps(m: Machine)
    requires m.s.Valid() && Stepped(m).Ok?
    ensures Kept(m.s.mem.vio, Stepped(m).value.s.mem.vio) && Stepped(m).value.disk == m.disk
  {
    StepKeeps(m.s, Stepped(m).value.s);
  }

  lemma TurnKeeps(m: Machine, uart: bool)
    requires m.s.Valid() && Current(m.s) && Turn(m, uart).Ok?
    ensures Current(Turn(m, uart).value.s)
  {
    CheckKeeps(Counted(m), uart);
    SteppedKeeps(Checked(Counted(m), uart).value);
  }

  /** Over any number of turns, with any instructions executed, interrupts taken and requests served, the
      addresses the device uses are those of the current register values. */
  lemma {:induction false} LayoutCurrentInEveryRun(m: Machine, uart: seq<bool>)
    requires m.s.Valid() && Current(m.s)
    ensures Turns(m, uart).Ok? ==> Current(Turns(m, uart).value.s)
    decreases |uart|
  {
    if uart == [] {
    } else {
      var t := Turn(m, uart[0]);
      if t.Ok? {
        TurnKeeps(m, uart[0]);
        LayoutCurrentInEveryRun(t.value, uart[1..]);
      }
    }
  }
}
