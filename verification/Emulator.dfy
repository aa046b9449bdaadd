/** The main loop of src/emulator.cc, and the test functions run by it. */
module Emulator {
  import opened Words
  import opened Util
  import opened Memory
  import opened Virtio
  import opened Isa
  import opened Runs
  import opened Listings
  import opened Programs
  import opened Machines
  import opened Processor
  import opened Exceptions
  import opened DriverRequests
  import opened LoopRequests
  import Fibonacci
  import Sum
  import Wrappers

  lemma StepOf(s: State, inst: u32)
    requires s.Valid() && FetchWord(s) == Ok(inst)
    ensures Step(s) == Exec(s, Decode(inst))
  {
  }

  /** A step executes the word at pc, and a zero word ends the loop. */
  lemma StepByWord(s: State, w: u32)
    requires s.Valid() && Load(s, s.pc, Word) == Ok(w)
    ensures Step(s) == if w == 0 then Stop(NoInstruction) else Exec(s, Decode(w))
  {
    FetchIs(s, w);
    if w != 0 { StepOf(s, w); }
  }

  lemma FetchIs(s: State, w: u32)
    requires s.Valid() && Load(s, s.pc, Word) == Ok(w)
    ensures FetchWord(s) == if w == 0 then Stop(NoInstruction) else Ok(w)
  {
    assert w % TWO32 == w;
  }

  class Emulator {
    const cpu: Cpu

    constructor (cpu: Cpu)
      ensures this.cpu == cpu
    {
      this.cpu := cpu;
    }

    /** The loop, for as many turns as there are observations of the serial line. */
    method ExecuteLoop(uart: seq<bool>) returns (r: Try<()>)
      requires cpu.Valid()
      modifies cpu, cpu.xregs, cpu.bus.mem.data, cpu.bus.virtio, cpu.bus.virtio.disk
      ensures Cpu.DidAll(Turns(old(cpu.All()), uart), r, cpu.All())
    {
      ghost var start := cpu.All();
      var i := 0;
      while i < |uart|
        invariant i <= |uart|
        invariant Turns(start, uart) == Turns(cpu.All(), uart[i..])
      {
        assert uart[i..][0] == uart[i] && uart[i..][1..] == uart[i + 1..];
        r := ExecuteTurn(uart[i]);
        if r.Stop? { return; }
        i := i + 1;
      }
      r := Ok(());
    }

    method ExecuteTurn(uart: bool) returns (r: Try<()>)
      requires cpu.Valid()
      modifies cpu, cpu.xregs, cpu.bus.mem.data, cpu.bus.virtio, cpu.bus.virtio.disk
      ensures Cpu.DidAll(Turn(old(cpu.All()), uart), r, cpu.All())
    {
      ghost var start := cpu.All();
      cpu.timerCount := U64(cpu.timerCount + 1);
      assert cpu.All() == Counted(start);
      r := cpu.CheckInterrupt(uart);
      if r.Stop? { return; }
      ghost var checked := cpu.All();
      assert Checked(Counted(start), uart) == Ok(checked);
      var inst := cpu.Fetch();
      if inst.Stop? { return Stop(inst.why); }
      r := cpu.DecodeStart(inst.value);
      StepOf(checked.s, inst.value);
      if r.Ok? { assert cpu.All() == checked.(s := cpu.Now()); }
    }
  }

  // ----- runs with interrupts masked -----

  predicate Masked(m: Machine) { Bit(m.s.daif, 9) }

  lemma TurnOf(m: Machine, uart: bool, r: Try<State>)
    requires m.s.Valid() && Checked(Counted(m), uart) == Ok(Counted(m)) && r == Step(m.s)
    ensures Turn(m, uart) == match r case Stop(why) => Stop(why) case Ok(s) => Ok(Counted(m).(s := s))
  {
  }

  lemma StepKeepsMask(s: State)
    requires s.Valid() && Step(s).Ok?
    ensures Step(s).value.daif == s.daif && Step(s).value.Valid()
  {
    var move := StepIsMove(s);
  }

  /** The turn has outcome `r`, and the turns have outcome `r`; both folded. */
  ghost predicate Turned(m: Machine, uart: bool, r: Try<Machine>)
    requires m.s.Valid()
  {
    forall z {:trigger Open(z)} :: Open(z) ==> Turn(m, uart) == r
  }

  ghost predicate Ends(m: Machine, uart: seq<bool>, r: Try<Machine>)
    requires m.s.Valid()
  {
    forall z {:trigger Open(z)} :: Open(z) ==> Turns(m, uart) == r
  }

  lemma EndsNow(m: Machine)
    requires m.s.Valid()
    ensures Ends(m, [], Ok(m))
  {
  }

  lemma EndsStopped(m: Machine, uart: seq<bool>, why: Why)
    requires m.s.Valid() && uart != [] && Turned(m, uart[0], Stop(why))
    ensures Ends(m, uart, Stop(why))
  {
  }

  lemma EndsAfter(m: Machine, uart: seq<bool>, t: Machine, r: Try<Machine>)
    requires m.s.Valid() && uart != [] && Turned(m, uart[0], Ok(t)) && t.s.Valid() && Ends(t, uart[1..], r)
    ensures Ends(m, uart, r)
  {
  }

  lemma EndsEmpty(m: Machine, uart: seq<bool>, t: Machine)
    requires m.s.Valid() && uart == [] && Ends(m, uart, Ok(t))
    ensures t == m
  {
    assert Open(0);
  }

  lemma EndsFirst(m: Machine, uart: seq<bool>, t: Machine) returns (u: Machine)
    requires m.s.Valid() && uart != [] && Ends(m, uart, Ok(t))
    ensures u.s.Valid() && Turned(m, uart[0], Ok(u)) && Ends(u, uart[1..], Ok(t))
  {
    assert Open(0);
    u := Turn(m, uart[0]).value;
  }

  lemma TurnsEnd(m: Machine, uart: seq<bool>, r: Try<Machine>)
    requires m.s.Valid() && Turns(m, uart) == r
    ensures Ends(m, uart, r)
  {
  }

  /** With interrupts masked a turn is a step. */
  lemma MaskedTurn(f: State -> Try<State>, m: Machine, uart: bool)
    requires Emulates(f) && m.s.Valid() && Masked(m)
    ensures Turned(m, uart, match f(m.s) case Stop(why) => Stop(why) case Ok(s) => Ok(Counted(m).(s := s)))
    ensures f(m.s).Ok? ==> f(m.s).value.Valid() && f(m.s).value.daif == m.s.daif
  {
    assert Open(0);
    TurnOf(m, uart, Step(m.s));
    if Step(m.s).Ok? { StepKeepsMask(m.s); }
  }

  lemma {:induction false} MaskedEnds(f: State -> Try<State>, m: Machine, uart: seq<bool>) returns (r: Try<Machine>)
    requires Emulates(f) && m.s.Valid() && Masked(m)
    ensures Ends(m, uart, r)
    ensures
      match Iterate(f, m.s, |uart|)
      case Stop(why) => r == Stop(why)
      case Ok(t) => r.Ok? && r.value.s == t && r.value.disk == m.disk
    decreases |uart|
  {
    if uart == [] {
      r := Ok(m);
      EndsNow(m);
    } else {
      MaskedTurn(f, m, uart[0]);
      match f(m.s) {
        case Stop(why) =>
          r := Stop(why);
          EndsStopped(m, uart, why);
        case Ok(s) =>
          var t := Counted(m).(s := s);
          r := MaskedEnds(f, t, uart[1..]);
          EndsAfter(m, uart, t, r);
      }
    }
  }

  /** And the loop is the iterated step. */
  lemma MaskedRunIsIteratedStep(f: State -> Try<State>, m: Machine, uart: seq<bool>)
    requires Emulates(f) && m.s.Valid() && Masked(m)
    ensures
      match Iterate(f, m.s, |uart|)
      case Stop(why) => Turns(m, uart) == Stop(why)
      case Ok(t) => Turns(m, uart).Ok? && Turns(m, uart).value.s == t && Turns(m, uart).value.disk == m.disk
  {
    var r := MaskedEnds(f, m, uart);
    EndsMeans(m, uart, r);
  }

  lemma EndsMeans(m: Machine, uart: seq<bool>, r: Try<Machine>)
    requires m.s.Valid() && Ends(m, uart, r)
    ensures Turns(m, uart) == r
  {
    assert Open(0);
  }

  lemma LoopReaches(m: Machine, uart: seq<bool>, t: State)
    requires m.s.Valid() && Masked(m) && Goes(Step, m.s, |uart|, t)
    ensures Turns(m, uart).Ok? && Turns(m, uart).value.s == t && Turns(m, uart).value.disk == m.disk
  {
    MaskedRunIsIteratedStep(Step, m, uart);
  }

  /** The emulator, started at the entry of the Fibonacci function, reaches the return address with the result. */
  lemma FibonacciOnEmulator(m: Machine, p: Program, n: u32, uart: seq<bool>)
    requires Fibonacci.Entry(m.s, p, n) && Masked(m) && |uart| == Fibonacci.StepCount(n)
    ensures Turns(m, uart).Ok? && Turns(m, uart).value.disk == m.disk
    ensures Fibonacci.Returned(m.s, Turns(m, uart).value.s, n)
  {
    var t := Fibonacci.FibonacciRuns(Step, m.s, p, n);
    LoopReaches(m, uart, t);
  }

  /** The emulator, started at the entry of the summing function, reaches the return address with the result. */
  lemma SumOnEmulator(m: Machine, p: Program, uart: seq<bool>)
    requires Sum.Entry(m.s, p) && Masked(m) && |uart| == Sum.StepCount(Sum.Argument(m.s))
    ensures Turns(m, uart).Ok? && Turns(m, uart).value.disk == m.disk
    ensures Sum.Completed(m.s, Turns(m, uart).value.s, Sum.Argument(m.s))
  {
    var t := Sum.SumRuns(Step, m.s, p);
    LoopReaches(m, uart, t);
  }

  /** The wrapper of the Fibonacci function, up to its RET, which goes to the word at the entry sp. */
  lemma FibonacciWrapperOnEmulator(m: Machine, q: Program, p: Program, n: u32, uart: seq<bool>)
    requires Wrappers.EntersFibonacci(m.s, q, p, n) && Masked(m) && |uart| == Fibonacci.StepCount(n) + 4
    ensures Turns(m, uart).Ok? && Turns(m, uart).value.disk == m.disk
    ensures Wrappers.FibonacciWrapped(m.s, q, n, Turns(m, uart).value.s)
    ensures Wrappers.LeavesBy(Step, Turns(m, uart).value.s, Word64(m.s, m.s.sp))
  {
    var u := Wrappers.FibonacciWrapperRuns(Step, m.s, q, p, n);
    LoopReaches(m, uart, u);
  }

  /** The wrapper of the summing function, up to its RET, which goes to the word at the entry sp. */
  lemma SumWrapperOnEmulator(m: Machine, q: Program, p: Program, uart: seq<bool>)
    requires Wrappers.EntersSum(m.s, q, p) && Masked(m) && |uart| == Sum.StepCount(Sum.Argument(m.s)) + 4
    ensures Turns(m, uart).Ok? && Turns(m, uart).value.disk == m.disk
    ensures Wrappers.SumWrapped(m.s, q, Sum.Argument(m.s), Turns(m, uart).value.s)
    ensures Wrappers.LeavesBy(Step, Turns(m, uart).value.s, Word64(m.s, m.s.sp))
  {
    var u := Wrappers.SumWrapperRuns(Step, m.s, q, p);
    LoopReaches(m, uart, u);
  }

  // ----- invariants of every run of the loop -----

  ghost predicate IsRun(ss: seq<State>, ms: seq<Move>)
  {
    && |ss| == |ms| + 1
    && forall i {:trigger ms[i]} :: 0 <= i < |ms| ==>
         ss[i + 1] == Next(ss[i], ms[i]) && (ms[i].Runs? ==> Untouched(ss[i], ms[i].to))
  }

  /** The interrupt that a turn takes before it fetches, or 0: none if DAIF bit 9 is set; the disk's if queue 0 has
      been notified; the timer's if user code is interrupted and the count of turns, this one included, is a
      multiple of 100; the serial port's if it has input. */
  function Raised(m: Machine, uart: bool): nat
  {
    if m.s.daif / 0x200 % 2 == 1 then 0
    else if m.s.mem.vio.queueNotify == 0 then 0x30
    else if m.s.pc < TWO63 && (m.timer + 1) % TWO64 % 100 == 0 then 0x1b
    else if uart then 0x21
    else 0
  }

  /** The moves before the fetch: none, the entry, or the disk's work and the entry. */
  ghost predicate Opens(m: Machine, n: nat, ss: seq<State>, ms: seq<Move>)
    requires m.s.Valid()
  {
    && |ss| == |ms| + 1 && ss[0] == m.s
    && (n == 0 ==> ms == [])
    && (n == 0x1b ==> ms == [Takes(Interrupt(0x1b))])
    && (n == 0x21 ==> ms == [Takes(Interrupt(0x21))])
    && (n == 0x30 ==> |ms| == 2 && ms[0] == Runs(ss[1]) && ms[1] == Takes(Interrupt(0x30)) && DiskWorks(m, ss[1]))
  }

  /** The machine with its turn counted and the notification consumed. */
  function Notified(m: Machine): Machine
  {
    m.(timer := (m.timer + 1) % TWO64, s := m.s.(mem := m.s.mem.(vio := m.s.mem.vio.(queueNotify := 0xffff_ffff))))
  }

  /** Serving the disk consumes the notification, and changes nothing of the processor. */
  ghost predicate DiskWorks(m: Machine, t: State)
    requires m.s.Valid()
  {
    && ServeDisk(Notified(m)).Ok? && t == ServeDisk(Notified(m)).value.s
    && t == m.s.(mem := t.mem) && t.mem.vio.queueNotify == 0xffff_ffff
  }

  /** A turn of the loop is a short run of the moves that the exception protocol is stated over: what `Raised` says,
      and one instruction; the turns are counted, and only a request changes the disk. */
  lemma TurnIsMoves(m: Machine, uart: bool) returns (ss: seq<State>, ms: seq<Move>)
    requires m.s.Valid() && Turn(m, uart).Ok?
    ensures IsRun(ss, ms) && ss[0] == m.s && ss[|ms|] == Turn(m, uart).value.s
    ensures |ms| > 0 && Opens(m, Raised(m, uart), ss[..|ms|], ms[..|ms| - 1])
    ensures ss[|ms| - 1].Valid() && Step(ss[|ms| - 1]) == Ok(ss[|ms|])
    ensures ms[|ms| - 1].Takes? ==> ms[|ms| - 1].cause == Call
    ensures Turn(m, uart).value.timer == (m.timer + 1) % TWO64
    ensures Turn(m, uart).value.disk == if Raised(m, uart) == 0x30 then ServeDisk(Notified(m)).value.disk else m.disk
  {
    var ss1, ms1 := CheckIsMoves(m, uart);
    var c := Checked(Counted(m), uart).value;
    var step := StepIsMove(c.s);
    ss, ms := Appended(m, Raised(m, uart), ss1, ms1, step);
    CheckCounts(m, uart);
    StepCounts(c);
  }

  /** One more move. */
  lemma Appended(m: Machine, n: nat, ss1: seq<State>, ms1: seq<Move>, step: Move)
    returns (ss: seq<State>, ms: seq<Move>)
    requires m.s.Valid() && IsRun(ss1, ms1) && Opens(m, n, ss1, ms1)
    requires step.Runs? ==> Untouched(ss1[|ms1|], step.to)
    ensures IsRun(ss, ms) && ss[0] == m.s && |ms| > 0 && Opens(m, n, ss[..|ms|], ms[..|ms| - 1])
    ensures ms[|ms| - 1] == step && ss[|ms| - 1] == ss1[|ms1|] && ss[|ms|] == Next(ss1[|ms1|], step)
  {
    ss, ms := ss1 + [Next(ss1[|ms1|], step)], ms1 + [step];
    assert ss[..|ms|] == ss1 && ms[..|ms| - 1] == ms1;
  }

  lemma RaisedIs(m: Machine)
    ensures Bit(m.s.daif, 9) == (m.s.daif / 0x200 % 2 == 1) && Bit(m.s.pc, 63) == (m.s.pc >= TWO63)
  {
    assert Pow2(9) == 0x200 by { Pow2Table(); }
    BitIsParity(m.s.daif, 9);
    HalfIsTopBit(m.s.pc);
  }

  lemma CheckIsMoves(m: Machine, uart: bool) returns (ss: seq<State>, ms: seq<Move>)
    requires m.s.Valid() && Checked(Counted(m), uart).Ok?
    ensures
      var t := Checked(Counted(m), uart).value;
      && IsRun(ss, ms) && ss[|ms|] == t.s && Opens(m, Raised(m, uart), ss, ms)
      && t.disk == if Raised(m, uart) == 0x30 then ServeDisk(Notified(m)).value.disk else m.disk
  {
    var c := Counted(m);
    var t := Checked(c, uart).value.s;
    RaisedIs(m);
    if Bit(m.s.daif, 9) {
      ss, ms := [m.s], [];
    } else if m.s.mem.vio.queueNotify == 0 {
      assert Notified(m) == Consumed(c);
      var served := ServeDisk(Consumed(c)).value.s;
      ServeKeeps(Consumed(c));
      ss, ms := [m.s, served, t], [Runs(served), Takes(Interrupt(0x30))];
    } else if !Bit(m.s.pc, 63) && c.timer % 100 == 0 {
      ss, ms := [m.s, t], [Takes(Interrupt(0x1b))];
    } else if uart {
      ss, ms := [m.s, t], [Takes(Interrupt(0x21))];
    } else {
      ss, ms := [m.s], [];
    }
  }

  lemma ServeKeeps(m: Machine)
    requires m.s.Valid() && ServeDisk(m).Ok?
    ensures
      var t := ServeDisk(m).value;
      && t.s == m.s.(mem := t.s.mem) && t.timer == m.timer
      && t.s.mem.vio.queueNotify == m.s.mem.vio.queueNotify
  {
  }

  /** The count of turns after `n` more. */
  function CountAfter(v: u64, n: nat): u64
    decreases n, v
  {
    if n == 0 then v else CountAfter((v + 1) % TWO64, n - 1)
  }

  lemma {:induction false} CountAfterIs(v: u64, n: nat)
    ensures CountAfter(v, n) == (v + n) % TWO64
    decreases n
  {
    if n == 0 {
    } else {
      CountAfterIs((v + 1) % TWO64, n - 1);
    }
  }

  lemma TurnCounts(m: Machine, uart: bool, t: Machine)
    requires m.s.Valid() && Turned(m, uart, Ok(t))
    ensures t.timer == (m.timer + 1) % TWO64
  {
    assert Open(0);
    CheckCounts(m, uart);
    StepCounts(Checked(Counted(m), uart).value);
  }

  lemma CheckCounts(m: Machine, uart: bool)
    requires m.s.Valid() && Checked(Counted(m), uart).Ok?
    ensures Checked(Counted(m), uart).value.timer == (m.timer + 1) % TWO64
  {
  }

  lemma StepCounts(m: Machine)
    requires m.s.Valid() && Stepped(m).Ok?
    ensures Stepped(m).value.timer == m.timer && Stepped(m).value.disk == m.disk
  {
  }

  lemma {:induction false} TimerCounts(m: Machine, uart: seq<bool>, t: Machine)
    requires m.s.Valid() && Ends(m, uart, Ok(t))
    ensures t.timer == CountAfter(m.timer, |uart|)
    decreases |uart|
  {
    if uart == [] {
      EndsEmpty(m, uart, t);
    } else {
      var u := EndsFirst(m, uart, t);
      TurnCounts(m, uart[0], u);
      TimerCounts(u, uart[1..], t);
    }
  }

  lemma FirstMove(m: Machine, uart: bool, ss: seq<State>, ms: seq<Move>)
    requires m.s.Valid() && |ss| == |ms| + 1 && |ms| > 0 && Opens(m, Raised(m, uart), ss[..|ms|], ms[..|ms| - 1])
    requires ms[|ms| - 1].Takes? ==> ms[|ms| - 1].cause == Call
    ensures ms[0] == Takes(Interrupt(0x1b)) <==> Raised(m, uart) == 0x1b
  {
    if |ms| > 1 { assert ms[..|ms| - 1][0] == ms[0]; }
  }

  lemma TimerDue(v: u64, n: nat, t: Machine, uart: bool, count: nat)
    requires t.timer == CountAfter(v, n) && count == v + n + 1
    requires t.s.daif / 0x200 % 2 == 0 && t.s.mem.vio.queueNotify != 0 && t.s.pc < TWO63
    ensures Raised(t, uart) == 0x1b <==> count % TWO64 % 100 == 0
  {
    CountAfterIs(v, n);
    CountOfThis(v + n, count);
  }

  lemma CountOfThis(before: nat, count: nat)
    requires count == before + 1
    ensures (before % TWO64 + 1) % TWO64 == count % TWO64
  {
  }

  lemma TimerTurn(v: u64, n: nat, t: Machine, uart: bool, count: nat) returns (ss: seq<State>, ms: seq<Move>)
    requires t.timer == CountAfter(v, n) && count == v + n + 1 && t.s.Valid() && Turn(t, uart).Ok?
    requires t.s.daif / 0x200 % 2 == 0 && t.s.mem.vio.queueNotify != 0 && t.s.pc < TWO63
    ensures IsRun(ss, ms) && ss[0] == t.s && ss[|ms|] == Turn(t, uart).value.s && |ms| > 0
    ensures ms[0] == Takes(Interrupt(0x1b)) <==> count % TWO64 % 100 == 0
  {
    TimerDue(v, n, t, uart, count);
    ss, ms := TurnIsMoves(t, uart);
    FirstMove(t, uart, ss, ms);
  }

  /** Over any number of turns: a turn of user code with interrupts unmasked and no request pending starts with the
      timer's entry exactly when the count of turns, modulo 2^64, is a multiple of 100. */
  lemma TimerEntryIff(m: Machine, before: seq<bool>, t: Machine, uart: bool, count: nat)
    returns (ss: seq<State>, ms: seq<Move>)
    requires m.s.Valid() && Turns(m, before) == Ok(t) && t.s.Valid() && Turn(t, uart).Ok?
    requires count == m.timer + |before| + 1
    requires t.s.daif / 0x200 % 2 == 0 && t.s.mem.vio.queueNotify != 0 && t.s.pc < TWO63
    ensures IsRun(ss, ms) && ss[0] == t.s && ss[|ms|] == Turn(t, uart).value.s && |ms| > 0
    ensures ms[0] == Takes(Interrupt(0x1b)) <==> count % TWO64 % 100 == 0
  {
    TurnsEnd(m, before, Ok(t));
    TimerCounts(m, before, t);
    ss, ms := TimerTurn(m.timer, |before|, t, uart, count);
  }

  /** A driver's request in the main loop: when queue 0 has been notified and interrupts are unmasked, the turn first
      leaves RAM and disk as the driver relies on, and then takes interrupt 0x30. */
  lemma DriverTurn(m: Machine, uart: bool, q: Queue, num: u32, c: Chain) returns (ss: seq<State>, ms: seq<Move>)
    requires m.s.Valid() && Turn(m, uart).Ok? && Raised(m, uart) == 0x30
    requires m.s.mem.vio.queue == Some(q) && m.s.mem.vio.queueNum == num
    requires LaidOut(m.s.mem.ram, q, num, c) && Exists(m.disk, q, num, c)
    ensures IsRun(ss, ms) && ss[0] == m.s && ss[|ms|] == Turn(m, uart).value.s && |ms| == 3
    ensures ms[0] == Runs(ss[1]) && ms[1] == Takes(Interrupt(0x30)) && ss[1].Valid()
    ensures RamServed(m.s.mem.ram, ss[1].mem.ram, m.disk, q, num, m.s.mem.vio.id, c)
    ensures DiskServed(m.s.mem.ram, m.disk, Turn(m, uart).value.disk, c)
  {
    var t := DriverServed(Notified(m), q, num, c);
    ss, ms := TurnIsMoves(m, uart);
    DiskFirst(m, ss, ms);
  }

  lemma DiskFirst(m: Machine, ss: seq<State>, ms: seq<Move>)
    requires m.s.Valid() && |ss| == |ms| + 1 && |ms| > 0 && Opens(m, 0x30, ss[..|ms|], ms[..|ms| - 1])
    ensures |ms| == 3 && ms[0] == Runs(ss[1]) && ms[1] == Takes(Interrupt(0x30)) && DiskWorks(m, ss[1])
  {
    assert ss[..|ms|][1] == ss[1] && ms[..|ms| - 1][0] == ms[0] && ms[..|ms| - 1][1] == ms[1];
  }

  /** So any number of turns is a run of such moves. */
  lemma {:induction false} TurnsAreMoves(m: Machine, uart: seq<bool>) returns (ss: seq<State>, ms: seq<Move>)
    requires m.s.Valid() && Turns(m, uart).Ok?
    ensures IsRun(ss, ms) && ss[0] == m.s && ss[|ms|] == Turns(m, uart).value.s
    decreases |uart|
  {
    if uart == [] {
      ss, ms := [m.s], [];
    } else {
      var ss1, ms1 := TurnIsMoves(m, uart[0]);
      var ss2, ms2 := TurnsAreMoves(Turn(m, uart[0]).value, uart[1..]);
      ss, ms := ss1 + ss2[1..], ms1 + ms2;
      RunsJoin(ss1, ms1, ss2, ms2);
    }
  }

  lemma RunsJoin(ss1: seq<State>, ms1: seq<Move>, ss2: seq<State>, ms2: seq<Move>)
    requires IsRun(ss1, ms1) && IsRun(ss2, ms2) && ss1[|ms1|] == ss2[0]
    ensures IsRun(ss1 + ss2[1..], ms1 + ms2) && (ss1 + ss2[1..])[|ms1 + ms2|] == ss2[|ms2|]
  {
    var ss, ms := ss1 + ss2[1..], ms1 + ms2;
    forall i | 0 <= i < |ms|
      ensures ss[i + 1] == Next(ss[i], ms[i]) && (ms[i].Runs? ==> Untouched(ss[i], ms[i].to))
    {
      if i < |ms1| {
        assert ms[i] == ms1[i] && ss[i] == ss1[i] && ss[i + 1] == ss1[i + 1];
      } else {
        var j := i - |ms1|;
        assert ms[i] == ms2[j] && ss[i] == ss2[j] && ss[i + 1] == ss2[j + 1];
      }
    }
  }

  /** The contexts interrupted and not yet returned to before move `i`. */
  function FramesAt(ss: seq<State>, ms: seq<Move>, i: nat): seq<Frame>
    requires |ss| == |ms| + 1 && i <= |ms|
  {
    if i == 0 then [] else After(Config(ss[i - 1], FramesAt(ss, ms, i - 1)), ms[i - 1]).frames
  }

  function ConfigAt(ss: seq<State>, ms: seq<Move>, i: nat): Config
    requires |ss| == |ms| + 1 && i <= |ms|
  {
    Config(ss[i], FramesAt(ss, ms, i))
  }

  /** The software that the emulator ran kept to the protocol: it stayed in its half of the address space, and
      reinstated the interrupted context before each ERET. */
  ghost predicate Disciplined(ss: seq<State>, ms: seq<Move>)
  {
    |ss| == |ms| + 1 && forall i {:trigger ms[i]} :: 0 <= i < |ms| ==> Allowed(ConfigAt(ss, ms, i), ms[i])
  }

  lemma ConfigStep(ss: seq<State>, ms: seq<Move>, i: nat)
    requires IsRun(ss, ms) && i < |ms|
    ensures ConfigAt(ss, ms, i + 1) == After(ConfigAt(ss, ms, i), ms[i])
  {
    var m := ms[i];
    assert ss[i + 1] == Next(ss[i], m);
  }

  lemma {:induction false} Configs(ss: seq<State>, ms: seq<Move>, n: nat) returns (cs: seq<Config>)
    requires |ss| == |ms| + 1 && n <= |ms|
    ensures |cs| == n + 1 && forall i :: 0 <= i <= n ==> cs[i] == ConfigAt(ss, ms, i)
  {
    if n == 0 {
      cs := [ConfigAt(ss, ms, 0)];
    } else {
      cs := Configs(ss, ms, n - 1);
      cs := cs + [ConfigAt(ss, ms, n)];
    }
  }

  lemma DisciplinedIsNested(ss: seq<State>, ms: seq<Move>) returns (cs: seq<Config>)
    requires IsRun(ss, ms) && Disciplined(ss, ms)
    ensures NestedRun(cs, ms) && cs[0] == Config(ss[0], []) && forall i :: 0 <= i <= |ms| ==> cs[i].s == ss[i]
  {
    cs := Configs(ss, ms, |ms|);
    forall i | 0 <= i < |ms| ensures Allowed(cs[i], ms[i]) && cs[i + 1] == After(cs[i], ms[i]) {
      DisciplinedStep(ss, ms, i);
    }
  }

  lemma DisciplinedStep(ss: seq<State>, ms: seq<Move>, i: nat)
    requires IsRun(ss, ms) && Disciplined(ss, ms) && i < |ms|
    ensures Allowed(ConfigAt(ss, ms, i), ms[i])
    ensures ConfigAt(ss, ms, i + 1) == After(ConfigAt(ss, ms, i), ms[i])
  {
    ConfigStep(ss, ms, i);
  }

  /** An entry has gone to the vector of its cause and of the level it interrupted. */
  ghost predicate AtVector(s: State, cause: Cause, t: State)
  {
    t.pc == U64(s.vbar + match cause
                         case Call => if s.el == 0 then 0x400 else 0x200
                         case Interrupt(_) => if s.el == 0 then 0x480 else 0x280)
  }

  /** In every run of the main loop whose software keeps to the protocol, each return gives back the program
      counter, stack pointer and level that one entry interrupted, at any nesting depth and over any number of
      turns; every entry goes to the vector of its cause and level, and the level always agrees with the program
      counter. */
  lemma LoopReturnsRestore(m: Machine, uart: seq<bool>, ss: seq<State>, ms: seq<Move>, i: nat) returns (j: nat)
    requires m.s.Valid() && Turns(m, uart).Ok? && AtLevel(m.s) && KernelVectors(m.s.vbar)
    requires IsRun(ss, ms) && ss[0] == m.s && ss[|ms|] == Turns(m, uart).value.s && Disciplined(ss, ms)
    requires i < |ms| && ms[i].Returns?
    ensures j < i && ms[j].Takes?
    ensures ss[i + 1].pc == ResumeAt(ss[j], ms[j].cause) && ss[i + 1].sp == ss[j].sp && ss[i + 1].el == ss[j].el
    ensures forall k :: 0 <= k <= |ms| ==> AtLevel(ss[k])
    ensures forall k :: 0 <= k < |ms| && ms[k].Takes? ==> AtVector(ss[k], ms[k].cause, ss[k + 1])
  {
    var cs := DisciplinedIsNested(ss, ms);
    j := EveryReturnRestores(cs, ms, i);
    forall k | 0 <= k <= |ms| ensures AtLevel(ss[k]) { InvHolds(cs, ms, k); }
    forall k | 0 <= k < |ms| && ms[k].Takes? ensures AtVector(ss[k], ms[k].cause, ss[k + 1]) {
      EntryMeans(ss[k], ms[k].cause);
    }
  }
}
