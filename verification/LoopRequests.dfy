/** The block requests that are served in a run of the main loop, as a run of completions: what the used ring and
    the disk hold at its end. */
module LoopRequests {
  import opened Words
  import opened Util
  import opened Memory
  import opened Virtio
  import opened VirtioProperties
  import opened RequestRuns
  import opened DriverRequests
  import opened Listings
  import opened Bus
  import opened Machines
  import opened LayoutRuns

  // ----- one turn -----

  /** The check at the start of the turn finds a notification and serves a request. */
  predicate Serves(m: Machine) { !Bit(m.s.daif, 9) && m.s.mem.vio.queueNotify == 0 }

  /** The completion that such a turn makes. */
  function CompletionOf(m: Machine): Completion
    requires m.s.Valid() && ServeDisk(Consumed(Counted(m))).Ok?
  {
    var vio := m.s.mem.vio;
    Completion(m.s.mem.ram, m.disk, ReadRequest(m.s.mem.ram, vio.queue.value, vio.queueNum).value)
  }

  /** The machine between the check for interrupts and the fetch. */
  function AfterCheck(m: Machine, uart: bool): (c: Machine)
    requires m.s.Valid() && Turn(m, uart).Ok?
    ensures c.s.Valid()
  {
    Checked(Counted(m), uart).value
  }

  lemma CheckServes(m: Machine, uart: bool)
    requires m.s.Valid() && Turn(m, uart).Ok? && Serves(m)
    ensures ServeDisk(Consumed(Counted(m))).Ok?
    ensures
      var s := ServeDisk(Consumed(Counted(m))).value;
      AfterCheck(m, uart).s.mem == s.s.mem && AfterCheck(m, uart).disk == s.disk
  {
  }

  lemma CheckSkips(m: Machine, uart: bool)
    requires m.s.Valid() && Turn(m, uart).Ok? && !Serves(m)
    ensures AfterCheck(m, uart).s.mem == m.s.mem && AfterCheck(m, uart).disk == m.disk
  {
  }

  /** What serving does, for a queue and size that are known. */
  lemma ServeIs(m: Machine, q: Queue, num: u32)
    requires m.s.Valid() && ServeDisk(Consumed(Counted(m))).Ok?
    requires m.s.mem.vio.queue == Some(q) && m.s.mem.vio.queueNum == num
    ensures
      var c, id, s := CompletionOf(m), m.s.mem.vio.id, ServeDisk(Consumed(Counted(m))).value;
      && Servable(c.disk, q, num, id, c.req)
      && s.s.mem.ram == ServedRam(c.ram, c.disk, q, num, id, c.req) && s.disk == ServedDisk(c.ram, c.disk, c.req)
      && s.s.mem.vio.queue == Some(q) && s.s.mem.vio.queueNum == num && s.s.mem.vio.id == NextId(id)
  {
  }

  /** What the device does for a driver: with a chain laid out at the head of its queue, serving it leaves RAM and
      disk as the driver relies on, and counts the request. */
  lemma DriverServed(m: Machine, q: Queue, num: u32, c: Chain) returns (t: Machine)
    requires m.s.Valid() && m.s.mem.vio.queue == Some(q) && m.s.mem.vio.queueNum == num
    requires LaidOut(m.s.mem.ram, q, num, c) && Exists(m.disk, q, num, c)
    ensures ServeDisk(m) == Ok(t) && t.s.Valid() && t.timer == m.timer
    ensures t.s == m.s.(mem := Storage(t.s.mem.ram, m.s.mem.vio.(id := (m.s.mem.vio.id + 1) % TWO64)))
    ensures RamServed(m.s.mem.ram, t.s.mem.ram, m.disk, q, num, m.s.mem.vio.id, c)
    ensures DiskServed(m.s.mem.ram, m.disk, t.disk, c)
  {
    var ram, id := m.s.mem.ram, m.s.mem.vio.id;
    RequestIs(ram, q, num, c);
    CanServe(m.disk, q, num, id, c);
    RamIs(ram, m.disk, q, num, id, c);
    DiskIs(ram, m.disk, q, num, id, c);
    t := ServedBy(m, q, num, RequestOf(c));
  }

  lemma ServedBy(m: Machine, q: Queue, num: u32, req: Request) returns (t: Machine)
    requires m.s.Valid() && m.s.mem.vio.queue == Some(q) && m.s.mem.vio.queueNum == num > 0
    requires ReadRequest(m.s.mem.ram, q, num) == Ok(req) && Servable(m.disk, q, num, m.s.mem.vio.id, req)
    ensures ServeDisk(m) == Ok(t) && t.s.Valid() && t.timer == m.timer
    ensures t.s == m.s.(mem := Storage(t.s.mem.ram, m.s.mem.vio.(id := (m.s.mem.vio.id + 1) % TWO64)))
    ensures t.s.mem.ram == ServedRam(m.s.mem.ram, m.disk, q, num, m.s.mem.vio.id, req)
    ensures t.disk == ServedDisk(m.s.mem.ram, m.disk, req)
  {
    t := ServeDisk(m).value;
  }

  // ----- the driver's side -----

  /** What is asked of the driver in one turn: its instruction leaves the queue and the used ring alone, and a
      request that is served keeps its buffer and status byte out of the used ring. */
  ghost predicate GoodTurn(m: Machine, uart: bool, q: Queue, num: u32)
    requires m.s.Valid() && Turn(m, uart).Ok?
  {
    var c, t := AfterCheck(m, uart).s.mem, Turn(m, uart).value.s.mem;
    && t.vio.queue == c.vio.queue && t.vio.queueNum == c.vio.queueNum
    && SameBytes(c.ram, t.ram, q.used - RAM_BASE, 4 + 8 * num)
    && (ServeDisk(Consumed(Counted(m))).Ok? && Serves(m) ==> ClearOfRing(CompletionOf(m).req, q, num))
  }

  ghost predicate ClearOfRing(req: Request, q: Queue, num: u32)
  {
    && !InUsedRing(q, num, req.status)
    && (req.toRam ==> forall a :: InBuffer(req, a) ==> !InUsedRing(q, num, a))
  }

  ghost predicate GoodRun(m: Machine, uart: seq<bool>, q: Queue, num: u32)
    requires m.s.Valid() && Turns(m, uart).Ok?
    decreases |uart|
  {
    uart == [] || (GoodTurn(m, uart[0], q, num) && GoodRun(Turn(m, uart[0]).value, uart[1..], q, num))
  }

  /** The completions of a run, in order. */
  function Served(m: Machine, uart: seq<bool>): seq<Completion>
    requires m.s.Valid() && Turns(m, uart).Ok?
    decreases |uart|
  {
    if uart == [] then []
    else ServedIn(m, uart[0]) + Served(Turn(m, uart[0]).value, uart[1..])
  }

  function ServedIn(m: Machine, uart: bool): seq<Completion>
    requires m.s.Valid() && Turn(m, uart).Ok?
  {
    if Serves(m) then
      CheckServes(m, uart);
      [CompletionOf(m)]
    else []
  }

  // ----- they form a run of completions -----

  /** The machine is as the completions `cs` have left it, up to what the driver may change; the guard keeps the
      run folded. */
  ghost predicate Left(m: Machine, cs: seq<Completion>, q: Queue, num: u32)
    requires m.s.Valid()
  {
    && m.s.mem.vio.queue == Some(q) && m.s.mem.vio.queueNum == num && m.s.mem.vio.id == U64(|cs|)
    && forall z {:trigger Open(z)} :: Open(z) ==> Leaves(cs, q, num, m.s.mem.ram, m.disk)
  }

  lemma CountUp(k: nat)
    ensures NextId(U64(k)) == U64(k + 1)
  {
  }

  lemma LeftGrows(m: Machine, cs: seq<Completion>, q: Queue, num: u32, c: Completion, t: Machine)
    requires m.s.Valid() && t.s.Valid() && Left(m, cs, q, num) && c.ram == m.s.mem.ram && c.disk == m.disk
    requires GoodCompletion(c, q, num, |cs|) && t.disk == DiskAfter(c)
    requires SameBytes(After(c, q, num, |cs|), t.s.mem.ram, q.used - RAM_BASE, 4 + 8 * num)
    requires t.s.mem.vio.queue == Some(q) && t.s.mem.vio.queueNum == num && t.s.mem.vio.id == NextId(U64(|cs|))
    ensures Left(t, cs + [c], q, num)
  {
    assert Open(0);
    CountUp(|cs|);
    OneMoreRound(cs, q, num, c, t.s.mem.ram);
  }

  lemma LeftStays(m: Machine, cs: seq<Completion>, q: Queue, num: u32, t: Machine)
    requires m.s.Valid() && t.s.Valid() && Left(m, cs, q, num) && t.disk == m.disk
    requires SameBytes(m.s.mem.ram, t.s.mem.ram, q.used - RAM_BASE, 4 + 8 * num)
    requires t.s.mem.vio.queue == Some(q) && t.s.mem.vio.queueNum == num && t.s.mem.vio.id == m.s.mem.vio.id
    ensures Left(t, cs, q, num)
  {
    assert Open(0);
    DriverChanges(cs, q, num, m.s.mem.ram, t.s.mem.ram, m.disk);
  }

  /** The request that is served is one more of the run. */
  lemma ServedIsGood(m: Machine, uart: bool, cs: seq<Completion>, q: Queue, num: u32)
    requires m.s.Valid() && Left(m, cs, q, num) && Turn(m, uart).Ok? && Serves(m) && GoodTurn(m, uart, q, num)
    ensures ServeDisk(Consumed(Counted(m))).Ok? && GoodCompletion(CompletionOf(m), q, num, |cs|)
  {
    assert Open(0);
    CheckServes(m, uart);
    ServeIs(m, q, num);
  }

  /** A turn that serves a request adds it. */
  lemma ServingTurn(m: Machine, uart: bool, cs: seq<Completion>, q: Queue, num: u32)
    requires m.s.Valid() && Left(m, cs, q, num) && Turn(m, uart).Ok? && Serves(m) && GoodTurn(m, uart, q, num)
    ensures Left(Turn(m, uart).value, cs + ServedIn(m, uart), q, num)
  {
    ServedIsGood(m, uart, cs, q, num);
    CheckServes(m, uart);
    ServeIs(m, q, num);
    SteppedKeeps(AfterCheck(m, uart));
    LeftGrows(m, cs, q, num, CompletionOf(m), Turn(m, uart).value);
  }

  /** A turn that serves none changes nothing of it. */
  lemma OtherTurn(m: Machine, uart: bool, cs: seq<Completion>, q: Queue, num: u32)
    requires m.s.Valid() && Left(m, cs, q, num) && Turn(m, uart).Ok? && !Serves(m) && GoodTurn(m, uart, q, num)
    ensures Left(Turn(m, uart).value, cs + ServedIn(m, uart), q, num)
  {
    CheckSkips(m, uart);
    SteppedKeeps(AfterCheck(m, uart));
    LeftStays(m, cs, q, num, Turn(m, uart).value);
    assert cs + ServedIn(m, uart) == cs;
  }

  lemma FirstTurn(m: Machine, uart: seq<bool>, cs: seq<Completion>, q: Queue, num: u32)
    returns (t: Machine, now: seq<Completion>)
    requires m.s.Valid() && Left(m, cs, q, num) && uart != [] && Turns(m, uart).Ok? && GoodRun(m, uart, q, num)
    ensures t.s.Valid() && Left(t, cs + now, q, num) && Turns(t, uart[1..]) == Turns(m, uart)
    ensures GoodRun(t, uart[1..], q, num) && Served(m, uart) == now + Served(t, uart[1..])
  {
    t, now := Turn(m, uart[0]).value, ServedIn(m, uart[0]);
    if Serves(m) { ServingTurn(m, uart[0], cs, q, num); } else { OtherTurn(m, uart[0], cs, q, num); }
  }

  lemma Grouped<T>(a: seq<T>, b: seq<T>, c: seq<T>)
    ensures a + (b + c) == a + b + c
  {
  }

  lemma NoneServed(m: Machine, uart: seq<bool>, cs: seq<Completion>)
    requires m.s.Valid() && uart == []
    ensures cs + Served(m, uart) == cs
  {
  }

  lemma {:induction false} LoopLeaves(m: Machine, uart: seq<bool>, cs: seq<Completion>, q: Queue, num: u32)
    requires m.s.Valid() && Left(m, cs, q, num) && Turns(m, uart).Ok? && GoodRun(m, uart, q, num)
    ensures Turns(m, uart).value.s.Valid() && Left(Turns(m, uart).value, cs + Served(m, uart), q, num)
    decreases |uart|
  {
    if uart == [] {
      NoneServed(m, uart, cs);
    } else {
      var t, now := FirstTurn(m, uart, cs, q, num);
      LoopLeaves(t, uart[1..], cs + now, q, num);
      Grouped(cs, now, Served(t, uart[1..]));
    }
  }

  /** A driver has set up the queue, and no request has been served yet. */
  ghost predicate SetUp(m: Machine, q: Queue, num: u32)
    requires m.s.Valid()
  {
    RingInRam(q, num) && m.s.mem.vio.queue == Some(q) && m.s.mem.vio.queueNum == num && m.s.mem.vio.id == 0
  }

  lemma NoneYet(m: Machine, q: Queue, num: u32)
    requires m.s.Valid() && SetUp(m, q, num)
    ensures Left(m, [], q, num)
  {
  }

  /** The requests served in a run of the main loop form a run of completions, and leave what it leaves. */
  lemma ServedLeave(m: Machine, uart: seq<bool>, q: Queue, num: u32)
    requires m.s.Valid() && SetUp(m, q, num) && Turns(m, uart).Ok? && GoodRun(m, uart, q, num)
    ensures Leaves(Served(m, uart), q, num, Turns(m, uart).value.s.mem.ram, Turns(m, uart).value.disk)
  {
    NoneYet(m, q, num);
    LoopLeaves(m, uart, [], q, num);
    assert Open(0) && [] + Served(m, uart) == Served(m, uart);
  }

  /** In every run of the main loop whose driver keeps to the rules, however many instructions and interrupts there
      are between the requests: the used index is the number of requests served, modulo 2^16, and the slots hold
      the heads of the last `num` of them. */
  lemma LoopUsedRing(m: Machine, uart: seq<bool>, q: Queue, num: u32, cs: seq<Completion>, ram: Ram, j: nat)
    requires m.s.Valid() && SetUp(m, q, num) && Turns(m, uart).Ok? && GoodRun(m, uart, q, num)
    requires cs == Served(m, uart) && ram == Turns(m, uart).value.s.mem.ram
    requires CounterFits(|cs|, num) && |cs| - num <= j < |cs|
    ensures |ram| == RAM_SIZE && j % num < num
    ensures UsedIdx(ram, q) == |cs| % TWO16 && Slot(ram, q, num, j % num) == cs[j].req.head % TWO32
  {
    ServedLeave(m, uart, q, num);
    RingLeft(cs, q, num, ram, Turns(m, uart).value.disk, j);
  }

  /** In every such run, a request that reads back a sector written by an earlier one, with no write to those bytes
      in between, leaves in its buffer what the earlier one's buffer held. */
  lemma LoopRoundTrip(m: Machine, uart: seq<bool>, q: Queue, num: u32, cs: seq<Completion>, i: nat, j: nat)
    requires m.s.Valid() && SetUp(m, q, num) && Turns(m, uart).Ok? && GoodRun(m, uart, q, num)
    requires cs == Served(m, uart) && i < j < |cs| && !cs[i].req.toRam && cs[j].req.toRam
    requires cs[j].req.sector == cs[i].req.sector && cs[j].req.len <= cs[i].req.len
    requires forall k :: i < k < j ==> Spares(cs[k].req, cs[i].req)
    requires forall a :: InBuffer(cs[j].req, a) ==> !Bookkeeping(q, num, U64(j), cs[j].req, a)
    ensures GoodCompletion(cs[i], q, num, i) && GoodCompletion(cs[j], q, num, j)
    ensures Window(After(cs[j], q, num, j), cs[j].req.addr, cs[j].req.len)
            == Window(cs[i].ram, cs[i].req.addr, cs[i].req.len)[..cs[j].req.len]
  {
    ServedLeave(m, uart, q, num);
    ReadsBack(cs, q, num, i, j);
  }
}
