/** The processor together with the disk and the timer: what one turn of the main loop in src/emulator.cc does. */
module Machines {
  import opened Words
  import opened Util
  import opened Memory
  import opened Virtio
  import opened Bus
  import opened Isa

  datatype Machine = Machine(s: State, disk: seq<u8>, timer: u64)

  /** Serving the block request at the head of the available ring.  Without a queue, or with a request that
      reaches outside RAM or disk or whose copy loop never ends, the emulator's behaviour is not described. */
  function ServeDisk(m: Machine): (r: Try<Machine>)
    requires m.s.Valid()
    ensures r.Ok? ==> r.value.s.Valid() && r.value.s == m.s.(mem := r.value.s.mem)
  {
    var ram, vio := m.s.mem.ram, m.s.mem.vio;
    if vio.queue.None? || vio.queueNum == 0 then Stop(Unmodelled)
    else
      match ReadRequest(ram, vio.queue.value, vio.queueNum)
      case Stop(why) => Stop(why)
      case Ok(req) =>
        if !Servable(m.disk, vio.queue.value, vio.queueNum, vio.id, req) then Stop(Unmodelled)
        else
          var mem := Storage(ServedRam(ram, m.disk, vio.queue.value, vio.queueNum, vio.id, req),
                vio.(id := NextId(vio.id)));
          Ok(Machine(m.s.(mem := mem), ServedDisk(ram, m.disk, req), m.timer))
  }

  /** `virtio.is_interrupting()` consumes the notification it finds. */
  function Consumed(m: Machine): Machine
  {
    m.(s := m.s.(mem := m.s.mem.(vio := m.s.mem.vio.(queueNotify := NOT_NOTIFIED))))
  }

  function Interrupted(r: Try<Machine>, irq: u64): Try<Machine>
  {
    match r
    case Stop(why) => Stop(why)
    case Ok(m) => Ok(m.(s := CauseInterrupt(m.s, irq)))
  }

  /** check_interrupt; `uart` says whether the serial line has input. */
  function Checked(m: Machine, uart: bool): (r: Try<Machine>)
    requires m.s.Valid()
    ensures r.Ok? ==> r.value.s.Valid()
  {
    if Bit(m.s.daif, 9) then Ok(m)
    else if m.s.mem.vio.queueNotify == 0 then Interrupted(ServeDisk(Consumed(m)), 0x30)
    else if !Bit(m.s.pc, 63) && m.timer % 100 == 0 then Interrupted(Ok(m), 0x1b)
    else if uart then Interrupted(Ok(m), 0x21)
    else Ok(m)
  }

  function Counted(m: Machine): Machine { m.(timer := U64(m.timer + 1)) }

  /** Fetch and execute. */
  function Stepped(m: Machine): (r: Try<Machine>)
    requires m.s.Valid()
    ensures r.Ok? ==> r.value.s.Valid()
  {
    match Step(m.s)
    case Stop(why) => Stop(why)
    case Ok(s) => Ok(m.(s := s))
  }

  /** One turn: count, check for interrupts, fetch, execute. */
  function Turn(m: Machine, uart: bool): (r: Try<Machine>)
    requires m.s.Valid()
    ensures r.Ok? ==> r.value.s.Valid()
  {
    match Checked(Counted(m), uart)
    case Stop(why) => Stop(why)
    case Ok(t) => Stepped(t)
  }

  /** As many turns as there are observations of the serial line. */
  function Turns(m: Machine, uart: seq<bool>): Try<Machine>
    requires m.s.Valid()
    decreases |uart|
  {
    if uart == [] then Ok(m)
    else
      match Turn(m, uart[0])
      case Stop(why) => Stop(why)
      case Ok(t) => Turns(t, uart[1..])
  }
}
