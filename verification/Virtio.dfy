/** src/virtio.cc: the legacy MMIO block device, its queue layout and its request handling. */
module Virtio {
  import opened Words
  import opened Util
  import opened Memory

  const MMIO: int := 0x0a00_0000
  const GUEST_FEATURES: int := MMIO + 0x20
  const GUEST_PAGE_SIZE: int := MMIO + 0x28
  const QUEUE_SEL: int := MMIO + 0x30
  const QUEUE_NUM: int := MMIO + 0x38
  const QUEUE_PFN: int := MMIO + 0x40
  const QUEUE_NOTIFY: int := MMIO + 0x50
  const INTERRUPT_ACK: int := MMIO + 0x64
  const STATUS: int := MMIO + 0x70

  const DESC_SIZE: int := 16
  const SECTOR_SIZE: int := 512
  const NOT_NOTIFIED: int := 0xffff_ffff

  datatype Option<+T> = None | Some(value: T)

  /** The addresses of the three parts of a virtqueue. */
  datatype Queue = Queue(desc: u64, avail: u64, used: u64, availIdx: u16)

  /** The registers a driver can write, the queue built from them, and the count of served requests. */
  datatype Regs = Regs(guestFeatures: u32, pageSize: u64, queueSel: u32, queueNum: u32, queuePfn: u32,
                       queueNotify: u32, interruptAck: u32, status: u32, queue: Option<Queue>, id: u64)

  const RESET: Regs := Regs(0, 0, 0, 0, 0, NOT_NOTIFIED, 0, 0, None, 0)

  /** The layout for given register values; both products are computed in 32 bits. */
  function Layout(pfn: u32, pageSize: u32, num: u32, availIdx: u16): Queue
  {
    var base := pfn * pageSize % TWO32;
    Queue(base, base + num * 16 % TWO32, base + pageSize, availIdx)
  }

  /** `virtqueue->update(...)`: recompute the addresses of an existing queue. */
  function Relaid(r: Regs): Regs
  {
    if r.queue.Some? then
      r.(queue := Some(Layout(r.queuePfn, r.pageSize % TWO32, r.queueNum, r.queue.value.availIdx)))
    else r
  }

  /** The effect of a store to the device's register window. */
  function StoreReg(r: Regs, addr: u64, value: u64): Try<Regs>
  {
    var v := value % TWO32;
    if addr == GUEST_FEATURES then Ok(r.(guestFeatures := v))
    else if addr == GUEST_PAGE_SIZE then Ok(Relaid(r.(pageSize := value)))
    else if addr == QUEUE_SEL then Ok(r.(queueSel := v))
    else if addr == QUEUE_NUM then Ok(Relaid(r.(queueNum := v)))
    else if addr == QUEUE_PFN then Ok(Relaid(r.(queuePfn := v)))
    else if addr == QUEUE_NOTIFY then Ok(r.(queueNotify := v))
    else if addr == INTERRUPT_ACK then Ok(r.(interruptAck := v))
    else if addr == STATUS then
      Ok(if Bit(v, 2)
         then r.(status := v, queue := Some(Layout(r.queuePfn, r.pageSize % TWO32, r.queueNum, 0)))
         else r.(status := v))
    else Stop(Exit(1))
  }

  // ----- requests -----

  datatype Desc = Desc(addr: u64, len: u32, flags: u16, next: u16)

  /** A block request as the device reads it from its three chained descriptors. */
  datatype Request = Request(head: u64, sector: u64, addr: u64, len: u32, toRam: bool, status: u64)

  /** `n` bytes at a guest address are RAM. */
  predicate InHost(addr: int, n: nat) { RAM_BASE <= addr && addr + n <= RAM_BASE + RAM_SIZE }

  /** `mem.load64`: a direct access to the buffer, without the bus. */
  function Peek64(ram: Ram, addr: u64): Try<u64>
    requires |ram| == RAM_SIZE
  {
    if InHost(addr, 8) then Ok(Fetch64(ram, addr - RAM_BASE)) else Stop(HostFault)
  }

  function Fetch64(ram: Ram, off: nat): (v: u64)
    requires off + 8 <= |ram|
  {
    GetBound(ram, off, 8);
    Pow2Words();
    Get(ram, off, 8)
  }

  function Fetch32(ram: Ram, off: nat): (v: u32)
    requires off + 4 <= |ram|
  {
    GetBound(ram, off, 4);
    Pow2Words();
    Get(ram, off, 4)
  }

  function Fetch16(ram: Ram, off: nat): (v: u16)
    requires off + 2 <= |ram|
  {
    GetBound(ram, off, 2);
    Pow2Table();
    Get(ram, off, 2)
  }

  function ReadDesc(ram: Ram, base: u64): Try<Desc>
    requires |ram| == RAM_SIZE
  {
    if !InHost(base, DESC_SIZE) then Stop(HostFault)
    else
      var p := base - RAM_BASE;
      Ok(Desc(Fetch64(ram, p), Fetch32(ram, p + 8), Fetch16(ram, p + 12), Fetch16(ram, p + 14)))
  }

  function DescAddr(q: Queue, index: u64): u64 { U64(q.desc + U64(index * DESC_SIZE)) }

  /** Where the device reads the head from; `availIdx` is never advanced. */
  function HeadAddr(q: Queue, num: u32): u64
    requires num > 0
  {
    U64(q.avail + 32 + q.availIdx % num)
  }

  function ReadRequest(ram: Ram, q: Queue, num: u32): Try<Request>
    requires |ram| == RAM_SIZE && num > 0
  {
    var head :- Peek64(ram, HeadAddr(q, num));
    var d0 :- ReadDesc(ram, DescAddr(q, head));
    var d1 :- ReadDesc(ram, DescAddr(q, d0.next));
    var d2 :- ReadDesc(ram, DescAddr(q, d1.next));
    var sector :- Peek64(ram, U64(d0.addr + 8));
    Ok(Request(head, sector, d1.addr, d1.len, Bit(d1.flags, 1), d2.addr))
  }

  /** The address of the used-ring entry for completion number `id`. */
  function SlotAddr(q: Queue, num: u32, id: u64): u64
    requires num > 0
  {
    U64(q.used + 4 + U64(id % num * 8))
  }

  function IdxAddr(q: Queue): u64 { U64(q.used + 2) }

  function DiskStart(req: Request): u64 { U64(req.sector * SECTOR_SIZE) }

  /** Everything the device touches while serving `req` exists, and its copy loop can end. */
  predicate Servable(disk: seq<u8>, q: Queue, num: u32, id: u64, req: Request)
  {
    && num > 0
    && req.len < TWO16
    && InHost(req.addr, req.len)
    && DiskStart(req) + req.len <= |disk|
    && InHost(req.status, 1)
    && InHost(SlotAddr(q, num, id), 4)
    && InHost(IdxAddr(q), 2)
  }

  function Splice(s: seq<u8>, off: nat, t: seq<u8>): (r: seq<u8>)
    requires off + |t| <= |s|
    ensures |r| == |s|
    ensures forall j :: 0 <= j < |s| ==> r[j] == if off <= j < off + |t| then t[j - off] else s[j]
  {
    s[..off] + t + s[off + |t|..]
  }

  function NextId(id: u64): u64 { U64(id + 1) }

  /** RAM after a request: the data if it goes to RAM, then status byte, used entry and used index. */
  function ServedRam(ram: Ram, disk: seq<u8>, q: Queue, num: u32, id: u64, req: Request): (r: Ram)
    requires |ram| == RAM_SIZE && Servable(disk, q, num, id, req)
    ensures |r| == RAM_SIZE
  {
    Notified(Copied(ram, disk, req), q, num, id, req)
  }

  function Copied(ram: Ram, disk: seq<u8>, req: Request): (r: Ram)
    requires |ram| == RAM_SIZE && InHost(req.addr, req.len) && DiskStart(req) + req.len <= |disk|
    ensures |r| == RAM_SIZE
  {
    if req.toRam then Splice(ram, req.addr - RAM_BASE, disk[DiskStart(req)..DiskStart(req) + req.len]) else ram
  }

  function Notified(ram: Ram, q: Queue, num: u32, id: u64, req: Request): (r: Ram)
    requires |ram| == RAM_SIZE && num > 0
    requires InHost(req.status, 1) && InHost(SlotAddr(q, num, id), 4) && InHost(IdxAddr(q), 2)
    ensures |r| == RAM_SIZE
  {
    Bookkept(ram, req.status - RAM_BASE, SlotAddr(q, num, id) - RAM_BASE, IdxAddr(q) - RAM_BASE, req.head, NextId(id))
  }

  /** Status byte, used entry and used index, stored in this order at the given offsets. */
  function Bookkept(ram: Ram, status: nat, slot: nat, idx: nat, head: u64, id: u64): (r: Ram)
    requires status + 1 <= |ram| && slot + 4 <= |ram| && idx + 2 <= |ram|
    ensures |r| == |ram|
  {
    Put(Put(Put(ram, status, 1, 0), slot, 4, head), idx, 2, id)
  }

  function ServedDisk(ram: Ram, disk: seq<u8>, req: Request): (d: seq<u8>)
    requires |ram| == RAM_SIZE && InHost(req.addr, req.len) && DiskStart(req) + req.len <= |disk|
    ensures |d| == |disk|
  {
    if req.toRam then disk
    else Splice(disk, DiskStart(req), ram[req.addr - RAM_BASE..req.addr - RAM_BASE + req.len])
  }

  // ----- the device -----

  class Device {
    const disk: array<u8>
    var guestFeatures: u32
    var pageSize: u64
    var queueSel: u32
    var queueNum: u32
    var queuePfn: u32
    var queueNotify: u32
    var interruptAck: u32
    var status: u32
    var queue: Option<Queue>
    var id: u64

    constructor (disk: array<u8>)
      ensures this.disk == disk && Registers() == RESET
    {
      this.disk := disk;
      guestFeatures, pageSize, queueSel, queueNum, queuePfn := 0, 0, 0, 0, 0;
      queueNotify, interruptAck, status, queue, id := NOT_NOTIFIED, 0, 0, None, 0;
    }

    ghost function Registers(): Regs
      reads this
    {
      Regs(guestFeatures, pageSize, queueSel, queueNum, queuePfn, queueNotify, interruptAck, status, queue, id)
    }

    method Update(pfn: u32, pageSize: u64, num: u32)
      modifies this`queue
      ensures queue == if old(queue).Some?
                       then Some(Layout(pfn, pageSize % TWO32, num, old(queue).value.availIdx)) else None
    {
      if queue.Some? {
        var page: u32 := pageSize % TWO32;
        var base := pfn * page % TWO32;
        queue := Some(Queue(base, base + num * 16 % TWO32, base + page, queue.value.availIdx));
      }
    }

    method Store(addr: u64, value: u64) returns (r: Try<()>)
      modifies this
      ensures r.Ok? ==> StoreReg(old(Registers()), addr, value) == Ok(Registers())
      ensures r.Stop? ==> StoreReg(old(Registers()), addr, value) == Stop(r.why)
    {
      r := Ok(());
      var v := value % TWO32;
      if addr == GUEST_FEATURES {
        guestFeatures := v;
      } else if addr == GUEST_PAGE_SIZE {
        pageSize := value;
        Update(queuePfn, pageSize, queueNum);
      } else if addr == QUEUE_SEL {
        queueSel := v;
      } else if addr == QUEUE_NUM {
        queueNum := v;
        Update(queuePfn, pageSize, queueNum);
      } else if addr == QUEUE_PFN {
        queuePfn := v;
        Update(queuePfn, pageSize, queueNum);
      } else if addr == QUEUE_NOTIFY {
        queueNotify := v;
      } else if addr == INTERRUPT_ACK {
        interruptAck := v;
      } else if addr == STATUS {
        status := v;
        BitIsParity(v, 2);
        assert Pow2(2) == 4;
        if v / 4 % 2 != 0 {
          queue := Some(Queue(0, 0, 0, 0));
          Update(queuePfn, pageSize, queueNum);
        }
      } else {
        r := Stop(Exit(1));
      }
    }

    /** A notification of queue 0 is pending; asking for it consumes it. */
    method IsInterrupting() returns (pending: bool)
      modifies this`queueNotify
      ensures pending == (old(queueNotify) == 0)
      ensures queueNotify == if pending then NOT_NOTIFIED else old(queueNotify)
    {
      pending := queueNotify == 0;
      if pending { queueNotify := NOT_NOTIFIED; }
    }

    method LoadDesc(mem: Mem, base: u64) returns (d: Desc)
      requires mem.data.Length == RAM_SIZE && InHost(base, DESC_SIZE)
      ensures ReadDesc(mem.data[..], base) == Ok(d)
    {
      var addr := mem.Load64(base);
      var len := mem.Load32(base + 8);
      var flags := mem.Load16(base + 12);
      var next := mem.Load16(base + 14);
      Pow2Table();
      d := Desc(addr, len, flags, next);
    }

    /** Follow the chain at the head of the available ring. */
    method LoadRequest(mem: Mem, q: Queue) returns (req: Request)
      requires mem.data.Length == RAM_SIZE && queueNum > 0
      requires ReadRequest(mem.data[..], q, queueNum).Ok?
      ensures ReadRequest(mem.data[..], q, queueNum) == Ok(req)
    {
      var head := mem.Load64(HeadAddr(q, queueNum));
      assert Peek64(mem.data[..], HeadAddr(q, queueNum)) == Ok(head);
      var d0 := LoadDesc(mem, DescAddr(q, head));
      var d1 := LoadDesc(mem, DescAddr(q, d0.next));
      var d2 := LoadDesc(mem, DescAddr(q, d1.next));
      var sector := mem.Load64(U64(d0.addr + 8));
      assert Peek64(mem.data[..], U64(d0.addr + 8)) == Ok(sector);
      var write := BitAt(d1.flags, 1);
      req := Request(head, sector, d1.addr, d1.len, write != 0, d2.addr);
    }

    /** Status byte, used entry, used index. */
    method Notify(mem: Mem, q: Queue, req: Request)
      requires mem.data.Length == RAM_SIZE && queueNum > 0
      requires InHost(req.status, 1) && InHost(SlotAddr(q, queueNum, id), 4) && InHost(IdxAddr(q), 2)
      modifies mem.data, this`id
      ensures mem.data[..] == Notified(old(mem.data[..]), q, queueNum, old(id), req)
      ensures id == NextId(old(id))
    {
      mem.Store8(req.status, 0);
      mem.Store32(U64(q.used + 4 + U64(id % queueNum * 8)), req.head);
      id := U64(id + 1);
      mem.Store16(U64(q.used + 2), id);
    }

    /** Serve the request at the head of the available ring. */
    method DiskAccess(mem: Mem) returns (req: Request)
      requires mem.data.Length == RAM_SIZE && mem.data != disk
      requires queue.Some? && queueNum > 0
      requires ReadRequest(mem.data[..], queue.value, queueNum).Ok?
      requires Servable(disk[..], queue.value, queueNum, id, ReadRequest(mem.data[..], queue.value, queueNum).value)
      modifies mem.data, disk, this`id
      ensures ReadRequest(old(mem.data[..]), queue.value, queueNum) == Ok(req)
      ensures Servable(old(disk[..]), queue.value, queueNum, old(id), req)
      ensures mem.data[..] == ServedRam(old(mem.data[..]), old(disk[..]), queue.value, queueNum, old(id), req)
      ensures disk[..] == ServedDisk(old(mem.data[..]), old(disk[..]), req)
      ensures id == NextId(old(id))
    {
      var q := queue.value;
      req := LoadRequest(mem, q);
      Transfer(mem, req);
      Notify(mem, q, req);
    }

    /** The copy loop that the request's direction selects. */
    method Transfer(mem: Mem, req: Request)
      requires mem.data.Length == RAM_SIZE && mem.data != disk
      requires InHost(req.addr, req.len) && DiskStart(req) + req.len <= disk.Length && req.len < TWO16
      modifies mem.data, disk
      ensures mem.data[..] == Copied(old(mem.data[..]), old(disk[..]), req)
      ensures disk[..] == ServedDisk(old(mem.data[..]), old(disk[..]), req)
    {
      if req.toRam {
        CopyToRam(mem, DiskStart(req), req.addr, req.len);
      } else {
        CopyToDisk(mem, DiskStart(req), req.addr, req.len);
      }
    }

    /** The device-write loop; its counter is a `uint16_t`. */
    method CopyToRam(mem: Mem, start: u64, addr: u64, len: u32)
      requires mem.data != disk && mem.data.Length == RAM_SIZE
      requires InHost(addr, len) && start + len <= disk.Length && len < TWO16
      modifies mem.data
      ensures mem.data[..] == Splice(old(mem.data[..]), addr - RAM_BASE, disk[start..start + len])
    {
      ghost var before := mem.data[..];
      var i: u16 := 0;
      while i < len
        invariant i <= len
        invariant forall j :: 0 <= j < RAM_SIZE ==>
          mem.data[j] == if addr - RAM_BASE <= j < addr - RAM_BASE + i then disk[start + j - (addr - RAM_BASE)]
                         else before[j]
      {
        var data := disk[start + i];
        PutByte(mem.data[..], addr + i - RAM_BASE, data);
        mem.Store8(addr + i, data);
        i := (i + 1) % TWO16;
      }
      assert mem.data[..] == Splice(before, addr - RAM_BASE, disk[start..start + len]);
    }

    /** The device-read loop. */
    method CopyToDisk(mem: Mem, start: u64, addr: u64, len: u32)
      requires mem.data != disk && mem.data.Length == RAM_SIZE
      requires InHost(addr, len) && start + len <= disk.Length && len < TWO16
      modifies disk
      ensures disk[..] == Splice(old(disk[..]), start, mem.data[addr - RAM_BASE..addr - RAM_BASE + len])
    {
      ghost var before := disk[..];
      var i: u16 := 0;
      while i < len
        invariant i <= len
        invariant forall j :: 0 <= j < disk.Length ==>
          disk[j] == if start <= j < start + i then mem.data[addr - RAM_BASE + j - start] else before[j]
      {
        var data := mem.Load8(addr + i);
        disk[start + i] := data;
        i := (i + 1) % TWO16;
      }
      assert disk[..] == Splice(before, start, mem.data[addr - RAM_BASE..addr - RAM_BASE + len]);
    }
  }
}
