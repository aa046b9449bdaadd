/** A block request as a driver lays it out in RAM, and what the device does with it: the theorem a driver relies
    on, stated over bytes at addresses. */
module DriverRequests {
  import opened Words
  import opened Util
  import opened Memory
  import opened Virtio
  import opened VirtioProperties

  /** What the driver has put where: the index of the first descriptor in the available ring, those of the other
      two, the request header with the sector, the data buffer, the flags of its descriptor, and the status byte. */
  datatype Chain = Chain(head: u64, second: u16, third: u16, header: u64, sector: u64,
                         buffer: u64, len: u32, flags: u16, status: u64)

  /** The `n` bytes at a guest address are RAM and hold `v`, lowest byte first. */
  ghost predicate Holds(ram: Ram, addr: int, n: nat, v: nat)
    requires |ram| == RAM_SIZE
  {
    0x4000_0000 <= addr && addr + n <= 0x4800_0000 && Get(ram, addr - 0x4000_0000, n) == v
  }

  /** The chain is in RAM.  The device looks for the head 32 bytes into the available ring, and further on by an index
      that it never advances; descriptors are sixteen bytes apart and hold an address, a length, flags and the index
      of the next one. */
  ghost predicate LaidOut(ram: Ram, q: Queue, num: u32, c: Chain)
    requires |ram| == RAM_SIZE
  {
    var d0, d1, d2 := q.desc + 16 * c.head, q.desc + 16 * c.second, q.desc + 16 * c.third;
    && num > 0 && Holds(ram, q.avail + 32 + q.availIdx % num, 8, c.head)
    && Holds(ram, d0, 8, c.header) && Holds(ram, d0 + 14, 2, c.second)
    && Holds(ram, d1, 8, c.buffer) && Holds(ram, d1 + 8, 4, c.len) && Holds(ram, d1 + 12, 2, c.flags)
    && Holds(ram, d1 + 14, 2, c.third)
    && Holds(ram, d2, 8, c.status) && d2 + 16 <= 0x4800_0000
    && Holds(ram, c.header + 8, 8, c.sector)
  }

  /** Bit 1 of the data descriptor's flags: the device writes the buffer. */
  predicate ToBuffer(c: Chain) { c.flags / 2 % 2 == 1 }

  /** Buffer, status byte, sectors and used ring exist. */
  ghost predicate Exists(disk: seq<u8>, q: Queue, num: u32, c: Chain)
  {
    && c.len < 0x1_0000
    && 0x4000_0000 <= c.buffer && c.buffer + c.len <= 0x4800_0000
    && 0x4000_0000 <= c.status < 0x4800_0000
    && 512 * c.sector + c.len <= |disk| < TWO64
    && num > 0 && 0x4000_0000 <= q.used && q.used + 4 + 8 * num <= 0x4800_0000
  }

  function RequestOf(c: Chain): Request { Request(c.head, c.sector, c.buffer, c.len, ToBuffer(c), c.status) }

  // ----- the device reads what the driver has written -----

  lemma DescIs(ram: Ram, at: int, index: u64, q: Queue) returns (d: Desc)
    requires |ram| == RAM_SIZE && at == q.desc + 16 * index && 0x4000_0000 <= at && at + 16 <= 0x4800_0000
    ensures ReadDesc(ram, DescAddr(q, index)) == Ok(d)
    ensures Holds(ram, at, 8, d.addr) && Holds(ram, at + 8, 4, d.len) && Holds(ram, at + 12, 2, d.flags)
    ensures Holds(ram, at + 14, 2, d.next)
  {
    assert DescAddr(q, index) == at;
    d := ReadDesc(ram, at).value;
  }

  lemma HeadIs(ram: Ram, q: Queue, num: u32, v: u64)
    requires |ram| == RAM_SIZE && num > 0 && Holds(ram, q.avail + 32 + q.availIdx % num, 8, v)
    ensures Peek64(ram, HeadAddr(q, num)) == Ok(v)
  {
  }

  lemma SectorIs(ram: Ram, header: u64, v: u64)
    requires |ram| == RAM_SIZE && Holds(ram, header + 8, 8, v)
    ensures Peek64(ram, U64(header + 8)) == Ok(v)
  {
  }

  lemma DirectionIs(flags: u16)
    ensures Bit(flags, 1) == (flags / 2 % 2 == 1)
  {
    BitIsParity(flags, 1);
    assert Pow2(1) == 2 by { Pow2Table(); }
  }

  lemma Assembled(ram: Ram, q: Queue, num: u32, head: u64, d0: Desc, d1: Desc, d2: Desc, sector: u64)
    requires |ram| == RAM_SIZE && num > 0 && Peek64(ram, HeadAddr(q, num)) == Ok(head)
    requires ReadDesc(ram, DescAddr(q, head)) == Ok(d0) && ReadDesc(ram, DescAddr(q, d0.next)) == Ok(d1)
    requires ReadDesc(ram, DescAddr(q, d1.next)) == Ok(d2) && Peek64(ram, U64(d0.addr + 8)) == Ok(sector)
    ensures ReadRequest(ram, q, num) == Ok(Request(head, sector, d1.addr, d1.len, Bit(d1.flags, 1), d2.addr))
  {
  }

  lemma RequestIs(ram: Ram, q: Queue, num: u32, c: Chain)
    requires |ram| == RAM_SIZE && LaidOut(ram, q, num, c)
    ensures ReadRequest(ram, q, num) == Ok(RequestOf(c))
  {
    HeadIs(ram, q, num, c.head);
    var d0 := DescIs(ram, q.desc + 16 * c.head, c.head, q);
    var d1 := DescIs(ram, q.desc + 16 * c.second, c.second, q);
    var d2 := DescIs(ram, q.desc + 16 * c.third, c.third, q);
    SectorIs(ram, c.header, c.sector);
    DirectionIs(c.flags);
    Assembled(ram, q, num, c.head, d0, d1, d2, c.sector);
  }

  // ----- and serves it -----

  lemma CanServe(disk: seq<u8>, q: Queue, num: u32, id: u64, c: Chain)
    requires Exists(disk, q, num, c)
    ensures DiskStart(RequestOf(c)) == 512 * c.sector && SlotAddr(q, num, id) == q.used + 4 + 8 * (id % num)
    ensures IdxAddr(q) == q.used + 2 && Servable(disk, q, num, id, RequestOf(c))
  {
    DivMod(id, num);
  }

  /** The bytes that the device keeps its books in: the used index and one entry of the used ring. */
  predicate Books(q: Queue, num: u32, id: u64, a: int)
    requires num > 0
  {
    q.used + 2 <= a < q.used + 4 || q.used + 4 + 8 * (id % num) <= a < q.used + 8 + 8 * (id % num)
  }

  predicate InData(c: Chain, a: int) { c.buffer <= a < c.buffer + c.len }

  /** RAM after the request: data if it goes to the buffer, zero in the status byte, the head in the used entry and
      the count in the used index; nothing else changes. */
  ghost predicate RamServed(ram: Ram, ram': Ram, disk: seq<u8>, q: Queue, num: u32, id: u64, c: Chain)
    requires |ram| == |ram'| == RAM_SIZE && Exists(disk, q, num, c)
  {
    && (forall a :: 0x4000_0000 <= a < 0x4800_0000 && !Books(q, num, id, a) && a != c.status ==>
          ram'[a - 0x4000_0000] == if ToBuffer(c) && InData(c, a) then disk[512 * c.sector + (a - c.buffer)]
                                   else ram[a - 0x4000_0000])
    && (!Books(q, num, id, c.status) ==> ram'[c.status - 0x4000_0000] == 0)
    && Get(ram', q.used + 2 - 0x4000_0000, 2) == (id + 1) % 0x1_0000
    && Get(ram', q.used + 4 + 8 * (id % num) - 0x4000_0000, 4) == c.head % 0x1_0000_0000
  }

  /** Disk after the request: the buffer in the sector if it comes from the buffer; nothing else changes. */
  ghost predicate DiskServed(ram: Ram, disk: seq<u8>, disk': seq<u8>, c: Chain)
    requires |ram| == RAM_SIZE && 0x4000_0000 <= c.buffer && c.buffer + c.len <= 0x4800_0000
  {
    && |disk'| == |disk|
    && forall j :: 0 <= j < |disk| ==>
         disk'[j] == if !ToBuffer(c) && 512 * c.sector <= j < 512 * c.sector + c.len
                     then ram[c.buffer + (j - 512 * c.sector) - 0x4000_0000] else disk[j]
  }

  lemma DiskIs(ram: Ram, disk: seq<u8>, q: Queue, num: u32, id: u64, c: Chain)
    requires |ram| == RAM_SIZE && Exists(disk, q, num, c) && Servable(disk, q, num, id, RequestOf(c))
    ensures DiskServed(ram, disk, ServedDisk(ram, disk, RequestOf(c)), c)
  {
    CanServe(disk, q, num, id, c);
    SplicedDisk(ram, disk, RequestOf(c), 512 * c.sector);
  }

  lemma SplicedDisk(ram: Ram, disk: seq<u8>, req: Request, start: nat)
    requires |ram| == RAM_SIZE && InHost(req.addr, req.len) && start == DiskStart(req) && start + req.len <= |disk|
    ensures |ServedDisk(ram, disk, req)| == |disk|
    ensures forall j :: 0 <= j < |disk| ==>
              ServedDisk(ram, disk, req)[j] == if !req.toRam && start <= j < start + req.len
                                               then ram[req.addr + (j - start) - RAM_BASE] else disk[j]
  {
  }

  lemma RamIs(ram: Ram, disk: seq<u8>, q: Queue, num: u32, id: u64, c: Chain)
    requires |ram| == RAM_SIZE && Exists(disk, q, num, c) && Servable(disk, q, num, id, RequestOf(c))
    ensures RamServed(ram, ServedRam(ram, disk, q, num, id, RequestOf(c)), disk, q, num, id, c)
  {
    CanServe(disk, q, num, id, c);
    DivMod(id, num);
    var req := RequestOf(c);
    var ram' := ServedRam(ram, disk, q, num, id, req);
    forall a | 0x4000_0000 <= a < 0x4800_0000 && !Books(q, num, id, a) && a != c.status
      ensures ram'[a - 0x4000_0000] == if ToBuffer(c) && InData(c, a) then disk[512 * c.sector + (a - c.buffer)]
                                       else ram[a - 0x4000_0000]
    {
      ServeFrame(ram, disk, q, num, id, req, a);
    }
    BooksAre(Copied(ram, disk, req), q, num, id, c);
  }

  lemma BooksAre(ram: Ram, q: Queue, num: u32, id: u64, c: Chain)
    requires |ram| == RAM_SIZE && num > 0 && 0x4000_0000 <= q.used && q.used + 4 + 8 * num <= 0x4800_0000
    requires 0x4000_0000 <= c.status < 0x4800_0000 && IdxAddr(q) == q.used + 2
    requires SlotAddr(q, num, id) == q.used + 4 + 8 * (id % num) <= 0x4800_0000 - 4
    ensures
      var ram' := Notified(ram, q, num, id, RequestOf(c));
      && (!Books(q, num, id, c.status) ==> ram'[c.status - 0x4000_0000] == 0)
      && Get(ram', q.used + 2 - 0x4000_0000, 2) == (id + 1) % 0x1_0000
      && Get(ram', q.used + 4 + 8 * (id % num) - 0x4000_0000, 4) == c.head % 0x1_0000_0000
  {
    var status, slot, idx := c.status - RAM_BASE, SlotAddr(q, num, id) - RAM_BASE, IdxAddr(q) - RAM_BASE;
    BookkeptReads(ram, status, slot, idx, c.head, NextId(id));
    LowId(id);
    if !Books(q, num, id, c.status) { StatusByte(ram, status, slot, idx, c.head, NextId(id)); }
  }

  lemma LowId(id: u64)
    ensures NextId(id) % TWO16 == (id + 1) % 0x1_0000
  {
  }

  lemma StatusByte(ram: Ram, status: nat, slot: nat, idx: nat, head: u64, id: u64)
    requires status < |ram| && slot + 4 <= |ram| && idx + 2 <= |ram|
    requires !(slot <= status < slot + 4) && !(idx <= status < idx + 2)
    ensures Bookkept(ram, status, slot, idx, head, id)[status] == 0
  {
    assert Put(ram, status, 1, 0)[status] == 0;
  }
}
