/** What the block device guarantees over whole runs of register stores and requests. */
module VirtioProperties {
  import opened Words
  import opened Util
  import opened Memory
  import opened Virtio

  // ----- the layout cache -----

  /** A sequence of register stores, applied in order. */
  function StoreAll(r: Regs, stores: seq<(u64, u64)>): Try<Regs>
    decreases |stores|
  {
    if stores == [] then Ok(r)
    else
      var next :- StoreReg(r, stores[0].0, stores[0].1);
      StoreAll(next, stores[1..])
  }

  /** An existing queue's addresses are those of the current register values. */
  ghost predicate LayoutCurrent(r: Regs)
  {
    r.queue.Some? ==> r.queue.value == Layout(r.queuePfn, r.pageSize % TWO32, r.queueNum, 0)
  }

  lemma {:induction false} LayoutCacheStaysCurrent(r: Regs, stores: seq<(u64, u64)>)
    requires LayoutCurrent(r)
    ensures StoreAll(r, stores).Ok? ==> LayoutCurrent(StoreAll(r, stores).value)
    decreases |stores|
  {
    if stores == [] {
    } else {
      var next := StoreReg(r, stores[0].0, stores[0].1);
      if next.Ok? { LayoutCacheStaysCurrent(next.value, stores[1..]); }
    }
  }

  /** The value last stored to `at`, or `start` if there is none. */
  function LastStore(stores: seq<(u64, u64)>, at: u64, start: u64): u64
    decreases |stores|
  {
    if stores == [] then start
    else LastStore(stores[1..], at, if stores[0].0 == at then stores[0].1 else start)
  }

  /** Each register holds what was last stored to its address; all but the page size keep 32 bits. */
  ghost predicate HoldsLast(r: Regs, stores: seq<(u64, u64)>, t: Regs)
  {
    && t.guestFeatures == LastStore(stores, 0x0a00_0020, r.guestFeatures) % TWO32
    && t.pageSize == LastStore(stores, 0x0a00_0028, r.pageSize)
    && t.queueSel == LastStore(stores, 0x0a00_0030, r.queueSel) % TWO32
    && t.queueNum == LastStore(stores, 0x0a00_0038, r.queueNum) % TWO32
    && t.queuePfn == LastStore(stores, 0x0a00_0040, r.queuePfn) % TWO32
    && t.queueNotify == LastStore(stores, 0x0a00_0050, r.queueNotify) % TWO32
    && t.interruptAck == LastStore(stores, 0x0a00_0064, r.interruptAck) % TWO32
    && t.status == LastStore(stores, 0x0a00_0070, r.status) % TWO32
    && t.id == r.id
  }

  /** The addresses that can be stored to. */
  predicate IsRegister(addr: u64)
  {
    addr in {0x0a00_0020, 0x0a00_0028, 0x0a00_0030, 0x0a00_0038, 0x0a00_0040, 0x0a00_0050, 0x0a00_0064, 0x0a00_0070}
  }

  /** A store to the status register that sets bit 2 makes a queue. */
  predicate MakesQueue(store: (u64, u64)) { store.0 == 0x0a00_0070 && store.1 / 4 % 2 == 1 }

  /** A queue that exists lies where the registers say, the products and the sum in 32 bits. */
  ghost predicate QueueAt(t: Regs)
  {
    t.queue.Some? ==>
      var desc := t.queuePfn * (t.pageSize % TWO32) % TWO32;
      t.queue.value == Queue(desc, desc + t.queueNum * 16 % TWO32, desc + t.pageSize % TWO32, 0)
  }

  /** Any sequence of register stores: it goes through exactly when every address is a register's, the last store to
      each register wins, a queue exists if there was one or a store has made one, and lies where they say. */
  lemma {:induction false} LastStoreWins(r: Regs, stores: seq<(u64, u64)>)
    ensures StoreAll(r, stores).Ok? <==> forall k :: 0 <= k < |stores| ==> IsRegister(stores[k].0)
    ensures StoreAll(r, stores).Stop? ==> StoreAll(r, stores) == Stop(Exit(1))
    ensures StoreAll(r, stores).Ok? ==> HoldsLast(r, stores, StoreAll(r, stores).value)
    ensures StoreAll(r, stores).Ok? ==>
              (StoreAll(r, stores).value.queue.Some?
               <==> r.queue.Some? || exists k :: 0 <= k < |stores| && MakesQueue(stores[k]))
    ensures QueueAt(r) && StoreAll(r, stores).Ok? ==> QueueAt(StoreAll(r, stores).value)
    decreases |stores|
  {
    if stores == [] {
      WordsStay(r);
    } else {
      var first, rest := stores[0], stores[1..];
      var next := StoreReg(r, first.0, first.1);
      OneStore(r, first);
      assert stores == [first] + rest;
      if next.Ok? {
        LastStoreWins(next.value, rest);
        LastAfter(r, first, next.value, rest, StoreAll(r, stores));
      }
    }
  }

  lemma WordsStay(r: Regs)
    ensures HoldsLast(r, [], r)
  {
  }

  lemma OneStore(r: Regs, store: (u64, u64))
    ensures
      match StoreReg(r, store.0, store.1)
      case Stop(why) => !IsRegister(store.0) && why == Exit(1)
      case Ok(t) =>
        && IsRegister(store.0) && HoldsLast(r, [store], t)
        && (t.queue.Some? <==> r.queue.Some? || MakesQueue(store)) && (QueueAt(r) ==> QueueAt(t))
  {
    StoreFields(r, store);
    if StoreReg(r, store.0, store.1).Ok? { StoreQueue(r, store); }
    if QueueAt(r) { QueueIsLayout(r); }
    var t := StoreReg(r, store.0, store.1);
    if t.Ok? && LayoutCurrent(t.value) { QueueIsLayout(t.value); }
  }

  lemma QueueIsLayout(r: Regs)
    ensures QueueAt(r) <==> LayoutCurrent(r)
  {
  }

  lemma StoreFields(r: Regs, store: (u64, u64))
    ensures
      match StoreReg(r, store.0, store.1)
      case Stop(why) => !IsRegister(store.0) && why == Exit(1)
      case Ok(t) => IsRegister(store.0) && HoldsLast(r, [store], t)
  {
    LastOfOne(store);
    WordsStay(r);
  }

  lemma StoreQueue(r: Regs, store: (u64, u64))
    requires StoreReg(r, store.0, store.1).Ok?
    ensures
      var t := StoreReg(r, store.0, store.1).value;
      (t.queue.Some? <==> r.queue.Some? || MakesQueue(store)) && (LayoutCurrent(r) ==> LayoutCurrent(t))
  {
    StatusBit(store.1);
  }

  lemma StatusBit(v: u64)
    ensures Bit(v % TWO32, 2) == (v / 4 % 2 == 1)
  {
    assert Pow2(2) == 4 by { Pow2Table(); }
    assert Pow2(32) == TWO32 by { Pow2Words(); }
    BitMod(v, 32, 2);
    BitIsParity(v, 2);
  }

  lemma LastOfOne(store: (u64, u64))
    ensures forall at: u64, from: u64 :: LastStore([store], at, from) == if store.0 == at then store.1 else from
  {
    assert [store][1..] == [];
  }

  lemma LastCons(first: (u64, u64), rest: seq<(u64, u64)>, at: u64, start: u64)
    ensures LastStore([first] + rest, at, start) == LastStore(rest, at, if first.0 == at then first.1 else start)
  {
    assert ([first] + rest)[1..] == rest;
  }

  lemma {:induction false} LastModulo(stores: seq<(u64, u64)>, at: u64, a: u64, b: u64)
    requires a % TWO32 == b % TWO32
    ensures LastStore(stores, at, a) % TWO32 == LastStore(stores, at, b) % TWO32
    decreases |stores|
  {
    if stores == [] {
    } else if stores[0].0 != at {
      LastModulo(stores[1..], at, a, b);
    }
  }

  lemma FieldAfter(first: (u64, u64), rest: seq<(u64, u64)>, at: u64, start: u64, mid: u64)
    requires mid == LastStore([first], at, start) % TWO32
    ensures LastStore(rest, at, mid) % TWO32 == LastStore([first] + rest, at, start) % TWO32
  {
    LastOfOne(first);
    LastCons(first, rest, at, start);
    LastModulo(rest, at, mid, if first.0 == at then first.1 else start);
  }

  lemma LastAfter(r: Regs, first: (u64, u64), next: Regs, rest: seq<(u64, u64)>, all: Try<Regs>)
    requires HoldsLast(r, [first], next) && (all.Ok? ==> HoldsLast(next, rest, all.value))
    ensures all.Ok? ==> HoldsLast(r, [first] + rest, all.value)
  {
    FieldAfter(first, rest, 0x0a00_0020, r.guestFeatures, next.guestFeatures);
    FieldAfter(first, rest, 0x0a00_0030, r.queueSel, next.queueSel);
    FieldAfter(first, rest, 0x0a00_0038, r.queueNum, next.queueNum);
    FieldAfter(first, rest, 0x0a00_0040, r.queuePfn, next.queuePfn);
    FieldAfter(first, rest, 0x0a00_0050, r.queueNotify, next.queueNotify);
    FieldAfter(first, rest, 0x0a00_0064, r.interruptAck, next.interruptAck);
    FieldAfter(first, rest, 0x0a00_0070, r.status, next.status);
    LastOfOne(first);
    LastCons(first, rest, 0x0a00_0028, r.pageSize);
  }

  /** `n` rounded up to a multiple of `align`. */
  function AlignUp(n: nat, align: nat): nat
    requires align > 0
  {
    (n + align - 1) / align * align
  }

  /** The legacy layout (section 2.6.2 of Virtio 1.1) puts the used ring at the first aligned address
      past the available ring.  The device puts it one page after the descriptors, which is the same
      place, and leaves the parts disjoint, exactly when descriptors and available ring share a page. */
  lemma UsedRingIsLegacyIffOnePage(pfn: u32, pageSize: u32, num: u32)
    requires pageSize > 0 && pfn * pageSize < TWO32 && num * 16 < TWO32
    ensures
      var q := Layout(pfn, pageSize, num, 0);
      && q.desc == pfn * pageSize && q.avail == q.desc + 16 * num
      && (q.used == q.desc + AlignUp(16 * num + 2 * (3 + num), pageSize) <==> 18 * num + 6 <= pageSize)
      && (q.avail + 6 + 2 * num <= q.used <==> 18 * num + 6 <= pageSize)
  {
    AlignUpIsOneUnit(18 * num + 6, pageSize);
  }

  lemma AlignUpIsOneUnit(n: nat, p: nat)
    requires n > 0 && p > 0
    ensures AlignUp(n, p) == p <==> n <= p
  {
    var k := (n + p - 1) / p;
    DivMod(n + p - 1, p);
    if n <= p {
      DivModUnique(n + p - 1, p, 1, n - 1);
    } else {
      MultipleApart(k - 1, p);
      MulDistrib(k, 1, p);
    }
  }

  // ----- the copy loop's 16-bit counter -----

  /** One test and turn of `for (uint16_t i = 0; i < len; i++)`: a counter that has reached `len` stays. */
  function LoopStep(i: u16, len: u32): u16 { if i < len then (i + 1) % TWO16 else i }

  /** The counter after `k` of them. */
  function CounterAfter(k: nat, len: u32): u16
    decreases k
  {
    if k == 0 then 0 else LoopStep(CounterAfter(k - 1, len), len)
  }

  /** Up to 2^16 iterations the counter is their number; a length of 2^16 or more is never reached. */
  lemma {:induction false} CounterIs(k: nat, len: u32)
    ensures CounterAfter(k, len) == if len < TWO16 && k >= len then len else k % TWO16
  {
    if k == 0 {
    } else {
      CounterIs(k - 1, len);
      NextLow(k - 1);
    }
  }

  lemma NextLow(k: nat)
    ensures (k % TWO16 + 1) % TWO16 == (k + 1) % TWO16
    ensures k < TWO16 ==> k % TWO16 == k
  {
  }

  /** The loop over `len` bytes ends if and only if `len` fits in 16 bits; it then ends after `len` iterations. */
  lemma CopyLoopEndsIff(len: u32)
    ensures (exists k: nat :: CounterAfter(k, len) >= len) <==> len < TWO16
    ensures len < TWO16 ==> CounterAfter(len, len) == len && forall k: nat | k < len :: CounterAfter(k, len) < len
  {
    forall k: nat
      ensures CounterAfter(k, len) == if len < TWO16 && k >= len then len else k % TWO16
    {
      CounterIs(k, len);
    }
    if len < TWO16 { assert CounterAfter(len, len) >= len; }
  }

  // ----- disk round trip -----

  /** The bytes of a request's used-ring entry, used index and status byte. */
  ghost predicate Bookkeeping(q: Queue, num: u32, id: u64, req: Request, a: int)
    requires num > 0
  {
    || a == req.status
    || SlotAddr(q, num, id) <= a < SlotAddr(q, num, id) + 4
    || IdxAddr(q) <= a < IdxAddr(q) + 2
  }

  ghost predicate InBuffer(req: Request, a: int) { req.addr <= a < req.addr + req.len }

  /** A request changes no RAM outside its buffer and its bookkeeping, and a device-read request none in its buffer. */
  lemma ServeFrame(ram: Ram, disk: seq<u8>, q: Queue, num: u32, id: u64, req: Request, a: int)
    requires |ram| == RAM_SIZE && Servable(disk, q, num, id, req)
    requires RAM_BASE <= a < RAM_BASE + RAM_SIZE && !Bookkeeping(q, num, id, req, a)
    ensures ServedRam(ram, disk, q, num, id, req)[a - RAM_BASE] ==
            if req.toRam && InBuffer(req, a) then disk[DiskStart(req) + a - req.addr] else ram[a - RAM_BASE]
  {
    NotifiedFrame(Copied(ram, disk, req), q, num, id, req, a);
  }

  lemma NotifiedFrame(ram: Ram, q: Queue, num: u32, id: u64, req: Request, a: int)
    requires |ram| == RAM_SIZE && num > 0
    requires InHost(req.status, 1) && InHost(SlotAddr(q, num, id), 4) && InHost(IdxAddr(q), 2)
    requires RAM_BASE <= a < RAM_BASE + RAM_SIZE && !Bookkeeping(q, num, id, req, a)
    ensures Notified(ram, q, num, id, req)[a - RAM_BASE] == ram[a - RAM_BASE]
  {
    var off := a - RAM_BASE;
    var r1 := Put(ram, req.status - RAM_BASE, 1, 0);
    assert r1[off] == ram[off];
    var r2 := Put(r1, SlotAddr(q, num, id) - RAM_BASE, 4, req.head);
    assert r2[off] == r1[off];
    assert Put(r2, IdxAddr(q) - RAM_BASE, 2, NextId(id))[off] == r2[off];
  }

  /** What a device-write request leaves in its buffer is the disk's contents. */
  lemma BufferReceives(ram: Ram, disk: seq<u8>, q: Queue, num: u32, id: u64, rd: Request)
    requires |ram| == RAM_SIZE && Servable(disk, q, num, id, rd) && rd.toRam
    requires forall a :: InBuffer(rd, a) ==> !Bookkeeping(q, num, id, rd, a)
    ensures Window(ServedRam(ram, disk, q, num, id, rd), rd.addr, rd.len) == disk[DiskStart(rd)..DiskStart(rd) + rd.len]
  {
    var got, sent := Window(ServedRam(ram, disk, q, num, id, rd), rd.addr, rd.len),
          disk[DiskStart(rd)..DiskStart(rd) + rd.len];
    forall i | 0 <= i < rd.len ensures got[i] == sent[i] {
      assert InBuffer(rd, rd.addr + i);
      ServeFrame(ram, disk, q, num, id, rd, rd.addr + i);
    }
  }

  /** `n` bytes of RAM from a guest address. */
  function Window(ram: Ram, addr: u64, n: nat): seq<u8>
    requires |ram| == RAM_SIZE && InHost(addr, n)
  {
    ram[addr - RAM_BASE..addr - RAM_BASE + n]
  }

  /** Writing a buffer to a sector and later reading at most as many bytes of that sector back gives the
      original bytes, whatever the driver does to RAM in between, provided the second request's buffer does
      not overlap its own bookkeeping. */
  lemma DiskRoundTrip(ram1: Ram, ram2: Ram, disk: seq<u8>, q: Queue, num: u32, id1: u64, id2: u64,
                      wr: Request, rd: Request)
    requires |ram1| == |ram2| == RAM_SIZE
    requires Servable(disk, q, num, id1, wr) && !wr.toRam
    requires Servable(disk, q, num, id2, rd) && rd.toRam && rd.sector == wr.sector && rd.len <= wr.len
    requires forall a :: InBuffer(rd, a) ==> !Bookkeeping(q, num, id2, rd, a)
    ensures Window(ServedRam(ram2, ServedDisk(ram1, disk, wr), q, num, id2, rd), rd.addr, rd.len)
            == Window(ram1, wr.addr, wr.len)[..rd.len]
  {
    var d := ServedDisk(ram1, disk, wr);
    WriteLandsOn(ram1, disk, wr, rd, d);
    BufferReceives(ram2, d, q, num, id2, rd);
  }

  lemma WriteLandsOn(ram: Ram, disk: seq<u8>, wr: Request, rd: Request, d: seq<u8>)
    requires |ram| == RAM_SIZE && InHost(wr.addr, wr.len) && DiskStart(wr) + wr.len <= |disk| && !wr.toRam
    requires rd.sector == wr.sector && rd.len <= wr.len && d == ServedDisk(ram, disk, wr)
    ensures DiskStart(rd) + rd.len <= |d|
    ensures d[DiskStart(rd)..DiskStart(rd) + rd.len] == Window(ram, wr.addr, wr.len)[..rd.len]
  {
    SplicedPart(disk, DiskStart(wr), Window(ram, wr.addr, wr.len), rd.len);
  }

  lemma SplicedPart(s: seq<u8>, off: nat, t: seq<u8>, k: nat)
    requires off + |t| <= |s| && k <= |t|
    ensures Splice(s, off, t)[off..off + k] == t[..k]
  {
  }

  /** A request changes no disk byte outside the sectors a device-read request covers, and no RAM outside
      the buffer of a device-write request, the status byte, the used entry and the used index. */
  lemma RequestFootprint(ram: Ram, disk: seq<u8>, q: Queue, num: u32, id: u64, req: Request)
    requires |ram| == RAM_SIZE && Servable(disk, q, num, id, req)
    ensures forall j :: 0 <= j < |disk| && (req.toRam || !(DiskStart(req) <= j < DiskStart(req) + req.len))
              ==> ServedDisk(ram, disk, req)[j] == disk[j]
    ensures forall j :: 0 <= j < RAM_SIZE
              && !(req.toRam && InBuffer(req, j + RAM_BASE)) && !Bookkeeping(q, num, id, req, j + RAM_BASE)
              ==> ServedRam(ram, disk, q, num, id, req)[j] == ram[j]
  {
    forall j | 0 <= j < RAM_SIZE && !(req.toRam && InBuffer(req, j + RAM_BASE))
          && !Bookkeeping(q, num, id, req, j + RAM_BASE)
      ensures ServedRam(ram, disk, q, num, id, req)[j] == ram[j]
    {
      ServeFrame(ram, disk, q, num, id, req, j + RAM_BASE);
    }
  }

  // ----- the used ring -----

  /** One completion: the RAM the driver has prepared, the disk, and the request served. */
  datatype Completion = Completion(ram: Ram, disk: seq<u8>, req: Request)

  /** The used ring's bytes: flags, index and `num` entries of eight bytes. */
  ghost predicate InUsedRing(q: Queue, num: u32, a: int) { q.used <= a < q.used + 4 + 8 * num }

  ghost predicate RingInRam(q: Queue, num: u32)
  {
    0 < num && RAM_BASE <= q.used && q.used + 4 + 8 * num <= RAM_BASE + RAM_SIZE
  }

  /** Request `n` of a run can be served and keeps its buffer and status byte out of the used ring. */
  ghost predicate GoodCompletion(c: Completion, q: Queue, num: u32, n: nat)
  {
    && |c.ram| == RAM_SIZE
    && RingInRam(q, num)
    && Servable(c.disk, q, num, U64(n), c.req)
    && !InUsedRing(q, num, c.req.status)
    && (c.req.toRam ==> forall a :: InBuffer(c.req, a) ==> !InUsedRing(q, num, a))
  }

  function After(c: Completion, q: Queue, num: u32, n: nat): (r: Ram)
    requires |c.ram| == RAM_SIZE && Servable(c.disk, q, num, U64(n), c.req)
    ensures |r| == RAM_SIZE
  {
    ServedRam(c.ram, c.disk, q, num, U64(n), c.req)
  }

  /** A run of completions: completion `n` has counter value `n`, and between completions the driver may
      change any RAM except the used ring. */
  ghost predicate Run(cs: seq<Completion>, q: Queue, num: u32)
  {
    && (forall n :: 0 <= n < |cs| ==> GoodCompletion(cs[n], q, num, n))
    && (forall n :: 0 <= n < |cs| - 1 ==>
         SameBytes(After(cs[n], q, num, n), cs[n + 1].ram, q.used - RAM_BASE, 4 + 8 * num))
  }

  /** The 64-bit completion counter has not wrapped, or wrapping it does not disturb the slots. */
  ghost predicate CounterFits(k: nat, num: u32) { num > 0 && (k <= TWO64 || TWO64 % num == 0) }

  lemma SlotOfId(n: nat, num: u32)
    requires CounterFits(n + 1, num)
    ensures U64(n) % num == n % num
  {
    if n >= TWO64 { ModOfMod(n, TWO64, num); }
  }

  function UsedIdx(ram: Ram, q: Queue): nat
    requires |ram| == RAM_SIZE && InHost(q.used, 4)
  {
    Get(ram, q.used + 2 - RAM_BASE, 2)
  }

  function Slot(ram: Ram, q: Queue, num: u32, i: nat): nat
    requires |ram| == RAM_SIZE && RingInRam(q, num) && i < num
  {
    Get(ram, q.used + 4 + 8 * i - RAM_BASE, 4)
  }

  /** Inside RAM nothing wraps: completion `n` writes entry `n mod num`. */
  lemma RingAddresses(q: Queue, num: u32, n: nat)
    requires RingInRam(q, num) && CounterFits(n + 1, num)
    ensures SlotAddr(q, num, U64(n)) == q.used + 4 + 8 * (n % num)
    ensures IdxAddr(q) == q.used + 2
  {
    SlotOfId(n, num);
    DivMod(n, num);
  }

  /** Reading back the three stores of a completion. */
  lemma BookkeptReads(ram: Ram, status: nat, slot: nat, idx: nat, head: u64, id: u64)
    requires status + 1 <= |ram| && slot + 4 <= |ram| && idx + 2 <= slot
    ensures Get(Bookkept(ram, status, slot, idx, head, id), idx, 2) == id % TWO16
    ensures Get(Bookkept(ram, status, slot, idx, head, id), slot, 4) == head % TWO32
  {
    var r1 := Put(ram, status, 1, 0);
    var r2 := Put(r1, slot, 4, head);
    GetPut(r2, idx, 2, id);
    GetPut(r1, slot, 4, head);
    GetPutDisjoint(r2, idx, 2, id, slot, 4);
    Pow2Table();
  }

  lemma BookkeptKeeps(ram: Ram, status: nat, slot: nat, idx: nat, head: u64, id: u64, t: nat)
    requires status + 1 <= |ram| && slot + 4 <= |ram| && idx + 2 <= slot && t + 4 <= |ram|
    requires idx + 2 <= t && (slot + 4 <= t || t + 4 <= slot) && (status < t || t + 4 <= status)
    ensures Get(Bookkept(ram, status, slot, idx, head, id), t, 4) == Get(ram, t, 4)
  {
    var r1 := Put(ram, status, 1, 0);
    var r2 := Put(r1, slot, 4, head);
    GetPutDisjoint(r2, idx, 2, id, t, 4);
    GetPutDisjoint(r1, slot, 4, head, t, 4);
    GetPutDisjoint(ram, status, 1, 0, t, 4);
  }

  lemma NextIdLow(n: nat)
    ensures NextId(U64(n)) % TWO16 == (n + 1) % TWO16
  {
    var r := U64(n) + 1;
    DivModUnique(n + 1, TWO64, n / TWO64 + r / TWO64, r % TWO64);
    ModOfMod(n + 1, TWO64, TWO16);
  }

  /** A completion writes its own slot and the index. */
  lemma CompletionOwnSlot(c: Completion, q: Queue, num: u32, n: nat)
    requires GoodCompletion(c, q, num, n) && CounterFits(n + 1, num)
    ensures n % num < num
    ensures UsedIdx(After(c, q, num, n), q) == (n + 1) % TWO16
    ensures Slot(After(c, q, num, n), q, num, n % num) == c.req.head % TWO32
  {
    RingAddresses(q, num, n);
    DivMod(n, num);
    NextIdLow(n);
    BookkeptReads(Copied(c.ram, c.disk, c.req), c.req.status - RAM_BASE, SlotAddr(q, num, U64(n)) - RAM_BASE,
                  IdxAddr(q) - RAM_BASE, c.req.head, NextId(U64(n)));
  }

  /** A completion leaves every other slot alone. */
  lemma CompletionOtherSlot(c: Completion, q: Queue, num: u32, n: nat, i: nat)
    requires GoodCompletion(c, q, num, n) && CounterFits(n + 1, num) && i < num && i != n % num
    ensures Slot(After(c, q, num, n), q, num, i) == Slot(c.ram, q, num, i)
  {
    RingAddresses(q, num, n);
    CopyKeepsRing(c, q, num, n, q.used + 4 + 8 * i - RAM_BASE);
    OtherSlotKept(Copied(c.ram, c.disk, c.req), q, num, c.req, U64(n), n % num, i);
  }

  lemma OtherSlotKept(ram: Ram, q: Queue, num: u32, req: Request, id: u64, k: nat, i: nat)
    requires |ram| == RAM_SIZE && RingInRam(q, num) && k < num && i < num && i != k
    requires InHost(req.status, 1) && !InUsedRing(q, num, req.status)
    requires SlotAddr(q, num, id) == q.used + 4 + 8 * k && IdxAddr(q) == q.used + 2
    ensures Slot(Notified(ram, q, num, id, req), q, num, i) == Slot(ram, q, num, i)
  {
    BookkeptKeeps(ram, req.status - RAM_BASE, q.used + 4 + 8 * k - RAM_BASE, q.used + 2 - RAM_BASE, req.head,
                  NextId(id), q.used + 4 + 8 * i - RAM_BASE);
  }

  lemma CopyKeepsRing(c: Completion, q: Queue, num: u32, n: nat, t: nat)
    requires GoodCompletion(c, q, num, n)
    requires q.used <= t + RAM_BASE && t + 4 + RAM_BASE <= q.used + 4 + 8 * num
    ensures Get(Copied(c.ram, c.disk, c.req), t, 4) == Get(c.ram, t, 4)
  {
    forall j | t <= j < t + 4 ensures Copied(c.ram, c.disk, c.req)[j] == c.ram[j] {
      assert InUsedRing(q, num, j + RAM_BASE);
      assert c.req.toRam ==> !InBuffer(c.req, j + RAM_BASE);
    }
    GetFrame(Copied(c.ram, c.disk, c.req), c.ram, t, 4);
  }

  lemma SlotFrame(a: Ram, b: Ram, q: Queue, num: u32, i: nat)
    requires |a| == |b| == RAM_SIZE && RingInRam(q, num) && i < num
    requires SameBytes(a, b, q.used - RAM_BASE, 4 + 8 * num)
    ensures Slot(a, q, num, i) == Slot(b, q, num, i)
  {
    GetFrame(a, b, q.used + 4 + 8 * i - RAM_BASE, 4);
  }

  /** The RAM after the whole run. */
  function Final(cs: seq<Completion>, q: Queue, num: u32): (r: Ram)
    requires |cs| > 0 && |cs[|cs| - 1].ram| == RAM_SIZE
    requires Servable(cs[|cs| - 1].disk, q, num, U64(|cs| - 1), cs[|cs| - 1].req)
    ensures |r| == RAM_SIZE
  {
    After(cs[|cs| - 1], q, num, |cs| - 1)
  }

  /** After `k` completions the used index is `k mod 2^16`, and the slots hold the heads of the last
      `min(k, num)` requests. */
  lemma {:induction false} UsedRingHistory(cs: seq<Completion>, q: Queue, num: u32, j: nat)
    requires Run(cs, q, num) && CounterFits(|cs|, num) && |cs| > 0
    requires |cs| - num <= j < |cs|
    ensures RingInRam(q, num) && j % num < num
    ensures UsedIdx(Final(cs, q, num), q) == |cs| % TWO16
    ensures Slot(Final(cs, q, num), q, num, j % num) == cs[j].req.head % TWO32
    decreases |cs|
  {
    var k := |cs| - 1;
    assert GoodCompletion(cs[k], q, num, k);
    DivMod(j, num);
    CompletionOwnSlot(cs[k], q, num, k);
    if j < k {
      DistinctSlots(j, k, num);
      UsedRingHistory(cs[..k], q, num, j) by { RunPrefix(cs, q, num); }
      EarlierSlot(cs, q, num, j % num);
    }
  }

  lemma RunPrefix(cs: seq<Completion>, q: Queue, num: u32)
    requires Run(cs, q, num) && |cs| > 0
    ensures Run(cs[..|cs| - 1], q, num)
  {
    var before := cs[..|cs| - 1];
    assert forall n :: 0 <= n < |before| ==> before[n] == cs[n];
  }

  /** A slot the last completion does not own still holds what it held before it. */
  lemma EarlierSlot(cs: seq<Completion>, q: Queue, num: u32, i: nat)
    requires Run(cs, q, num) && CounterFits(|cs|, num) && |cs| > 1 && i < num && i != (|cs| - 1) % num
    ensures GoodCompletion(cs[|cs| - 2], q, num, |cs| - 2)
    ensures Slot(Final(cs, q, num), q, num, i) == Slot(After(cs[|cs| - 2], q, num, |cs| - 2), q, num, i)
  {
    var k := |cs| - 1;
    assert GoodCompletion(cs[k], q, num, k) && GoodCompletion(cs[k - 1], q, num, k - 1);
    assert SameBytes(After(cs[k - 1], q, num, k - 1), cs[k - 1 + 1].ram, q.used - RAM_BASE, 4 + 8 * num);
    CompletionOtherSlot(cs[k], q, num, k, i);
    SlotFrame(After(cs[k - 1], q, num, k - 1), cs[k].ram, q, num, i);
  }

  lemma DistinctSlots(j: nat, k: nat, num: nat)
    requires j < k < j + num
    ensures j % num != k % num
  {
    DivMod(j, num);
    DivMod(k, num);
    MulDistrib(k / num, j / num, num);
    MultipleApart(k / num - j / num, num);
  }

  /** When the queue size divides `2^16`, the slot before the used index is always the latest request's,
      also after the index has wrapped. */
  lemma LatestSlot(cs: seq<Completion>, q: Queue, num: u32)
    requires Run(cs, q, num) && |cs| > 0 && num > 0 && TWO16 % num == 0
    ensures RingInRam(q, num) && PreviousIdx(UsedIdx(Final(cs, q, num), q)) % num < num
    ensures Slot(Final(cs, q, num), q, num, PreviousIdx(UsedIdx(Final(cs, q, num), q)) % num)
            == cs[|cs| - 1].req.head % TWO32
  {
    var k := |cs|;
    PowersDivide(num);
    UsedRingHistory(cs, q, num, k - 1);
    PreviousOf(k);
    ModOfMod(k - 1, TWO16, num);
  }

  /** `idx - 1` in the driver's 16-bit arithmetic. */
  function PreviousIdx(idx: nat): nat { (idx + TWO16 - 1) % TWO16 }

  lemma PreviousOf(k: nat)
    requires k > 0
    ensures PreviousIdx(k % TWO16) == (k - 1) % TWO16
  {
  }

  lemma PowersDivide(num: nat)
    requires num > 0 && TWO16 % num == 0
    ensures TWO64 % num == 0
  {
    DivMod(TWO16, num);
    var c := TWO16 / num;
    MulAssoc(0x1_0000_0000_0000, c, num);
    DivModUnique(TWO64, num, 0x1_0000_0000_0000 * c, 0);
  }

  /** Reducing modulo a multiple of `d` first does not change the residue modulo `d`. */
  lemma ModOfMod(n: nat, m: nat, d: nat)
    requires d > 0 && m > 0 && m % d == 0
    ensures n % m % d == n % d
  {
    DivMod(n, m);
    DivMod(m, d);
    DivMod(n % m, d);
    var w, c, e := n / m, m / d, n % m / d;
    MulAssoc(w, c, d);
    MulDistrib(w * c, e, d);
    DivModUnique(n, d, w * c + e, n % m % d);
  }
}
