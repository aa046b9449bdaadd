/** Runs of block requests: what each finds on disk, and what a run of them leaves behind. */
module RequestRuns {
  import opened Words
  import opened Util
  import opened Memory
  import opened Virtio
  import opened VirtioProperties

  // ----- the disk from one request to the next -----

  function DiskAfter(c: Completion): seq<u8>
    requires |c.ram| == RAM_SIZE && InHost(c.req.addr, c.req.len) && DiskStart(c.req) + c.req.len <= |c.disk|
  {
    ServedDisk(c.ram, c.disk, c.req)
  }

  /** Request `d` finds the disk as request `c`, number `n`, has left it. */
  ghost predicate Follows(c: Completion, d: Completion, q: Queue, num: u32, n: nat)
  {
    GoodCompletion(c, q, num, n) && d.disk == DiskAfter(c)
  }

  ghost predicate LinkedAt(cs: seq<Completion>, q: Queue, num: u32, n: nat)
  {
    0 < n < |cs| ==> Follows(cs[n - 1], cs[n], q, num, n - 1)
  }

  ghost predicate DiskLinked(cs: seq<Completion>, q: Queue, num: u32)
  {
    forall n: nat :: LinkedAt(cs, q, num, n)
  }

  /** The bytes of disk that `req` covers. */
  function OnDisk(disk: seq<u8>, req: Request): seq<u8>
    requires DiskStart(req) + req.len <= |disk|
  {
    disk[DiskStart(req)..DiskStart(req) + req.len]
  }

  /** Request `req` writes none of the disk's bytes that `wr` covers. */
  predicate Spares(req: Request, wr: Request)
  {
    req.toRam || DiskStart(req) + req.len <= DiskStart(wr) || DiskStart(wr) + wr.len <= DiskStart(req)
  }

  lemma WriteLands(c: Completion, q: Queue, num: u32, n: nat)
    requires GoodCompletion(c, q, num, n) && !c.req.toRam
    ensures DiskStart(c.req) + c.req.len <= |DiskAfter(c)|
    ensures OnDisk(DiskAfter(c), c.req) == Window(c.ram, c.req.addr, c.req.len)
  {
  }

  lemma SparedStays(c: Completion, q: Queue, num: u32, n: nat, wr: Request)
    requires GoodCompletion(c, q, num, n) && Spares(c.req, wr) && DiskStart(wr) + wr.len <= |c.disk|
    ensures |DiskAfter(c)| == |c.disk| && OnDisk(DiskAfter(c), wr) == OnDisk(c.disk, wr)
  {
  }

  /** What request `i` has written to disk is there when request `j` is served. */
  lemma {:induction false} SectorStays(cs: seq<Completion>, q: Queue, num: u32, i: nat, j: nat)
    requires DiskLinked(cs, q, num) && i < j < |cs| && !cs[i].req.toRam
    requires forall k :: i < k < j ==> Spares(cs[k].req, cs[i].req)
    ensures GoodCompletion(cs[i], q, num, i) && DiskStart(cs[i].req) + cs[i].req.len <= |cs[j].disk|
    ensures OnDisk(cs[j].disk, cs[i].req) == Window(cs[i].ram, cs[i].req.addr, cs[i].req.len)
    decreases j
  {
    assert LinkedAt(cs, q, num, j);
    if j - 1 == i {
      WriteLands(cs[i], q, num, i);
    } else {
      SectorStays(cs, q, num, i, j - 1);
      SparedStays(cs[j - 1], q, num, j - 1, cs[i].req);
    }
  }

  /** A request that reads back a sector written by an earlier one, with no write to those bytes in between, leaves
      in its buffer what the earlier one's buffer held. */
  lemma ReadsBack(cs: seq<Completion>, q: Queue, num: u32, i: nat, j: nat)
    requires Run(cs, q, num) && DiskLinked(cs, q, num) && i < j < |cs| && !cs[i].req.toRam && cs[j].req.toRam
    requires cs[j].req.sector == cs[i].req.sector && cs[j].req.len <= cs[i].req.len
    requires forall k :: i < k < j ==> Spares(cs[k].req, cs[i].req)
    requires forall a :: InBuffer(cs[j].req, a) ==> !Bookkeeping(q, num, U64(j), cs[j].req, a)
    ensures GoodCompletion(cs[i], q, num, i) && GoodCompletion(cs[j], q, num, j)
    ensures Window(After(cs[j], q, num, j), cs[j].req.addr, cs[j].req.len)
            == Window(cs[i].ram, cs[i].req.addr, cs[i].req.len)[..cs[j].req.len]
  {
    SectorStays(cs, q, num, i, j);
    GoodAt(cs, q, num, j);
    Received(cs[j], q, num, j);
    SamePrefix(cs[j].disk, cs[i].req, cs[j].req);
  }

  lemma GoodAt(cs: seq<Completion>, q: Queue, num: u32, n: nat)
    requires Run(cs, q, num) && n < |cs|
    ensures GoodCompletion(cs[n], q, num, n)
  {
  }

  lemma Received(c: Completion, q: Queue, num: u32, n: nat)
    requires GoodCompletion(c, q, num, n) && c.req.toRam
    requires forall a :: InBuffer(c.req, a) ==> !Bookkeeping(q, num, U64(n), c.req, a)
    ensures Window(After(c, q, num, n), c.req.addr, c.req.len) == OnDisk(c.disk, c.req)
  {
    BufferReceives(c.ram, c.disk, q, num, U64(n), c.req);
  }

  lemma SamePrefix(disk: seq<u8>, wr: Request, rd: Request)
    requires rd.sector == wr.sector && rd.len <= wr.len && DiskStart(wr) + wr.len <= |disk|
    ensures OnDisk(disk, rd) == OnDisk(disk, wr)[..rd.len]
  {
  }

  // ----- what a run leaves behind -----

  /** RAM and disk are as the completions `cs` have left them, up to what the driver may change in RAM. */
  ghost predicate Leaves(cs: seq<Completion>, q: Queue, num: u32, ram: Ram, disk: seq<u8>)
  {
    && RingInRam(q, num) && Run(cs, q, num) && DiskLinked(cs, q, num) && |ram| == RAM_SIZE
    && (cs != [] ==> LeavesBoth(cs[|cs| - 1], q, num, |cs| - 1, ram, disk))
  }

  ghost predicate LeavesBoth(c: Completion, q: Queue, num: u32, n: nat, ram: Ram, disk: seq<u8>)
  {
    && GoodCompletion(c, q, num, n) && disk == DiskAfter(c)
    && SameBytes(After(c, q, num, n), ram, q.used - RAM_BASE, 4 + 8 * num)
  }

  /** The driver changes RAM outside the used ring. */
  lemma DriverChanges(cs: seq<Completion>, q: Queue, num: u32, ram: Ram, ram': Ram, disk: seq<u8>)
    requires Leaves(cs, q, num, ram, disk) && SameBytes(ram, ram', q.used - RAM_BASE, 4 + 8 * num)
    ensures Leaves(cs, q, num, ram', disk)
  {
  }

  /** One more request is served. */
  lemma OneMore(cs: seq<Completion>, q: Queue, num: u32, c: Completion)
    requires Leaves(cs, q, num, c.ram, c.disk) && GoodCompletion(c, q, num, |cs|)
    ensures Leaves(cs + [c], q, num, After(c, q, num, |cs|), DiskAfter(c))
  {
    RunGrows(cs, q, num, c);
    LinksGrow(cs, q, num, c);
    assert (cs + [c])[|cs|] == c;
  }

  /** And then the driver has its turn. */
  lemma OneMoreRound(cs: seq<Completion>, q: Queue, num: u32, c: Completion, ram: Ram)
    requires Leaves(cs, q, num, c.ram, c.disk) && GoodCompletion(c, q, num, |cs|)
    requires SameBytes(After(c, q, num, |cs|), ram, q.used - RAM_BASE, 4 + 8 * num)
    ensures Leaves(cs + [c], q, num, ram, DiskAfter(c))
  {
    OneMore(cs, q, num, c);
    DriverChanges(cs + [c], q, num, After(c, q, num, |cs|), ram, DiskAfter(c));
  }

  lemma RunGrows(cs: seq<Completion>, q: Queue, num: u32, c: Completion)
    requires Leaves(cs, q, num, c.ram, c.disk) && GoodCompletion(c, q, num, |cs|)
    ensures Run(cs + [c], q, num)
  {
    var all := cs + [c];
    forall n | 0 <= n < |all| ensures GoodCompletion(all[n], q, num, n) {
      if n < |cs| { GoodAt(cs, q, num, n); }
    }
    forall n | 0 <= n < |all| - 1
      ensures SameBytes(After(all[n], q, num, n), all[n + 1].ram, q.used - RAM_BASE, 4 + 8 * num)
    {
      GapGrows(cs, q, num, c, n);
    }
  }

  lemma GapGrows(cs: seq<Completion>, q: Queue, num: u32, c: Completion, n: nat)
    requires Leaves(cs, q, num, c.ram, c.disk) && n < |cs|
    ensures GoodCompletion(cs[n], q, num, n)
    ensures SameBytes(After(cs[n], q, num, n), (cs + [c])[n + 1].ram, q.used - RAM_BASE, 4 + 8 * num)
  {
    GoodAt(cs, q, num, n);
  }

  lemma LinksGrow(cs: seq<Completion>, q: Queue, num: u32, c: Completion)
    requires Leaves(cs, q, num, c.ram, c.disk)
    ensures DiskLinked(cs + [c], q, num)
  {
    var all := cs + [c];
    forall n: nat ensures LinkedAt(all, q, num, n) {
      assert LinkedAt(cs, q, num, n);
    }
  }

  lemma SameIdx(a: Ram, b: Ram, q: Queue, num: u32)
    requires |a| == |b| == RAM_SIZE && RingInRam(q, num) && SameBytes(a, b, q.used - RAM_BASE, 4 + 8 * num)
    ensures UsedIdx(a, q) == UsedIdx(b, q)
  {
    GetFrame(a, b, q.used + 2 - RAM_BASE, 2);
  }

  /** The used ring that a run leaves behind. */
  lemma RingLeft(cs: seq<Completion>, q: Queue, num: u32, ram: Ram, disk: seq<u8>, j: nat)
    requires Leaves(cs, q, num, ram, disk) && CounterFits(|cs|, num) && |cs| - num <= j < |cs|
    ensures j % num < num && UsedIdx(ram, q) == |cs| % TWO16 && Slot(ram, q, num, j % num) == cs[j].req.head % TWO32
  {
    UsedRingHistory(cs, q, num, j);
    SameIdx(Final(cs, q, num), ram, q, num);
    SlotFrame(Final(cs, q, num), ram, q, num, j % num);
  }
}
