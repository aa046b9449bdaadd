/** Cpu::load and Cpu::store over live page tables: the descriptors a walk reads are themselves bytes of RAM
    that a store can change. */
module VirtualMemory {
  import opened Words
  import opened Util
  import opened Memory
  import opened Virtio
  import opened Bus
  import opened Mmu
  import opened Isa

  // ----- the descriptors of a walk -----

  /** The addresses of the descriptors that a walk from this level reads. */
  function WalkedFrom(level: nat, ram: Ram, addr: u64, base: u64): seq<u64>
    requires |ram| == RAM_SIZE && 1 <= level <= 3
    decreases 3 - level
  {
    var at := EntryAddr(base, addr, StartBit(level));
    match BusLoad(ram, at, DWord)
    case Stop(_) => []
    case Ok(entry) =>
      if entry % 2 == 1 && level < 3 && entry / 2 % 2 == 1 then
        [at] + WalkedFrom(level + 1, ram, addr, Bits(entry, 12, 47))
      else [at]
  }

  function WalkedFrom0(ram: Ram, addr: u64, base: u64): seq<u64>
    requires |ram| == RAM_SIZE
  {
    var at := EntryAddr(base, addr, L0_START);
    match BusLoad(ram, at, DWord)
    case Stop(_) => []
    case Ok(entry) => if entry % 2 == 1 then [at] + WalkedFrom(1, ram, addr, Bits(entry, 12, 27)) else [at]
  }

  /** The addresses of the descriptors that translating `addr` reads. */
  function Walked(ram: Ram, m: MmuRegs, addr: u64): seq<u64>
    requires |ram| == RAM_SIZE
  {
    if !m.Enabled() then []
    else match StartLevel(m, addr)
      case 0 => WalkedFrom0(ram, addr, m.Ttbr(addr))
      case 1 => WalkedFrom(1, ram, addr, m.Ttbr(addr))
      case 2 => WalkedFrom(2, ram, addr, m.Ttbr(addr))
      case 3 => WalkedFrom(3, ram, addr, m.Ttbr(addr))
      case _ => []
  }

  /** None of the descriptors overlaps the `n` bytes at `pa`. */
  ghost predicate Clear(walked: seq<u64>, pa: int, n: nat)
  {
    forall i :: 0 <= i < |walked| ==> walked[i] + 8 <= pa || pa + n <= walked[i]
  }

  /** The two memories hold the same descriptors. */
  ghost predicate SameDescriptors(a: Ram, b: Ram, walked: seq<u64>)
  {
    forall i :: 0 <= i < |walked| ==> SameBytes(a, b, walked[i] - RAM_BASE, 8)
  }

  lemma SameEntry(a: Ram, b: Ram, at: u64)
    requires |a| == |b| == RAM_SIZE && (BusLoad(a, at, DWord).Ok? ==> SameBytes(a, b, at - RAM_BASE, 8))
    ensures BusLoad(a, at, DWord) == BusLoad(b, at, DWord)
  {
    if BusLoad(a, at, DWord).Ok? { GetFrame(a, b, at - RAM_BASE, 8); }
  }

  /** A walk, and which descriptors it reads, depend only on those descriptors. */
  lemma {:induction false} WalkFrame(level: nat, a: Ram, b: Ram, addr: u64, base: u64)
    requires |a| == |b| == RAM_SIZE && 1 <= level <= 3 && SameDescriptors(a, b, WalkedFrom(level, a, addr, base))
    ensures Level(level, a, addr, base) == Level(level, b, addr, base)
    ensures WalkedFrom(level, b, addr, base) == WalkedFrom(level, a, addr, base)
    decreases 3 - level
  {
    var at := EntryAddr(base, addr, StartBit(level));
    var walked := WalkedFrom(level, a, addr, base);
    var entry := BusLoad(a, at, DWord);
    if entry.Ok? { assert walked[0] == at; }
    SameEntry(a, b, at);
    if entry.Ok? && entry.value % 2 == 1 && level < 3 && entry.value / 2 % 2 == 1 {
      var rest := WalkedFrom(level + 1, a, addr, Bits(entry.value, 12, 47));
      assert walked == [at] + rest;
      RestSame(a, b, at, rest);
      WalkFrame(level + 1, a, b, addr, Bits(entry.value, 12, 47));
    }
  }

  lemma RestSame(a: Ram, b: Ram, at: u64, rest: seq<u64>)
    requires SameDescriptors(a, b, [at] + rest)
    ensures SameDescriptors(a, b, rest)
  {
    forall i | 0 <= i < |rest| ensures SameBytes(a, b, rest[i] - RAM_BASE, 8) {
      assert ([at] + rest)[i + 1] == rest[i];
    }
  }

  lemma WalkFrame0(a: Ram, b: Ram, addr: u64, base: u64)
    requires |a| == |b| == RAM_SIZE && SameDescriptors(a, b, WalkedFrom0(a, addr, base))
    ensures L0(a, addr, base) == L0(b, addr, base) && WalkedFrom0(b, addr, base) == WalkedFrom0(a, addr, base)
  {
    var at := EntryAddr(base, addr, L0_START);
    var walked := WalkedFrom0(a, addr, base);
    var entry := BusLoad(a, at, DWord);
    if entry.Ok? { assert walked[0] == at; }
    SameEntry(a, b, at);
    if entry.Ok? && entry.value % 2 == 1 {
      RestSame(a, b, at, WalkedFrom(1, a, addr, Bits(entry.value, 12, 27)));
      WalkFrame(1, a, b, addr, Bits(entry.value, 12, 27));
    }
  }

  /** Translation depends only on the descriptors walked. */
  lemma TranslateFrame(a: Ram, b: Ram, m: MmuRegs, addr: u64)
    requires |a| == |b| == RAM_SIZE && SameDescriptors(a, b, Walked(a, m, addr))
    ensures Translate(a, m, addr) == Translate(b, m, addr) && Walked(b, m, addr) == Walked(a, m, addr)
  {
    if m.Enabled() {
      match StartLevel(m, addr)
      case 0 => WalkFrame0(a, b, addr, m.Ttbr(addr));
      case 1 => WalkFrame(1, a, b, addr, m.Ttbr(addr));
      case 2 => WalkFrame(2, a, b, addr, m.Ttbr(addr));
      case 3 => WalkFrame(3, a, b, addr, m.Ttbr(addr));
      case _ =>
    }
  }

  /** A store clear of the descriptors walked for an address leaves its translation alone. */
  lemma StoreKeepsTranslation(ram: Ram, m: MmuRegs, addr: u64, pa: u64, n: nat, v: u64)
    requires |ram| == RAM_SIZE && InHost(pa, n) && Clear(Walked(ram, m, addr), pa, n)
    ensures Translate(Put(ram, pa - RAM_BASE, n, v), m, addr) == Translate(ram, m, addr)
    ensures Walked(Put(ram, pa - RAM_BASE, n, v), m, addr) == Walked(ram, m, addr)
  {
    var b := Put(ram, pa - RAM_BASE, n, v);
    var walked := Walked(ram, m, addr);
    forall i | 0 <= i < |walked| ensures SameBytes(ram, b, walked[i] - RAM_BASE, 8) {
      assert walked[i] + 8 <= pa || pa + n <= walked[i];
    }
    TranslateFrame(ram, b, m, addr);
  }

  // ----- store, then load -----

  /** `va` translates to the bytes at `pa`, which are RAM. */
  ghost predicate MapsTo(s: State, va: u64, pa: u64, size: Size)
    requires s.Valid()
  {
    Translate(s.mem.ram, s.mmu, va) == Ok(pa) && InHost(pa, Span(size))
  }

  ghost predicate WalkClear(s: State, va: u64, pa: u64, size: Size)
    requires s.Valid()
  {
    Clear(Walked(s.mem.ram, s.mmu, va), pa, Bytes(size))
  }

  /** `va` translates to bytes of RAM that can be stored to; a load may need one more (see WordLoadsIff). */
  ghost predicate Writes(s: State, va: u64, pa: u64, size: Size)
    requires s.Valid()
  {
    Translate(s.mem.ram, s.mmu, va) == Ok(pa) && InHost(pa, Bytes(size))
  }

  /** `s` with `v` stored at the physical address `pa`. */
  function Written(s: State, pa: u64, v: u64, size: Size): (t: State)
    requires s.Valid() && InHost(pa, Bytes(size))
    ensures t.Valid()
  {
    s.(mem := s.mem.(ram := Put(s.mem.ram, pa - RAM_BASE, Bytes(size), v)))
  }

  lemma StoreWrites(s: State, va: u64, pa: u64, v: u64, size: Size)
    requires s.Valid() && Writes(s, va, pa, size)
    ensures Store(s, va, v, size) == Ok(Written(s, pa, v, size))
  {
    assert Select(pa) == Memory;
  }

  lemma LoadReads(s: State, va: u64, pa: u64, size: Size)
    requires s.Valid() && MapsTo(s, va, pa, size)
    ensures InHost(pa, Bytes(size)) && Load(s, va, size) == Ok(Fetched(s.mem.ram, pa - RAM_BASE, size))
  {
    assert Select(pa) == Memory;
  }

  /** Of the words that lie in RAM all can be stored, and all but the last can be loaded: a word load also reads
      the byte after it. */
  lemma WordLoadsIff(s: State, va: u64, pa: u64, v: u64)
    requires s.Valid() && Writes(s, va, pa, Word)
    ensures Store(s, va, v, Word).Ok?
    ensures Load(s, va, Word).Ok? <==> pa + 4 < RAM_BASE + RAM_SIZE
  {
    assert Select(pa) == Memory;
  }

  /** The low bytes of `v`, as many as the access has. */
  function Low(v: u64, size: Size): u64
  {
    DivMod(v, Pow2(8 * Bytes(size)));
    Pow2DivBound(v, 8 * Bytes(size));
    ModAtMost(v, Pow2(8 * Bytes(size)));
    v % Pow2(8 * Bytes(size))
  }

  lemma MapsAfter(s: State, va: u64, pa: u64, v: u64, size: Size, vb: u64, pb: u64, size': Size)
    requires s.Valid() && InHost(pa, Bytes(size)) && MapsTo(s, vb, pb, size') && WalkClear(s, vb, pa, size)
    ensures MapsTo(Written(s, pa, v, size), vb, pb, size')
  {
    StoreKeepsTranslation(s.mem.ram, s.mmu, vb, pa, Bytes(size), v);
  }

  /** What was stored through `va` is loaded through every alias `vb` of the same bytes, `va` included,
      provided the bytes written are not among the descriptors walked for `vb`. */
  lemma AliasesSeeStore(s: State, va: u64, pa: u64, v: u64, size: Size, vb: u64)
    requires s.Valid() && Writes(s, va, pa, size) && MapsTo(s, vb, pa, size) && WalkClear(s, vb, pa, size)
    ensures Store(s, va, v, size).Ok? && Load(Store(s, va, v, size).value, vb, size) == Ok(Low(v, size))
  {
    StoreWrites(s, va, pa, v, size);
    MapsAfter(s, va, pa, v, size, vb, pa, size);
    LoadReads(Written(s, pa, v, size), vb, pa, size);
    GetPut(s.mem.ram, pa - RAM_BASE, Bytes(size), v);
  }

  /** Loading back from the address stored to gives the value modulo the access width. */
  lemma LoadAfterStore(s: State, va: u64, pa: u64, v: u64, size: Size)
    requires s.Valid() && MapsTo(s, va, pa, size) && WalkClear(s, va, pa, size)
    ensures Store(s, va, v, size).Ok? && Load(Store(s, va, v, size).value, va, size) == Ok(Low(v, size))
  {
    AliasesSeeStore(s, va, pa, v, size, va);
  }

  /** The bytes `vb` stands for, if any, are not among the `n` bytes at `pa`. */
  ghost predicate Elsewhere(s: State, vb: u64, size': Size, pa: u64, n: nat)
    requires s.Valid()
  {
    match Translate(s.mem.ram, s.mmu, vb)
    case Stop(_) => true
    case Ok(pb) => pb + Bytes(size') <= pa || pa + n <= pb
  }

  /** Every address whose descriptors and target bytes are clear of the write loads what it loaded before,
      whether that is a value, a fault or a halt. */
  lemma OthersKeepValue(s: State, va: u64, pa: u64, v: u64, size: Size, vb: u64, size': Size)
    requires s.Valid() && Writes(s, va, pa, size)
    requires WalkClear(s, vb, pa, size) && Elsewhere(s, vb, size', pa, Bytes(size))
    ensures Store(s, va, v, size).Ok? && Load(Store(s, va, v, size).value, vb, size') == Load(s, vb, size')
  {
    StoreWrites(s, va, pa, v, size);
    StoreKeepsTranslation(s.mem.ram, s.mmu, vb, pa, Bytes(size), v);
    var tr := Translate(s.mem.ram, s.mmu, vb);
    if tr.Ok? && InHost(tr.value, Span(size')) {
      GetPutDisjoint(s.mem.ram, pa - RAM_BASE, Bytes(size), v, tr.value - RAM_BASE, Bytes(size'));
    }
  }

  /** The condition on descriptors is needed: if an address translates to the first descriptor of its own walk,
      storing an even number there makes the next load from it end the process. */
  lemma StoreIntoOwnDescriptor(s: State, va: u64, pa: u64, v: u64)
    requires s.Valid() && s.mmu.Enabled() && MapsTo(s, va, pa, DWord) && v % 2 == 0
    requires Walked(s.mem.ram, s.mmu, va) != [] && Walked(s.mem.ram, s.mmu, va)[0] == pa
    ensures Store(s, va, v, DWord).Ok? && Load(Store(s, va, v, DWord).value, va, DWord) == Stop(Exit(0))
  {
    StoreWrites(s, va, pa, v, DWord);
    GetPut64(s.mem.ram, pa - RAM_BASE, v);
    var t := Written(s, pa, v, DWord);
    assert Select(pa) == Memory;
    assert BusLoad(t.mem.ram, pa, DWord) == Ok(v);
    FirstDescriptor(s.mem.ram, t.mem.ram, s.mmu, va, pa, v);
  }

  lemma FirstDescriptor(a: Ram, b: Ram, m: MmuRegs, va: u64, at: u64, v: u64)
    requires |a| == |b| == RAM_SIZE && m.Enabled() && Walked(a, m, va) != [] && Walked(a, m, va)[0] == at
    requires BusLoad(b, at, DWord) == Ok(v) && v % 2 == 0
    ensures Translate(b, m, va) == Ok(FAULT)
  {
    var level, base := StartLevel(m, va), m.Ttbr(va);
    if level == 0 { FirstOf0(a, b, va, base, at, v); } else { FirstOf(level, a, b, va, base, at, v); }
  }

  lemma FirstOf(level: nat, a: Ram, b: Ram, va: u64, base: u64, at: u64, v: u64)
    requires |a| == |b| == RAM_SIZE && 1 <= level <= 3
    requires WalkedFrom(level, a, va, base) != [] && WalkedFrom(level, a, va, base)[0] == at
    requires BusLoad(b, at, DWord) == Ok(v) && v % 2 == 0
    ensures Level(level, b, va, base) == Ok(FAULT)
  {
  }

  lemma FirstOf0(a: Ram, b: Ram, va: u64, base: u64, at: u64, v: u64)
    requires |a| == |b| == RAM_SIZE && WalkedFrom0(a, va, base) != [] && WalkedFrom0(a, va, base)[0] == at
    requires BusLoad(b, at, DWord) == Ok(v) && v % 2 == 0
    ensures L0(b, va, base) == Ok(FAULT)
  {
  }
}
