/** src/mmu.cc and src/include/mmu.h: translation with a 4KB granule. */
module Mmu {
  import opened Words
  import opened Util
  import opened Memory
  import opened Bus

  const L0_START: nat := 39
  const L1_START: nat := 30
  const L2_START: nat := 21
  const L3_START: nat := 12

  /** What a walk returns for an invalid descriptor. */
  const FAULT: u64 := 1

  datatype MmuRegs = MmuRegs(ttbr0: u64, ttbr1: u64, sctlr: u64, tcr: u64) {
    function Ipa(): nat { tcr / Pow2(32) % 8 }
    function T1sz(): nat { tcr / Pow2(16) % 0x40 }
    function T0sz(): nat { tcr % 0x40 }

    function MaxAddrSz(): nat
    {
      match Ipa()
      case 0 => 32 case 1 => 36 case 2 => 40 case 3 => 42 case 4 => 44 case 5 => 48 case 6 => 52 case _ => 0
    }

    predicate Enabled() { sctlr % 2 == 1 }

    /** The address size that selects the first level of the walk for `addr`. */
    function AddrSz(addr: u64): nat
    {
      var sz := if Bit(addr, 63) then 64 - T1sz() else 64 - T0sz();
      if sz <= MaxAddrSz() then sz else MaxAddrSz()
    }

    function Ttbr(addr: u64): u64 { if Bit(addr, 63) then ttbr1 else ttbr0 }
  }

  const TWO48: int := 0x1_0000_0000_0000

  /** The address bit at which a level's index starts. */
  function StartBit(level: nat): nat
    requires 1 <= level <= 3
  {
    match level case 1 => L1_START case 2 => L2_START case _ => L3_START
  }

  /** A descriptor in a table of this level maps a block of this size. */
  function LeafSize(level: nat): nat
    requires 1 <= level <= 3
  {
    match level case 1 => 0x4000_0000 case 2 => 0x20_0000 case _ => 0x1000
  }

  /** `addr mod LeafSize(level)`. */
  function LeafOffset(addr: u64, level: nat): nat
    requires 1 <= level <= 3
  {
    match level case 1 => addr % 0x4000_0000 case 2 => addr % 0x20_0000 case _ => addr % 0x1000
  }

  /** The address of the descriptor that `addr` selects in the table at `base`; a table has 512 of them. */
  function EntryAddr(base: u64, addr: u64, start: nat): u64
    requires start + 8 < 64
  {
    U64(base + Shift(addr, start, start + 8) * 8)
  }

  /** Bits `bottom` to `top` of a descriptor, in place. */
  function Bits(entry: u64, bottom: nat, top: nat): u64
    requires bottom <= top < 64
  {
    Lsl(Shift(entry, bottom, top), bottom)
  }

  function Output(base: u64, addr: u64, start: nat): u64
    requires 0 < start < 64
  {
    OrBound(base, Shift(addr, 0, start - 1));
    Or(base, Shift(addr, 0, start - 1))
  }

  /** `l1_translate`, `l2_translate` and `l3_translate`: the same walk step at three levels, except that a
      level-3 descriptor is a page whatever its bit 1 says. */
  function Level(level: nat, ram: Ram, addr: u64, base: u64): Try<u64>
    requires |ram| == RAM_SIZE && 1 <= level <= 3
    decreases 3 - level
  {
    match BusLoad(ram, EntryAddr(base, addr, StartBit(level)), DWord)
    case Stop(why) => Stop(why)
    case Ok(entry) =>
      if entry % 2 == 0 then Ok(FAULT)
      else if level < 3 && entry / 2 % 2 == 1 then Level(level + 1, ram, addr, Bits(entry, 12, 47))
      else Ok(Output(Bits(entry, StartBit(level), 47), addr, StartBit(level)))
  }

  /** A level-0 descriptor's next table comes from bits 27 to 12 only. */
  function L0(ram: Ram, addr: u64, base: u64): Try<u64>
    requires |ram| == RAM_SIZE
  {
    match BusLoad(ram, EntryAddr(base, addr, L0_START), DWord)
    case Stop(why) => Stop(why)
    case Ok(entry) =>
      if entry % 2 == 0 then Ok(FAULT)
      else Level(1, ram, addr, Bits(entry, 12, 27))
  }

  /** `mmu_translate`; an address size below 12 leaves the result uninitialised. */
  function Translate(ram: Ram, m: MmuRegs, addr: u64): Try<u64>
    requires |ram| == RAM_SIZE
  {
    if !m.Enabled() then Ok(addr)
    else if m.AddrSz(addr) >= L0_START then L0(ram, addr, m.Ttbr(addr))
    else if m.AddrSz(addr) >= L1_START then Level(1, ram, addr, m.Ttbr(addr))
    else if m.AddrSz(addr) >= L2_START then Level(2, ram, addr, m.Ttbr(addr))
    else if m.AddrSz(addr) >= L3_START then Level(3, ram, addr, m.Ttbr(addr))
    else Stop(Unmodelled)
  }

  // ----- the translation tables as arithmetic -----

  /** What a translation table makes of an address. */
  datatype Leaf =
    | Mapped(base: u64, level: nat)  // LeafSize(level) bytes from `base`
    | Invalid                        // a descriptor with bit 0 clear was met
    | Broken(why: Why)               // a descriptor lies outside RAM

  /** `addr` divided by the block size of this level. */
  function BlockOf(addr: u64, level: nat): nat
    requires 1 <= level <= 3
  {
    match level case 1 => addr / 0x4000_0000 case 2 => addr / 0x20_0000 case _ => addr / 0x1000
  }

  /** A table has 512 descriptors of eight bytes, one for each block of its level. */
  function DescriptorAt(table: u64, addr: u64, level: nat): u64
    requires 1 <= level <= 3
  {
    (table + 8 * (BlockOf(addr, level) % 512)) % TWO64
  }

  /** A table descriptor gives the 4KB page of the next table, below 2^48. */
  function NextTable(entry: u64): (table: u64)
    ensures table < TWO48
  {
    entry / 0x1000 % 0x10_0000_0000 * 0x1000
  }

  /** A block or page descriptor gives its base: the entry below 2^48, rounded down to the block size. */
  function LeafBase(entry: u64, level: nat): (base: u64)
    requires 1 <= level <= 3
    ensures base < TWO48 && base % LeafSize(level) == 0
  {
    match level
    case 1 => entry % TWO48 / 0x4000_0000 * 0x4000_0000
    case 2 => entry % TWO48 / 0x20_0000 * 0x20_0000
    case _ => entry % TWO48 / 0x1000 * 0x1000
  }

  /** The declarative map: which leaf covers `addr` in the tree rooted at `table`. */
  function LeafOf(ram: Ram, level: nat, table: u64, addr: u64): (leaf: Leaf)
    requires |ram| == RAM_SIZE && 1 <= level <= 3
    ensures leaf.Mapped? ==> 1 <= leaf.level <= 3 && leaf.base < TWO48 && leaf.base % LeafSize(leaf.level) == 0
    decreases 3 - level
  {
    match BusLoad(ram, DescriptorAt(table, addr, level), DWord)
    case Stop(why) => Broken(why)
    case Ok(entry) =>
      if entry % 2 == 0 then Invalid
      else if entry % 4 == 3 && level < 3 then LeafOf(ram, level + 1, NextTable(entry), addr)
      else Mapped(LeafBase(entry, level), level)
  }

  function Displaced(base: u64, addr: u64, level: nat): nat
    requires 1 <= level <= 3
  {
    base + LeafOffset(addr, level)
  }

  /** The result a leaf gives for an address. */
  function Through(leaf: Leaf, addr: u64): Try<int>
    requires leaf.Mapped? ==> 1 <= leaf.level <= 3
  {
    match leaf
    case Mapped(base, level) => Ok(Displaced(base, addr, level))
    case Invalid => Ok(FAULT)
    case Broken(why) => Stop(why)
  }

  /** The level at which the walk for `addr` starts. */
  function StartLevel(m: MmuRegs, addr: u64): nat
  {
    if m.AddrSz(addr) >= L0_START then 0 else if m.AddrSz(addr) >= L1_START then 1
    else if m.AddrSz(addr) >= L2_START then 2 else if m.AddrSz(addr) >= L3_START then 3 else 4
  }

  // ----- slicing -----

  /** `shift(v, bottom, top) << bottom` is `v mod 2^(top + 1)`, rounded down to a multiple of `2^bottom`. */
  lemma BitsAre(v: u64, bottom: nat, top: nat)
    requires bottom <= top < 64
    ensures Bits(v, bottom, top) == v % Pow2(top + 1) / Pow2(bottom) * Pow2(bottom) < Pow2(top + 1)
  {
    var h, p, q := Shift(v, bottom, top), Pow2(bottom), Pow2(top + 1 - bottom);
    ShiftIs(v, bottom, top);
    FieldTwoWays(v, bottom, top + 1 - bottom);
    DivMod(v / p, q);
    PackBound(h, 0, q, p);
    Pow2Add(top + 1 - bottom, bottom);
    FitsWord(h * p, top + 1);
    ShlIs(h, bottom);
  }

  /** Or-ing the low bits of `addr` into a base that is a multiple of the block size adds the offset. */
  lemma OutputIs(h: nat, base: u64, addr: u64, start: nat)
    requires 0 < start < 64 && base == h * Pow2(start)
    ensures Output(base, addr, start) == base + addr % Pow2(start)
  {
    ShiftIs(addr, 0, start - 1);
    assert addr / Pow2(0) == addr;
    DivMod(addr, Pow2(start));
    OrDisjoint(h, addr % Pow2(start), start);
  }

  lemma LeafSizeIs(level: nat)
    requires 1 <= level <= 3
    ensures Pow2(StartBit(level)) == LeafSize(level) && Pow2(48) == TWO48 && Pow2(9) == 512
  {
    Pow2Table();
  }

  lemma BlockIs(addr: u64, level: nat)
    requires 1 <= level <= 3
    ensures BlockOf(addr, level) == addr / LeafSize(level) && LeafOffset(addr, level) == addr % LeafSize(level)
  {
  }

  /** The index that the code slices out of the address selects the descriptor of the address's block. */
  lemma EntryAddrIs(base: u64, addr: u64, level: nat)
    requires 1 <= level <= 3
    ensures EntryAddr(base, addr, StartBit(level)) == DescriptorAt(base, addr, level)
  {
    var start := StartBit(level);
    assert Shift(addr, start, start + 8) == BlockOf(addr, level) % 512 by {
      ShiftIs(addr, start, start + 8);
      LeafSizeIs(level);
      BlockIs(addr, level);
    }
  }

  /** The slice of a table descriptor is the next table's address. */
  lemma NextTableIs(entry: u64)
    ensures Bits(entry, 12, 47) == NextTable(entry)
  {
    BitsAre(entry, 12, 47);
    FieldTwoWays(entry, 12, 36);
    assert Pow2(12) == 0x1000 && Pow2(36) == 0x10_0000_0000 by { Pow2Table(); Pow2Add(18, 18); }
  }

  /** The slice of a leaf descriptor is its base. */
  lemma LeafBaseIs(entry: u64, level: nat)
    requires 1 <= level <= 3
    ensures Bits(entry, StartBit(level), 47) == LeafBase(entry, level)
  {
    BitsAre(entry, StartBit(level), 47);
    LeafSizeIs(level);
  }

  /** And or-ing the low bits of the address into it adds the offset. */
  lemma LeafOutputIs(base: u64, addr: u64, level: nat)
    requires 1 <= level <= 3 && base % LeafSize(level) == 0
    ensures Output(base, addr, StartBit(level)) == Displaced(base, addr, level)
  {
    LeafSizeIs(level);
    BlockIs(addr, level);
    DivMod(base, LeafSize(level));
    OutputIs(base / LeafSize(level), base, addr, StartBit(level));
  }

  /** What the code returns at a leaf. */
  lemma LeafDescriptor(entry: u64, addr: u64, level: nat)
    requires 1 <= level <= 3
    ensures Output(Bits(entry, StartBit(level), 47), addr, StartBit(level))
            == Displaced(LeafBase(entry, level), addr, level)
  {
    LeafBaseIs(entry, level);
    LeafOutputIs(LeafBase(entry, level), addr, level);
  }

  lemma LeafBelow(base: u64, addr: u64, level: nat)
    requires 1 <= level <= 3 && base < TWO48 && base % LeafSize(level) == 0
    ensures Displaced(base, addr, level) < TWO48
  {
  }

  // ----- the walk computes it -----

  /** The nested level functions, which slice and or bits, compute the declarative map. */
  lemma {:induction false} WalkIsLeaf(level: nat, ram: Ram, base: u64, addr: u64)
    requires |ram| == RAM_SIZE && 1 <= level <= 3
    ensures Level(level, ram, addr, base) == Through(LeafOf(ram, level, base, addr), addr)
    decreases 3 - level
  {
    EntryAddrIs(base, addr, level);
    var entry := BusLoad(ram, DescriptorAt(base, addr, level), DWord);
    if entry.Ok? {
      OneDescriptor(level, ram, base, addr, entry.value);
      if level < 3 { WalkIsLeaf(level + 1, ram, NextTable(entry.value), addr); }
    }
  }

  /** What the walk does with a descriptor. */
  lemma OneDescriptor(level: nat, ram: Ram, base: u64, addr: u64, entry: u64)
    requires |ram| == RAM_SIZE && 1 <= level <= 3 && BusLoad(ram, DescriptorAt(base, addr, level), DWord) == Ok(entry)
    ensures Level(level, ram, addr, base) ==
              if entry % 2 == 0 then Ok(FAULT)
              else if entry % 4 == 3 && level < 3 then Level(level + 1, ram, addr, NextTable(entry))
              else Ok(Displaced(LeafBase(entry, level), addr, level))
  {
    EntryAddrIs(base, addr, level);
    LowBits(entry);
    LeafDescriptor(entry, addr, level);
    NextTableIs(entry);
  }

  lemma LowBits(entry: u64)
    ensures entry % 4 == 3 <==> entry % 2 == 1 && entry / 2 % 2 == 1
  {
  }

  /** The main statement, for walks that start at level 1, 2 or 3: the translation is what the tables say, a
      leaf's aligned base plus the offset in the leaf, below 2^48, or the fault value. */
  lemma TranslationIsLeaf(ram: Ram, m: MmuRegs, addr: u64)
    requires |ram| == RAM_SIZE && m.Enabled() && 1 <= StartLevel(m, addr) <= 3
    ensures
      var leaf := LeafOf(ram, StartLevel(m, addr), m.Ttbr(addr), addr);
      && Translate(ram, m, addr) == Through(leaf, addr)
      && (leaf.Mapped? ==> leaf.base % LeafSize(leaf.level) == 0 && Displaced(leaf.base, addr, leaf.level) < TWO48)
  {
    WalkIsLeaf(StartLevel(m, addr), ram, m.Ttbr(addr), addr);
    var leaf := LeafOf(ram, StartLevel(m, addr), m.Ttbr(addr), addr);
    if leaf.Mapped? { LeafBelow(leaf.base, addr, leaf.level); }
  }

  // ----- the architecture's third level -----

  /** What the architecture makes of a level-3 descriptor: a page if both low bits are set, a fault otherwise. */
  function ArmPage(ram: Ram, table: u64, addr: u64): Leaf
    requires |ram| == RAM_SIZE
  {
    match BusLoad(ram, DescriptorAt(table, addr, 3), DWord)
    case Stop(why) => Broken(why)
    case Ok(entry) => if entry % 4 == 3 then Mapped(LeafBase(entry, 3), 3) else Invalid
  }

  /** The code ignores bit 1 of a level-3 descriptor, and so agrees with the architecture exactly when bit 0 is
      clear or bit 1 is set. */
  lemma Level3AgreesIff(ram: Ram, table: u64, addr: u64, entry: u64)
    requires |ram| == RAM_SIZE && BusLoad(ram, DescriptorAt(table, addr, 3), DWord) == Ok(entry)
    ensures LeafOf(ram, 3, table, addr) == ArmPage(ram, table, addr) <==> entry % 2 == 0 || entry / 2 % 2 == 1
  {
    LowBits(entry);
  }

  // ----- addresses of one page -----

  /** Two addresses in the same 4KB page have the same leaf. */
  lemma {:induction false} SamePageSameLeaf(level: nat, ram: Ram, table: u64, a: u64, b: u64)
    requires |ram| == RAM_SIZE && 1 <= level <= 3 && a / 0x1000 == b / 0x1000
    ensures LeafOf(ram, level, table, a) == LeafOf(ram, level, table, b)
    decreases 3 - level
  {
    SamePageSameBlock(level, a, b);
    var entry := BusLoad(ram, DescriptorAt(table, a, level), DWord);
    if entry.Ok? && level < 3 { SamePageSameLeaf(level + 1, ram, NextTable(entry.value), a, b); }
  }

  lemma SamePageSameBlock(level: nat, a: u64, b: u64)
    requires 1 <= level <= 3 && a / 0x1000 == b / 0x1000
    ensures BlockOf(a, level) == BlockOf(b, level)
    ensures LeafOffset(a, level) - LeafOffset(b, level) == a - b
  {
    match level
    case 1 => assert a / 0x4000_0000 == a / 0x1000 / 0x4_0000 && b / 0x4000_0000 == b / 0x1000 / 0x4_0000;
    case 2 => assert a / 0x20_0000 == a / 0x1000 / 0x200 && b / 0x20_0000 == b / 0x1000 / 0x200;
    case _ =>
  }

  /** Addresses of one page start at the same level and have the same leaf: both translations stop for the same
      reason, both fault, or both are displaced from one base, so a translation cache keyed by page number
      always agrees with the walk. */
  lemma SamePageTranslatesAlike(ram: Ram, m: MmuRegs, a: u64, b: u64)
    requires |ram| == RAM_SIZE && m.Enabled() && 1 <= StartLevel(m, a) <= 3 && a / 0x1000 == b / 0x1000
    ensures StartLevel(m, b) == StartLevel(m, a)
    ensures
      var leaf := LeafOf(ram, StartLevel(m, a), m.Ttbr(a), a);
      && leaf == LeafOf(ram, StartLevel(m, b), m.Ttbr(b), b)
      && Translate(ram, m, a) == Through(leaf, a) && Translate(ram, m, b) == Through(leaf, b)
      && (leaf.Mapped? ==> Displaced(leaf.base, b, leaf.level) - Displaced(leaf.base, a, leaf.level) == b - a)
  {
    SamePageSameHalf(a, b);
    var level, base := StartLevel(m, a), m.Ttbr(a);
    SamePageSameLeaf(level, ram, base, a, b);
    TranslationIsLeaf(ram, m, a);
    TranslationIsLeaf(ram, m, b);
    var leaf := LeafOf(ram, level, base, a);
    if leaf.Mapped? { SamePageSameBlock(leaf.level, a, b); }
  }

  lemma SamePageSameHalf(a: u64, b: u64)
    requires a / 0x1000 == b / 0x1000
    ensures Bit(a, 63) == Bit(b, 63)
  {
    TopBitSet(a, 63) by { Pow2Words(); }
    TopBitSet(b, 63) by { Pow2Words(); }
    assert Pow2(63) == TWO63 by { Pow2Words(); }
  }

  // ----- walks from level 0 -----

  /** The next table of a level-0 descriptor: only its bits 27 to 12. */
  function Level0Table(entry: u64): (table: u64)
    ensures table < 0x1000_0000
  {
    entry / 0x1000 % 0x1_0000 * 0x1000
  }

  lemma Level0TableIs(entry: u64)
    ensures Bits(entry, 12, 27) == Level0Table(entry)
  {
    BitsAre(entry, 12, 27);
    FieldTwoWays(entry, 12, 16);
    assert Pow2(12) == 0x1000 && Pow2(16) == 0x1_0000 by { Pow2Table(); }
  }

  predicate IsDevice(addr: u64) { Select(addr) in {Gic, Uart, VirtioRegs} }

  /** The descriptor that comes after a level-0 one lies below RAM: on a device register, or nowhere. */
  lemma BelowRam(table: u64, addr: u64)
    requires table < 0x1000_0000
    ensures DescriptorAt(table, addr, 1) < RAM_BASE
  {
  }

  /** A walk from level 0 with a valid descriptor never finds its next table in RAM.  It ends the process, unless
      the place lies on device registers, whose values this model does not describe. */
  lemma Level0Walk(ram: Ram, m: MmuRegs, addr: u64, entry: u64)
    requires |ram| == RAM_SIZE && m.Enabled() && StartLevel(m, addr) == 0
    requires BusLoad(ram, EntryAddr(m.Ttbr(addr), addr, L0_START), DWord) == Ok(entry)
    ensures entry % 2 == 0 ==> Translate(ram, m, addr) == Ok(FAULT)
    ensures
      var onDevice := IsDevice(DescriptorAt(Level0Table(entry), addr, 1));
      entry % 2 == 1 ==> Translate(ram, m, addr) == Stop(if onDevice then DeviceAccess else Exit(0))
  {
    Level0TableIs(entry);
    EntryAddrIs(Level0Table(entry), addr, 1);
    BelowRam(Level0Table(entry), addr);
  }

  /** The walk when `read` answers the bus's 64-bit loads, those from device registers included. */
  function WalkOn(read: u64 -> Try<u64>, level: nat, addr: u64, base: u64): Try<u64>
    requires 1 <= level <= 3
    decreases 3 - level
  {
    match read(EntryAddr(base, addr, StartBit(level)))
    case Stop(why) => Stop(why)
    case Ok(entry) =>
      if entry % 2 == 0 then Ok(FAULT)
      else if level < 3 && entry / 2 % 2 == 1 then WalkOn(read, level + 1, addr, Bits(entry, 12, 47))
      else Ok(Output(Bits(entry, StartBit(level), 47), addr, StartBit(level)))
  }

  /** With the loads of this model it is the walk of this model. */
  lemma {:induction false} WalkOnRam(read: u64 -> Try<u64>, ram: Ram, level: nat, addr: u64, base: u64)
    requires |ram| == RAM_SIZE && 1 <= level <= 3 && forall a :: read(a) == BusLoad(ram, a, DWord)
    ensures WalkOn(read, level, addr, base) == Level(level, ram, addr, base)
    decreases 3 - level
  {
    var entry := read(EntryAddr(base, addr, StartBit(level)));
    if entry.Ok? && level < 3 { WalkOnRam(read, ram, level + 1, addr, Bits(entry.value, 12, 47)); }
  }

  /** A block descriptor ends the walk. */
  lemma BlockOn(read: u64 -> Try<u64>, level: nat, addr: u64, table: u64, entry: u64, output: nat)
    requires 1 <= level <= 3 && read(DescriptorAt(table, addr, level)) == Ok(entry) && entry % 4 == 1
    requires output == Displaced(LeafBase(entry, level), addr, level)
    ensures WalkOn(read, level, addr, table) == Ok(output)
  {
    EntryAddrIs(table, addr, level);
    BlockBits(entry);
    LeafDescriptor(entry, addr, level);
    LastOf(read, level, addr, table, EntryAddr(table, addr, StartBit(level)), entry);
  }

  lemma BlockBits(entry: u64)
    requires entry % 4 == 1
    ensures entry % 2 == 1 && entry / 2 % 2 == 0
  {
  }

  lemma LastOf(read: u64 -> Try<u64>, level: nat, addr: u64, table: u64, at: u64, entry: u64)
    requires 1 <= level <= 3 && at == EntryAddr(table, addr, StartBit(level)) && read(at) == Ok(entry)
    requires entry % 2 == 1 && entry / 2 % 2 == 0
    ensures WalkOn(read, level, addr, table) == Ok(Output(Bits(entry, StartBit(level), 47), addr, StartBit(level)))
  {
  }

  /** What a device register can do to such a walk: a level-0 descriptor whose next table is the serial port's page
      maps the second gigabyte of its range onto the first of the physical addresses, as soon as the register at
      offset 8 of that page reads as 1. */
  lemma Level0ThroughRegister(read: u64 -> Try<u64>, addr: u64, entry: u64, table: u64)
    requires entry % 0x1000_0000 == 0x900_0003 && table == Bits(entry, 12, 27)
    requires addr / 0x4000_0000 % 512 == 1 && read(0x900_0008) == Ok(1)
    ensures IsDevice(DescriptorAt(table, addr, 1)) && WalkOn(read, 1, addr, table) == Ok(addr % 0x4000_0000)
  {
    Level0TableIs(entry);
    SerialPage(entry);
    SerialRegister(addr, table);
    BlockOn(read, 1, addr, table, 1, addr % 0x4000_0000);
  }

  lemma SerialRegister(addr: u64, table: u64)
    requires table == 0x900_0000 && addr / 0x4000_0000 % 512 == 1
    ensures DescriptorAt(table, addr, 1) == 0x900_0008 && IsDevice(0x900_0008)
  {
  }

  lemma SerialPage(entry: u64)
    requires entry % 0x1000_0000 == 0x900_0003
    ensures Level0Table(entry) == 0x900_0000
  {
    var h := entry / 0x1000_0000;
    DivModUnique(entry, 0x1000, 0x1_0000 * h + 0x9000, 3);
    DivModUnique(0x1_0000 * h + 0x9000, 0x1_0000, h, 0x9000);
  }

  // ----- translation from the registers -----

  /** The table that an address is looked up in: TTBR0 for the low half, TTBR1 for the high half. */
  function Root(m: MmuRegs, addr: u64): u64 { if addr < 0x8000_0000_0000_0000 then m.ttbr0 else m.ttbr1 }

  /** The size of the addresses of that half: 64 less T0SZ or T1SZ, at most what the IPS field allows. */
  function AddressSize(tcr: u64, addr: u64): nat
  {
    var unused := if addr < 0x8000_0000_0000_0000 then tcr % 64 else tcr / 0x1_0000 % 64;
    var most := [32, 36, 40, 42, 44, 48, 52, 0][tcr / 0x1_0000_0000 % 8];
    if 64 - unused <= most then 64 - unused else most
  }

  /** What a leaf makes of an address. */
  function Reached(leaf: Leaf, addr: u64): Try<int>
  {
    match leaf
    case Mapped(base, level) =>
      Ok(base + addr % if level == 1 then 0x4000_0000 else if level == 2 then 0x20_0000 else 0x1000)
    case Invalid => Ok(1)
    case Broken(why) => Stop(why)
  }

  /** A walk from level 0, as far as this model describes it. */
  function FromLevel0(ram: Ram, root: u64, addr: u64): Try<int>
    requires |ram| == RAM_SIZE
  {
    match BusLoad(ram, (root + 8 * (addr / 0x80_0000_0000 % 512)) % TWO64, DWord)
    case Stop(why) => Stop(why)
    case Ok(entry) =>
      if entry % 2 == 0 then Ok(1)
      else
        var table := entry / 0x1000 % 0x1_0000 * 0x1000;
        Stop(if IsDevice(table + 8 * (addr / 0x4000_0000 % 512)) then DeviceAccess else Exit(0))
  }

  /** Translation in terms of the register values: off with bit 0 of SCTLR; otherwise a walk of the tree at the root
      of the address's half, from the level that the address size selects. */
  lemma TranslateByRegisters(ram: Ram, m: MmuRegs, addr: u64)
    requires |ram| == RAM_SIZE
    ensures Translate(ram, m, addr) ==
              if m.sctlr % 2 == 0 then Ok(addr)
              else
                var n, root := AddressSize(m.tcr, addr), Root(m, addr);
                if n >= 39 then FromLevel0(ram, root, addr)
                else if n >= 30 then Reached(LeafOf(ram, 1, root, addr), addr)
                else if n >= 21 then Reached(LeafOf(ram, 2, root, addr), addr)
                else if n >= 12 then Reached(LeafOf(ram, 3, root, addr), addr)
                else Stop(Unmodelled)
  {
    RegistersAre(m, addr);
    var level, root := StartLevel(m, addr), Root(m, addr);
    if m.Enabled() && level == 0 {
      Level0Is(ram, m, addr);
    } else if m.Enabled() && level <= 3 {
      TranslationIsLeaf(ram, m, addr);
      ReachedIs(LeafOf(ram, level, root, addr), addr);
    }
  }

  lemma RegistersAre(m: MmuRegs, addr: u64)
    ensures m.Ttbr(addr) == Root(m, addr) && m.AddrSz(addr) == AddressSize(m.tcr, addr)
  {
    assert Pow2(16) == 0x1_0000 && Pow2(32) == 0x1_0000_0000 by { Pow2Table(); Pow2Words(); }
    assert Pow2(63) == 0x8000_0000_0000_0000 && Pow2(64) == TWO64 by { Pow2Words(); }
    TopBitSet(addr, 63);
  }

  lemma ReachedIs(leaf: Leaf, addr: u64)
    requires leaf.Mapped? ==> 1 <= leaf.level <= 3
    ensures Through(leaf, addr) == Reached(leaf, addr)
  {
  }

  lemma Level0Is(ram: Ram, m: MmuRegs, addr: u64)
    requires |ram| == RAM_SIZE && m.Enabled() && StartLevel(m, addr) == 0
    ensures Translate(ram, m, addr) == FromLevel0(ram, Root(m, addr), addr)
  {
    RegistersAre(m, addr);
    RootIs(ram, Root(m, addr), addr);
  }

  lemma RootIs(ram: Ram, root: u64, addr: u64)
    requires |ram| == RAM_SIZE
    ensures L0(ram, addr, root) == FromLevel0(ram, root, addr)
  {
    RootEntry(root, addr);
    var entry := BusLoad(ram, EntryAddr(root, addr, L0_START), DWord);
    if entry.Ok? { FromTable(ram, addr, entry.value); }
  }

  lemma FromTable(ram: Ram, addr: u64, entry: u64)
    requires |ram| == RAM_SIZE
    ensures
      var at := entry / 0x1000 % 0x1_0000 * 0x1000 + 8 * (addr / 0x4000_0000 % 512);
      at < TWO64 && Level(1, ram, addr, Bits(entry, 12, 27)) == Stop(if IsDevice(at) then DeviceAccess else Exit(0))
  {
    Level0TableIs(entry);
    EntryAddrIs(Level0Table(entry), addr, 1);
    BelowRam(Level0Table(entry), addr);
    NoWrapBelow(Level0Table(entry), addr);
  }

  lemma RootEntry(root: u64, addr: u64)
    ensures EntryAddr(root, addr, L0_START) == (root + 8 * (addr / 0x80_0000_0000 % 512)) % TWO64
  {
    ShiftIs(addr, 39, 47);
    assert Pow2(39) == 0x80_0000_0000 && Pow2(9) == 512 by { Pow2Table(); Pow2Add(20, 19); }
  }

  lemma NoWrapBelow(table: u64, addr: u64)
    requires table < 0x1000_0000
    ensures DescriptorAt(table, addr, 1) == table + 8 * (addr / 0x4000_0000 % 512)
  {
  }

  /** Translation leaves every address alone exactly when bit 0 of SCTLR is clear. */
  lemma IdentityIff(ram: Ram, m: MmuRegs)
    requires |ram| == RAM_SIZE
    ensures (forall addr: u64 :: Translate(ram, m, addr) == Ok(addr)) <==> m.sctlr % 2 == 0
  {
    var top: u64 := 0x8000_0000_0000_0000;
    forall addr: u64 | m.sctlr % 2 == 0 ensures Translate(ram, m, addr) == Ok(addr) {
      TranslateByRegisters(ram, m, addr);
    }
    if m.sctlr % 2 == 1 { NotItself(ram, m, top); }
  }

  /** An address from 2^48 on is never the result. */
  lemma NotItself(ram: Ram, m: MmuRegs, addr: u64)
    requires |ram| == RAM_SIZE && m.Enabled() && addr >= TWO48
    ensures Translate(ram, m, addr) != Ok(addr)
  {
    var level := StartLevel(m, addr);
    if level == 0 { Level0Is(ram, m, addr); } else if level <= 3 { TranslationIsLeaf(ram, m, addr); }
  }
}
