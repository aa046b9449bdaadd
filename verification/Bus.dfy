/** src/bus.cc: address decoding, and width dispatch to RAM. */
module Bus {
  import opened Words
  import opened Util
  import opened Memory
  import opened Virtio

  const GIC_BASE: int := 0x0800_0000
  const GIC_SIZE: int := 0x100_0000
  const UART_BASE: int := 0x0900_0000
  const UART_SIZE: int := 0x1000
  const VIRTIO_BASE: int := 0x0a00_0000
  const VIRTIO_SIZE: int := 0x200

  /** The RAM window the bus decodes; only its first `RAM_SIZE` bytes are backed by the buffer. */
  const WINDOW_SIZE: int := 0x4000_0000

  datatype Target = Gic | Uart | VirtioRegs | Memory | Nothing

  function Select(addr: u64): Target
  {
    if GIC_BASE <= addr < GIC_BASE + GIC_SIZE then Gic
    else if UART_BASE <= addr <= UART_BASE + UART_SIZE then Uart
    else if VIRTIO_BASE <= addr <= VIRTIO_BASE + VIRTIO_SIZE then VirtioRegs
    else if RAM_BASE <= addr <= RAM_BASE + WINDOW_SIZE then Memory
    else Nothing
  }

  /** The bytes a load reads: a 32-bit load also reads the byte after its operand. */
  function Span(size: Size): nat { if size == Word then 5 else Bytes(size) }

  function BusLoad(ram: Ram, addr: u64, size: Size): Try<u64>
    requires |ram| == RAM_SIZE
  {
    match Select(addr)
    case Nothing => Stop(Exit(0))
    case Memory =>
      if InHost(addr, Span(size)) then Ok(Fetched(ram, addr - RAM_BASE, size))
      else Stop(HostFault)
    case _ => Stop(DeviceAccess)
  }

  function Fetched(ram: Ram, off: nat, size: Size): (v: u64)
    requires off + Bytes(size) <= |ram|
    ensures v == Get(ram, off, Bytes(size)) < Pow2(8 * Bytes(size))
  {
    GetBound(ram, off, Bytes(size));
    Pow2Mono(8 * Bytes(size), 64);
    Pow2Words();
    Get(ram, off, Bytes(size))
  }

  datatype Storage = Storage(ram: Ram, vio: Regs)

  function BusStore(s: Storage, addr: u64, value: u64, size: Size): (r: Try<Storage>)
    requires |s.ram| == RAM_SIZE
    ensures r.Ok? ==> |r.value.ram| == RAM_SIZE
  {
    match Select(addr)
    case Nothing => Stop(Exit(0))
    case Memory =>
      if InHost(addr, Bytes(size)) then Ok(s.(ram := Put(s.ram, addr - RAM_BASE, Bytes(size), value)))
      else Stop(HostFault)
    case VirtioRegs =>
      (match StoreReg(s.vio, addr, value)
       case Stop(why) => Stop(why)
       case Ok(regs) => Ok(s.(vio := regs)))
    case _ => Stop(DeviceAccess)
  }

  /** The address windows of the devices, where the serial port and the block device answer one address past
      their end. */
  predicate DeviceWindow(addr: u64)
  {
    0x0800_0000 <= addr <= 0x0900_1000 || 0x0a00_0000 <= addr <= 0x0a00_0200
  }

  /** What a load does by its address: RAM answers with its bytes, lowest first; past the end of RAM, up to the end
      of its window, the host faults; an address of nothing ends the process. */
  lemma LoadByAddress(ram: Ram, addr: u64, size: Size)
    requires |ram| == RAM_SIZE
    ensures |ram| == 0x800_0000
    ensures
      var n := if size == Word then 5 else Bytes(size);
      BusLoad(ram, addr, size) ==
        if DeviceWindow(addr) then Stop(DeviceAccess)
        else if !(0x4000_0000 <= addr <= 0x8000_0000) then Stop(Exit(0))
        else if addr + n > 0x4800_0000 then Stop(HostFault)
        else Ok(Get(ram, addr - 0x4000_0000, Bytes(size)))
  {
  }

  /** And a store: RAM takes the low bytes, the block device a register. */
  lemma StoreByAddress(s: Storage, addr: u64, value: u64, size: Size)
    requires |s.ram| == RAM_SIZE
    ensures
      BusStore(s, addr, value, size) ==
        if 0x0a00_0000 <= addr <= 0x0a00_0200 then OnDevice(s, StoreReg(s.vio, addr, value))
        else if DeviceWindow(addr) then Stop(DeviceAccess)
        else if !(0x4000_0000 <= addr <= 0x8000_0000) then Stop(Exit(0))
        else if addr + Bytes(size) > 0x4800_0000 then Stop(HostFault)
        else Ok(s.(ram := Put(s.ram, addr - 0x4000_0000, Bytes(size), value)))
  {
  }

  function OnDevice(s: Storage, r: Try<Regs>): Try<Storage>
  {
    match r
    case Stop(why) => Stop(why)
    case Ok(vio) => Ok(s.(vio := vio))
  }

  class SystemBus {
    const mem: Mem
    const virtio: Device

    constructor (mem: Mem, virtio: Device)
      ensures this.mem == mem && this.virtio == virtio
    {
      this.mem := mem;
      this.virtio := virtio;
    }

    ghost predicate Valid()
    {
      mem.data.Length == RAM_SIZE && virtio.disk != mem.data
    }

    ghost function Contents(): Storage
      reads mem.data, virtio
    {
      Storage(mem.data[..], virtio.Registers())
    }

    method Load(addr: u64, size: Size) returns (r: Try<u64>)
      requires Valid()
      ensures r == BusLoad(mem.data[..], addr, size)
    {
      if GIC_BASE <= addr < GIC_BASE + GIC_SIZE {
        r := Stop(DeviceAccess);
      } else if UART_BASE <= addr <= UART_BASE + UART_SIZE {
        r := Stop(DeviceAccess);
      } else if VIRTIO_BASE <= addr <= VIRTIO_BASE + VIRTIO_SIZE {
        r := Stop(DeviceAccess);
      } else if RAM_BASE <= addr <= RAM_BASE + WINDOW_SIZE {
        if !InHost(addr, Span(size)) { return Stop(HostFault); }
        var v: u64;
        match size {
          case Byte => v := mem.Load8(addr);
          case Hex => v := mem.Load16(addr);
          case Word => v := mem.Load32(addr);
          case DWord => v := mem.Load64(addr);
        }
        r := Ok(v);
      } else {
        r := Stop(Exit(0));
      }
    }

    method Store(addr: u64, value: u64, size: Size) returns (r: Try<()>)
      requires Valid()
      modifies mem.data, virtio
      ensures Valid()
      ensures r.Ok? ==> BusStore(old(Contents()), addr, value, size) == Ok(Contents())
      ensures r.Stop? ==> BusStore(old(Contents()), addr, value, size) == Stop(r.why)
    {
      if GIC_BASE <= addr < GIC_BASE + GIC_SIZE {
        r := Stop(DeviceAccess);
      } else if UART_BASE <= addr <= UART_BASE + UART_SIZE {
        r := Stop(DeviceAccess);
      } else if VIRTIO_BASE <= addr <= VIRTIO_BASE + VIRTIO_SIZE {
        r := virtio.Store(addr, value);
      } else if RAM_BASE <= addr <= RAM_BASE + WINDOW_SIZE {
        if !InHost(addr, Bytes(size)) { return Stop(HostFault); }
        match size {
          case Byte => mem.Store8(addr, value);
          case Hex => mem.Store16(addr, value);
          case Word => mem.Store32(addr, value);
          case DWord => mem.Store64(addr, value);
        }
        r := Ok(());
      } else {
        r := Stop(Exit(0));
      }
    }
  }
}
