/** src/mem.cc: guest RAM as a byte buffer with little-endian accesses. */
module Memory {
  import opened Words
  import opened Util

  /** Why an instruction, a bus access or a whole run did not complete. */
  datatype Why =
    | Exit(code: int)   // the emulator process calls exit
    | HostFault         // outside the host mapping that backs guest RAM
    | DeviceAccess      // a device register this model does not describe
    | Unmodelled        // an instruction class this model does not describe
    | NoInstruction     // a zero word was fetched: the main loop breaks

  datatype Try<+T> = Ok(value: T) | Stop(why: Why) {
    predicate IsFailure() { Stop? }
    function PropagateFailure<U>(): Try<U> requires Stop? { Stop(why) }
    function Extract(): T requires Ok? { value }
  }

  type Ram = seq<u8>

  /** The guest physical address that the first byte of the buffer stands for. */
  const RAM_BASE: int := 0x4000_0000

  /** The size of the buffer the loader maps, in bytes. */
  const RAM_SIZE: int := 0x800_0000

  // ----- little-endian reads and writes -----

  /** The number stored in the `n` bytes from `off`, lowest byte first. */
  function Get(ram: Ram, off: nat, n: nat): nat
    requires off + n <= |ram|
    decreases n, off
  {
    if n == 0 then 0 else ram[off] + 0x100 * Get(ram, off + 1, n - 1)
  }

  /** `ram` after storing the low `n` bytes of `v` from `off`, lowest byte first. */
  function Put(ram: Ram, off: nat, n: nat, v: nat): (r: Ram)
    requires off + n <= |ram|
    ensures |r| == |ram|
    ensures forall j :: 0 <= j < |ram| && !(off <= j < off + n) ==> r[j] == ram[j]
    decreases n, off
  {
    if n == 0 then ram else Put(ram[off := v % 0x100], off + 1, n - 1, v / 0x100)
  }

  lemma {:induction false} GetBound(ram: Ram, off: nat, n: nat)
    requires off + n <= |ram|
    ensures Get(ram, off, n) < Pow2(8 * n)
    decreases n
  {
    if n == 0 {
    } else {
      GetBound(ram, off + 1, n - 1);
      ByteStep(n);
    }
  }

  lemma ByteStep(n: nat)
    requires n > 0
    ensures Pow2(8 * n) == 0x100 * Pow2(8 * n - 8)
  {
    Pow2Add(8, 8 * n - 8);
    Pow2Words();
  }

  lemma MulSwap(a: int, b: int, c: int)
    ensures a * (b * c) == b * (a * c)
  {
    MulAssoc(a, b, c);
    MulAssoc(b, a, c);
  }

  /** A read is its lower bytes plus its last byte in place. */
  lemma {:induction false} GetLast(ram: Ram, off: nat, n: nat)
    requires off + n < |ram|
    ensures Get(ram, off, n + 1) == Get(ram, off, n) + ram[off + n] * Pow2(8 * n)
    decreases n
  {
    if n == 0 {
    } else {
      GetLast(ram, off + 1, n - 1);
      ByteStep(n);
      MulSwap(ram[off + n], 0x100, Pow2(8 * n - 8));
    }
  }

  /** A store of one more byte is the shorter store followed by that byte. */
  lemma {:induction false} PutLast(ram: Ram, off: nat, n: nat, v: nat)
    requires off + n < |ram|
    ensures Put(ram, off, n + 1, v) == Put(ram, off, n, v)[off + n := Shr(v, 8 * n) % 0x100]
    decreases n
  {
    if n == 0 {
    } else {
      PutLast(ram[off := v % 0x100], off + 1, n - 1, v / 0x100);
      assert Shr(v, 8 * n) == Shr(v / 0x100, 8 * n - 8) by { ShrByte(v, 8 * n); }
    }
  }

  lemma ShrByte(v: nat, n: nat)
    requires n >= 8
    ensures Shr(v, n) == Shr(v / 0x100, n - 8)
  {
    assert Shr(v, n) == Shr(v / 2 / 2, n - 2);
    assert Shr(v / 4, n - 2) == Shr(v / 4 / 2 / 2, n - 4);
    assert Shr(v / 16, n - 4) == Shr(v / 16 / 2 / 2, n - 6);
    assert Shr(v / 64, n - 6) == Shr(v / 64 / 2 / 2, n - 8);
  }

  ghost predicate SameBytes(a: Ram, b: Ram, off: int, n: int)
  {
    |a| == |b| && forall j {:trigger a[j]} {:trigger b[j]} :: off <= j < off + n && 0 <= j < |a| ==> a[j] == b[j]
  }

  /** Two memories that agree outside `[lo, hi)`. */
  ghost predicate SameOutside(a: Ram, b: Ram, lo: int, hi: int)
  {
    |a| == |b| && forall j {:trigger a[j]} {:trigger b[j]} :: 0 <= j < |a| && !(lo <= j < hi) ==> a[j] == b[j]
  }

  /** A read depends only on the bytes it covers. */
  lemma {:induction false} GetFrame(a: Ram, b: Ram, off: nat, n: nat)
    requires off + n <= |a| && SameBytes(a, b, off, n)
    ensures Get(a, off, n) == Get(b, off, n)
    decreases n
  {
    if n == 0 {
    } else {
      GetFrame(a, b, off + 1, n - 1);
    }
  }

  /** Reading back what was stored gives the stored value modulo the access width. */
  lemma {:induction false} GetPut(ram: Ram, off: nat, n: nat, v: nat)
    requires off + n <= |ram|
    ensures Get(Put(ram, off, n, v), off, n) == v % Pow2(8 * n)
    decreases n
  {
    if n == 0 {
    } else {
      var first := ram[off := v % 0x100];
      GetPut(first, off + 1, n - 1, v / 0x100);
      assert Put(first, off + 1, n - 1, v / 0x100)[off] == v % 0x100;
      ByteStep(n);
      LowByte(v, Pow2(8 * n - 8));
    }
  }

  lemma LowByte(v: nat, p: nat)
    requires p > 0
    ensures v % 0x100 + 0x100 * (v / 0x100 % p) == v % (0x100 * p)
  {
    var w := v / 0x100;
    DivMod(w, p);
    MulAssoc(0x100, w / p, p);
    assert v == w / p * (0x100 * p) + (0x100 * (w % p) + v % 0x100);
    DivModUnique(v, 0x100 * p, w / p, 0x100 * (w % p) + v % 0x100);
  }

  lemma PutByte(ram: Ram, off: nat, v: nat)
    requires off < |ram|
    ensures Put(ram, off, 1, v) == ram[off := v % 0x100]
  {
  }

  /** A store leaves every disjoint read alone. */
  lemma GetPutDisjoint(ram: Ram, off: nat, n: nat, v: nat, off': nat, n': nat)
    requires off + n <= |ram| && off' + n' <= |ram| && (off + n <= off' || off' + n' <= off)
    ensures Get(Put(ram, off, n, v), off', n') == Get(ram, off', n')
  {
    GetFrame(Put(ram, off, n, v), ram, off', n');
  }

  lemma GetPut64(ram: Ram, off: nat, v: u64)
    requires off + 8 <= |ram|
    ensures Get(Put(ram, off, 8, v), off, 8) == v
  {
    GetPut(ram, off, 8, v);
    Pow2Words();
  }

  lemma GetPut32(ram: Ram, off: nat, v: u64)
    requires off + 4 <= |ram|
    ensures Get(Put(ram, off, 4, v), off, 4) == v % TWO32
  {
    GetPut(ram, off, 4, v);
    Pow2Words();
  }

  // ----- the buffer -----

  class Mem {
    const data: array<u8>

    constructor ()
      ensures data.Length == RAM_SIZE && fresh(data)
      ensures forall j :: 0 <= j < RAM_SIZE ==> data[j] == 0
    {
      data := new u8[RAM_SIZE](_ => 0);
    }

    /** The index into the buffer of a guest physical address (a host pointer in the emulator). */
    function GetPtr(addr: u64): int { addr - RAM_BASE }

    method Store8(addr: u64, value: u64)
      requires 0 <= GetPtr(addr) < data.Length
      modifies data
      ensures data[..] == Put(old(data[..]), GetPtr(addr), 1, value)
    {
      ghost var before := data[..];
      var p := GetPtr(addr);
      StoreByte(p, 0, value, before);
    }

    method Store16(addr: u64, value: u64)
      requires 0 <= GetPtr(addr) && GetPtr(addr) + 2 <= data.Length
      modifies data
      ensures data[..] == Put(old(data[..]), GetPtr(addr), 2, value)
    {
      ghost var before := data[..];
      var p := GetPtr(addr);
      StoreByte(p, 0, value, before);
      StoreByte(p, 1, value, before);
    }

    method Store32(addr: u64, value: u64)
      requires 0 <= GetPtr(addr) && GetPtr(addr) + 4 <= data.Length
      modifies data
      ensures data[..] == Put(old(data[..]), GetPtr(addr), 4, value)
    {
      ghost var before := data[..];
      var p := GetPtr(addr);
      StoreByte(p, 0, value, before);
      StoreByte(p, 1, value, before);
      StoreByte(p, 2, value, before);
      StoreByte(p, 3, value, before);
    }

    method Store64(addr: u64, value: u64)
      requires 0 <= GetPtr(addr) && GetPtr(addr) + 8 <= data.Length
      modifies data
      ensures data[..] == Put(old(data[..]), GetPtr(addr), 8, value)
    {
      ghost var before := data[..];
      var p := GetPtr(addr);
      StoreByte(p, 0, value, before);
      StoreByte(p, 1, value, before);
      StoreByte(p, 2, value, before);
      StoreByte(p, 3, value, before);
      StoreByte(p, 4, value, before);
      StoreByte(p, 5, value, before);
      StoreByte(p, 6, value, before);
      StoreByte(p, 7, value, before);
    }

    /** `p[k] = (uint8_t)(value >> 8 * k)`, as the next byte of a store that began in `before`. */
    method StoreByte(p: nat, k: nat, value: u64, ghost before: Ram)
      requires p + k < data.Length == |before|
      requires data[..] == Put(before, p, k, value)
      modifies data
      ensures data[..] == Put(before, p, k + 1, value)
    {
      PutLast(before, p, k, value);
      data[p + k] := Shr(value, 8 * k) % 0x100;
    }

    method Load8(addr: u64) returns (v: u64)
      requires 0 <= GetPtr(addr) < data.Length
      ensures v == Get(data[..], GetPtr(addr), 1)
    {
      v := OrByte(GetPtr(addr), 0, 0);
    }

    method Load16(addr: u64) returns (v: u64)
      requires 0 <= GetPtr(addr) && GetPtr(addr) + 2 <= data.Length
      ensures v == Get(data[..], GetPtr(addr), 2) < TWO16
    {
      var p := GetPtr(addr);
      v := OrByte(p, 0, 0);
      v := OrByte(p, 1, v);
      assert Pow2(16) == TWO16 by { Pow2Table(); }
    }

    /** The four bytes are joined as an `int`, whose sign is extended when the fifth byte is or-ed in;
        the conversion to `uint32_t` drops both again. */
    method Load32(addr: u64) returns (v: u64)
      requires 0 <= GetPtr(addr) && GetPtr(addr) + 5 <= data.Length
      ensures v == Get(data[..], GetPtr(addr), 4) < TWO32
    {
      var p := GetPtr(addr);
      var word := OrByte(p, 0, 0);
      word := OrByte(p, 1, word);
      word := OrByte(p, 2, word);
      word := OrByte(p, 3, word);
      var fifth: int := data[p + 4];
      assert word < TWO32 by { Pow2Words(); }
      v := WidenAndTruncate(word, fifth);
    }

    method Load64(addr: u64) returns (v: u64)
      requires 0 <= GetPtr(addr) && GetPtr(addr) + 8 <= data.Length
      ensures v == Get(data[..], GetPtr(addr), 8)
    {
      var p := GetPtr(addr);
      v := OrByte(p, 0, 0);
      v := OrByte(p, 1, v);
      v := OrByte(p, 2, v);
      v := OrByte(p, 3, v);
      v := OrByte(p, 4, v);
      v := OrByte(p, 5, v);
      v := OrByte(p, 6, v);
      v := OrByte(p, 7, v);
    }

    /** `v | p[k] << 8 * k`, where `v` holds the bytes before `p[k]`. */
    method OrByte(p: nat, k: nat, v: u64) returns (r: u64)
      requires p + k < data.Length && k < 8
      requires v == Get(data[..], p, k)
      ensures r == Get(data[..], p, k + 1) < Pow2(8 * k + 8)
    {
      var byte: int := data[p + k];
      OrNextByte(data[..], p, k, v);
      ReadFitsWord(data[..], p, k + 1);
      r := Or(v, Shl(byte, 8 * k));
    }
  }

  lemma ReadFitsWord(ram: Ram, off: nat, n: nat)
    requires off + n <= |ram| && n <= 8
    ensures Get(ram, off, n) < Pow2(8 * n) <= TWO64
  {
    GetBound(ram, off, n);
    Pow2Mono(8 * n, 64);
    Pow2Words();
  }

  function WidenAndTruncate(word: u64, fifth: nat): (v: u64)
    ensures word < TWO32 ==> v == word
  {
    Pow2Words();
    OrAbove(U64(Signed(word, 32)), fifth, 32);
    SignExtensionLow(word);
    Or(U64(Signed(word, 32)), fifth * TWO32) % TWO32
  }

  lemma SignExtensionLow(word: nat)
    ensures word < TWO32 ==> U64(Signed(word, 32)) % TWO32 == word
  {
    assert Pow2(31) == TWO31 && Pow2(32) == TWO32 by { Pow2Words(); }
  }

  /** Or-ing the next byte into the bytes read so far extends the read by one byte. */
  lemma OrNextByte(ram: Ram, off: nat, k: nat, v: nat)
    requires off + k < |ram| && v == Get(ram, off, k)
    ensures Or(v, Shl(ram[off + k], 8 * k)) == Get(ram, off, k + 1)
  {
    GetBound(ram, off, k);
    GetLast(ram, off, k);
    ShlIs(ram[off + k], 8 * k);
    OrDisjoint(ram[off + k], v, 8 * k);
  }
}
