/** The memory device: FLASH and SRAM regions over one flat backing store
    (src/memory/Memory.cpp). */
module Memory {
  import opened Words

  const FLASH_BASE := 0x0000_0000
  const FLASH_SIZE := 0x0008_0000
  const SRAM_BASE := 0x2000_0000
  const SRAM_SIZE := 0x0001_0000
  const FLASH_OFFSET := 0
  const SRAM_OFFSET := FLASH_OFFSET + FLASH_SIZE
  /** The size the simulator constructs its memory with. */
  const MEM_SIZE := 0x10_0000

  type Backing = b: seq<byte> | |b| == MEM_SIZE witness seq(MEM_SIZE, _ => 0)

  predicate InFlash(a: word) { FLASH_BASE <= a < FLASH_BASE + FLASH_SIZE }
  predicate InSram(a: word) { SRAM_BASE <= a < SRAM_BASE + SRAM_SIZE }
  predicate Mapped(a: word) { InFlash(a) || InSram(a) }

  /** Backing-store offset of an absolute address, if it lies in a region. */
  function Translate(a: word): (off: Option<nat>)
    ensures off.Some? <==> Mapped(a)
    ensures off.Some? ==> off.value < SRAM_OFFSET + SRAM_SIZE
  {
    if InFlash(a) then Some(FLASH_OFFSET + (a - FLASH_BASE))
    else if InSram(a) then Some(SRAM_OFFSET + (a - SRAM_BASE))
    else None
  }

  /** The map in numbers: 512 KiB of FLASH at 0, and behind it in the store 64 KiB of SRAM that answers
      from 0x20000000. */
  lemma RegionsAre(a: word)
    ensures Translate(a) ==
            if a < 0x8_0000 then Some(a)
            else if 0x2000_0000 <= a < 0x2001_0000 then Some(a - 0x2000_0000 + 0x8_0000)
            else None
  {
  }

  /** `n` addresses from `a` that lie in one region. */
  predicate InRegion(a: word, n: nat) {
    (FLASH_BASE <= a && a + n <= FLASH_BASE + FLASH_SIZE) || (SRAM_BASE <= a && a + n <= SRAM_BASE + SRAM_SIZE)
  }

  /** Offset of an address inside a region. */
  function Offset(a: word): nat {
    if a < SRAM_BASE then FLASH_OFFSET + a else SRAM_OFFSET + (a - SRAM_BASE)
  }

  /** `memcpy(&m_memory[off], d, |d|)`. */
  function Splice(b: Backing, off: nat, d: seq<byte>): (r: Backing)
    requires off + |d| <= MEM_SIZE
    ensures forall i :: 0 <= i < MEM_SIZE ==> r[i] == if off <= i < off + |d| then d[i - off] else b[i]
  {
    b[..off] + d + b[off + |d|..]
  }

  /** A target's answer to a transaction: data read (0 for a write) or an address error. */
  datatype Response = Okay(value: word) | AddressError

  function MemoryRead(b: Backing, a: word, size: nat): Response
    requires size <= 4
  {
    match Translate(a)
    case None => AddressError
    case Some(off) => if off + size > MEM_SIZE then AddressError else Okay(LittleEndian(b[off..off + size]))
  }

  function MemoryWrite(b: Backing, a: word, size: nat, v: word): (Backing, Response)
    requires size <= 4
  {
    match Translate(a)
    case None => (b, AddressError)
    case Some(off) => if off + size > MEM_SIZE then (b, AddressError) else (Splice(b, off, BytesOf(v, size)), Okay(0))
  }

  /** A direct-memory descriptor: address range (inclusive end), position of the range in
      the backing store, and whether writes may go through it. */
  datatype Dmi = Dmi(start: word, end: word, ptr: nat, writable: bool)

  const FLASH_DMI := Dmi(FLASH_BASE, FLASH_BASE + FLASH_SIZE - 1, FLASH_OFFSET, false)
  const SRAM_DMI := Dmi(SRAM_BASE, SRAM_BASE + SRAM_SIZE - 1, SRAM_OFFSET, true)

  function DirectMemory(a: word): Option<Dmi> {
    if InFlash(a) then Some(FLASH_DMI)
    else if InSram(a) then Some(SRAM_DMI)
    else None
  }

  class MemoryDevice {
    const data: array<byte>

    ghost predicate Valid() { data.Length == MEM_SIZE }

    ghost function Contents(): Backing
      reads data
      requires Valid()
    {
      data[..]
    }

    constructor ()
      ensures Valid() && fresh(data) && forall i :: 0 <= i < MEM_SIZE ==> Contents()[i] == 0
    {
      data := new byte[MEM_SIZE](_ => 0);
    }

    /** `memcpy` into the store. */
    method CopyIn(off: nat, d: seq<byte>)
      requires Valid() && off + |d| <= MEM_SIZE
      modifies data
      ensures Contents() == Splice(old(Contents()), off, d)
    {
      forall i | 0 <= i < |d| {
        data[off + i] := d[i];
      }
    }

    method HandleRead(a: word, length: nat) returns (r: Response)
      requires Valid() && length <= 4
      ensures r == MemoryRead(Contents(), a, length)
    {
      var off := 0xFFFF_FFFF;
      if FLASH_BASE <= a < FLASH_BASE + FLASH_SIZE {
        off := FLASH_OFFSET + (a - FLASH_BASE);
      } else if SRAM_BASE <= a < SRAM_BASE + SRAM_SIZE {
        off := SRAM_OFFSET + (a - SRAM_BASE);
      }
      if off == 0xFFFF_FFFF || off + length > MEM_SIZE {
        return AddressError;
      }
      assert data[off..off + length] == Contents()[off..off + length];
      r := Okay(LittleEndian(data[off..off + length]));
    }

    method HandleWrite(a: word, length: nat, v: word) returns (r: Response)
      requires Valid() && length <= 4
      modifies data
      ensures (Contents(), r) == MemoryWrite(old(Contents()), a, length, v)
    {
      var off := 0xFFFF_FFFF;
      if FLASH_BASE <= a < FLASH_BASE + FLASH_SIZE {
        off := FLASH_OFFSET + (a - FLASH_BASE);
      } else if SRAM_BASE <= a < SRAM_BASE + SRAM_SIZE {
        off := SRAM_OFFSET + (a - SRAM_BASE);
      }
      if off == 0xFFFF_FFFF || off + length > MEM_SIZE {
        return AddressError;
      }
      CopyIn(off, BytesOf(v, length));
      r := Okay(0);
    }

    method GetDirectMemPtr(a: word) returns (d: Option<Dmi>)
      ensures d == DirectMemory(a)
    {
      if FLASH_BASE <= a < FLASH_BASE + FLASH_SIZE {
        return Some(Dmi(FLASH_BASE, FLASH_BASE + FLASH_SIZE - 1, FLASH_OFFSET, false));
      }
      if SRAM_BASE <= a < SRAM_BASE + SRAM_SIZE {
        return Some(Dmi(SRAM_BASE, SRAM_BASE + SRAM_SIZE - 1, SRAM_OFFSET, true));
      }
      d := None;
    }
  }
}
