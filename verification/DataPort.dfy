/** Bus access through a cached direct-memory descriptor: Execute::read_memory and
    write_memory, CPU::read_memory_word and write_memory_word (the same code with size 4),
    and CPU::fetch_instruction. Each of the three callers has a cache of its own. */
module DataPort {
  import opened Words
  import opened Memory
  import opened BusCtrl

  datatype Cache = NoDmi | Cached(dmi: Dmi)

  /** `wild` records that an access went through a descriptor to bytes outside the
      backing store; C++ leaves what happens then undefined. */
  datatype Port = Port(cache: Cache, mem: MemState, wild: bool)

  predicate AccessSize(size: nat) { size == 1 || size == 2 || size == 4 }

  /** The bounds check in front of every direct access, with its wrapping sum. */
  predicate InWindow(d: Dmi, a: word, size: nat) {
    a >= d.start && Wrap(a + size - 1) <= d.end
  }

  predicate Wraps(a: word, size: nat) { a + size > TWO32 }

  // --- the slow route: every access is a bus transaction ---

  function BusRead(m: MemState, a: word, size: nat): (MemState, word)
    requires size <= 4
  {
    var (m', r) := Transport(m, false, a, size, 0);
    (m', if r.Okay? then r.value else 0)
  }

  function BusWrite(m: MemState, a: word, size: nat, v: word): MemState
    requires size <= 4
  {
    Transport(m, true, a, size, v).0
  }

  // --- the fast route, as the source takes it ---

  function DmiRead(p: Port, d: Dmi, a: word, size: nat): (Port, word)
    requires size <= 4 && a >= d.start
  {
    var off := d.ptr + (a - d.start);
    if off + size > MEM_SIZE then (p.(wild := true), 0)
    else (p, LittleEndian(p.mem.bytes[off..off + size]))
  }

  function DmiWrite(p: Port, d: Dmi, a: word, size: nat, v: word): Port
    requires size <= 4 && a >= d.start
  {
    var off := d.ptr + (a - d.start);
    if off + size > MEM_SIZE then p.(wild := true)
    else p.(mem := p.mem.(bytes := Splice(p.mem.bytes, off, BytesOf(v, size))))
  }

  function ThroughBusRead(p: Port, a: word, size: nat): (Port, word)
    requires size <= 4
  {
    var (m, v) := BusRead(p.mem, a, size);
    (p.(mem := m), v)
  }

  function ThroughBusWrite(p: Port, a: word, size: nat, v: word): Port
    requires size <= 4
  {
    p.(mem := BusWrite(p.mem, a, size, v))
  }

  function PortRead(p: Port, a: word, size: nat): (Port, word)
    requires AccessSize(size)
  {
    if p.cache.Cached? && InWindow(p.cache.dmi, a, size) then DmiRead(p, p.cache.dmi, a, size)
    else MissRead(p, a, size)
  }

  /** Ask for a descriptor, use it if it fits, fall back to the bus. */
  function MissRead(p: Port, a: word, size: nat): (Port, word)
    requires AccessSize(size)
  {
    match DirectMemory(a)
    case None => ThroughBusRead(p, a, size)
    case Some(d) =>
      if InWindow(d, a, size) then DmiRead(p.(cache := Cached(d)), d, a, size)
      else ThroughBusRead(p.(cache := Cached(d)), a, size)
  }

  function PortWrite(p: Port, a: word, size: nat, v: word): Port
    requires AccessSize(size)
  {
    if p.cache.Cached? && InWindow(p.cache.dmi, a, size) && p.cache.dmi.writable then
      DmiWrite(p, p.cache.dmi, a, size, v)
    else MissWrite(p, a, size, v)
  }

  function MissWrite(p: Port, a: word, size: nat, v: word): Port
    requires AccessSize(size)
  {
    match DirectMemory(a)
    case None => ThroughBusWrite(p, a, size, v)
    case Some(d) =>
      if InWindow(d, a, size) && d.writable then DmiWrite(p.(cache := Cached(d)), d, a, size, v)
      else ThroughBusWrite(p.(cache := Cached(d)), a, size, v)
  }

  // --- one access ---

  /** In every reachable cache state the descriptor is exactly one of the two regions. */
  predicate CacheSound(c: Cache) {
    c.NoDmi? || c.dmi == FLASH_DMI || c.dmi == SRAM_DMI
  }

  function CacheAfter(c: Cache, a: word): Cache {
    if InFlash(a) then Cached(FLASH_DMI) else if InSram(a) then Cached(SRAM_DMI) else c
  }

  predicate ReadEscapes(c: Cache, a: word, size: nat) { c.Cached? && Wraps(a, size) }

  predicate WriteEscapes(c: Cache, a: word, size: nat) { c == Cached(SRAM_DMI) && Wraps(a, size) }

  /** The bounds check admits the accesses inside the region and, because its sum wraps, those
      that run past the top of the address space. */
  lemma WindowMeaning(d: Dmi, a: word, size: nat)
    requires d == FLASH_DMI || d == SRAM_DMI
    requires AccessSize(size)
    ensures InWindow(d, a, size) <==> (d.start <= a && (a + size - 1 <= d.end || Wraps(a, size)))
    ensures InWindow(d, a, size) && !Wraps(a, size) ==> DirectMemory(a) == Some(d)
    ensures InWindow(d, a, size) && Wraps(a, size) ==> DirectMemory(a) == None
  {
    assert !Wraps(a, size) ==> Wrap(a + size - 1) == a + size - 1;
    assert Wraps(a, size) ==> Wrap(a + size - 1) == a + size - 1 - TWO32 || a + size - 1 < TWO32;
  }

  lemma HitReads(p: Port, d: Dmi, a: word, size: nat)
    requires (d == FLASH_DMI || d == SRAM_DMI) && AccessSize(size) && d.start <= a
    ensures a + size - 1 <= d.end ==> DmiRead(p, d, a, size) == ThroughBusRead(p, a, size)
    ensures Wraps(a, size) ==> DmiRead(p, d, a, size) == (p.(wild := true), 0)
  {
    if a + size - 1 <= d.end {
      var off := d.ptr + (a - d.start);
      assert Translate(a) == Some(off);
    }
  }

  lemma HitWrites(p: Port, d: Dmi, a: word, size: nat, v: word)
    requires (d == FLASH_DMI || d == SRAM_DMI) && AccessSize(size) && d.start <= a
    ensures a + size - 1 <= d.end ==> DmiWrite(p, d, a, size, v) == ThroughBusWrite(p, a, size, v)
    ensures Wraps(a, size) ==> DmiWrite(p, d, a, size, v) == p.(wild := true)
  {
    if a + size - 1 <= d.end {
      var off := d.ptr + (a - d.start);
      assert Translate(a) == Some(off);
    }
  }

  /** A read leaves the cache sound, and agrees with the bus unless it wraps past the top
      of the address space while a descriptor is cached. */
  lemma {:induction false} ReadAgrees(p: Port, a: word, size: nat)
    requires CacheSound(p.cache) && AccessSize(size)
    ensures var (p', v) := PortRead(p, a, size);
            && p'.cache == CacheAfter(p.cache, a)
            && p'.wild == (p.wild || ReadEscapes(p.cache, a, size))
            && (!ReadEscapes(p.cache, a, size) ==> (p'.mem, v) == BusRead(p.mem, a, size))
  {
    if p.cache.Cached? && InWindow(p.cache.dmi, a, size) {
      WindowMeaning(p.cache.dmi, a, size);
      HitReads(p, p.cache.dmi, a, size);
    } else {
      if p.cache.Cached? {
        WindowMeaning(p.cache.dmi, a, size);
      }
      var d := DirectMemory(a);
      if d.Some? && InWindow(d.value, a, size) {
        WindowMeaning(d.value, a, size);
        HitReads(p.(cache := Cached(d.value)), d.value, a, size);
      }
    }
  }

  /** The same for a write; only an SRAM descriptor lets a wrapping write through. */
  lemma {:induction false} WriteAgrees(p: Port, a: word, size: nat, v: word)
    requires CacheSound(p.cache) && AccessSize(size)
    ensures var p' := PortWrite(p, a, size, v);
            && p'.cache == CacheAfter(p.cache, a)
            && p'.wild == (p.wild || WriteEscapes(p.cache, a, size))
            && (!WriteEscapes(p.cache, a, size) ==> p'.mem == BusWrite(p.mem, a, size, v))
  {
    if p.cache.Cached? {
      WindowMeaning(p.cache.dmi, a, size);
      HitWrites(p, p.cache.dmi, if a >= p.cache.dmi.start then a else p.cache.dmi.start, size, v);
    }
    var d := DirectMemory(a);
    if d.Some? {
      WindowMeaning(d.value, a, size);
      HitWrites(p.(cache := Cached(d.value)), d.value, a, size, v);
    }
  }

  // --- runs: the three ports interleaved over one bus ---

  datatype PortId = Fetch | CpuData | ExecData

  datatype Op = Op(port: PortId, write: bool, addr: word, size: nat, value: word)

  type AccessOp = o: Op | AccessSize(o.size) witness Op(Fetch, false, 0, 4, 0)

  datatype System = System(fetch: Cache, cpuData: Cache, execData: Cache, mem: MemState, wild: bool) {
    function CacheOf(id: PortId): Cache {
      match id
      case Fetch => fetch
      case CpuData => cpuData
      case ExecData => execData
    }

    function WithPort(id: PortId, p: Port): System {
      var s := this.(mem := p.mem, wild := p.wild);
      match id
      case Fetch => s.(fetch := p.cache)
      case CpuData => s.(cpuData := p.cache)
      case ExecData => s.(execData := p.cache)
    }
  }

  function FastStep(s: System, o: AccessOp): (System, word) {
    var p := Port(s.CacheOf(o.port), s.mem, s.wild);
    if o.write then (s.WithPort(o.port, PortWrite(p, o.addr, o.size, o.value)), 0)
    else
      var (p', v) := PortRead(p, o.addr, o.size);
      (s.WithPort(o.port, p'), v)
  }

  function SlowStep(m: MemState, o: AccessOp): (MemState, word) {
    if o.write then (BusWrite(m, o.addr, o.size, o.value), 0) else BusRead(m, o.addr, o.size)
  }

  /** The final state and the values the accesses returned. */
  function FastRun(s: System, ops: seq<AccessOp>): (System, seq<word>) {
    if ops == [] then (s, [])
    else
      var (s', vs) := FastRun(s, ops[..|ops| - 1]);
      var (s'', v) := FastStep(s', ops[|ops| - 1]);
      (s'', vs + [v])
  }

  function SlowRun(m: MemState, ops: seq<AccessOp>): (MemState, seq<word>) {
    if ops == [] then (m, [])
    else
      var (m', vs) := SlowRun(m, ops[..|ops| - 1]);
      var (m'', v) := SlowStep(m', ops[|ops| - 1]);
      (m'', vs + [v])
  }

  /** The address of the port's last access to FLASH or SRAM. */
  function LastMapped(ops: seq<AccessOp>, id: PortId): Option<word> {
    if ops == [] then None
    else
      var o := ops[|ops| - 1];
      if o.port == id && Mapped(o.addr) then Some(o.addr) else LastMapped(ops[..|ops| - 1], id)
  }

  /** A wrapping access is harmless when its port has touched no region yet, and a wrapping
      write also when the last region touched was FLASH. */
  predicate Harmless(before: seq<AccessOp>, o: AccessOp) {
    Wraps(o.addr, o.size) ==>
      var last := LastMapped(before, o.port);
      last.None? || (o.write && InFlash(last.value))
  }

  predicate SafeRun(ops: seq<AccessOp>) {
    forall i :: 0 <= i < |ops| ==> Harmless(ops[..i], ops[i])
  }

  function CacheFor(last: Option<word>): Cache {
    match last
    case None => NoDmi
    case Some(a) => CacheAfter(NoDmi, a)
  }

  lemma SafeRunSnoc(ops: seq<AccessOp>)
    requires ops != []
    ensures SafeRun(ops) <==> SafeRun(ops[..|ops| - 1]) && Harmless(ops[..|ops| - 1], ops[|ops| - 1])
  {
    var init := ops[..|ops| - 1];
    forall i | 0 <= i < |init| ensures init[..i] == ops[..i] && init[i] == ops[i] {}
  }

  predicate Escapes(c: Cache, o: AccessOp) {
    if o.write then WriteEscapes(c, o.addr, o.size) else ReadEscapes(c, o.addr, o.size)
  }

  /** One step of the fast system against one bus access. */
  lemma {:induction false} StepAgrees(s: System, o: AccessOp)
    requires CacheSound(s.CacheOf(o.port))
    ensures var (s', v) := FastStep(s, o);
            && s'.wild == (s.wild || Escapes(s.CacheOf(o.port), o))
            && (!Escapes(s.CacheOf(o.port), o) ==> (s'.mem, v) == SlowStep(s.mem, o))
            && (forall id :: s'.CacheOf(id) ==
                             if id == o.port then CacheAfter(s.CacheOf(id), o.addr) else s.CacheOf(id))
  {
    var p := Port(s.CacheOf(o.port), s.mem, s.wild);
    if o.write {
      WriteAgrees(p, o.addr, o.size, o.value);
    } else {
      ReadAgrees(p, o.addr, o.size);
    }
  }

  lemma LastMappedIsMapped(ops: seq<AccessOp>, id: PortId)
    ensures var last := LastMapped(ops, id); last.Some? ==> Mapped(last.value)
  {
  }

  lemma HarmlessMeansNoEscape(before: seq<AccessOp>, o: AccessOp)
    ensures Harmless(before, o) <==> !Escapes(CacheFor(LastMapped(before, o.port)), o)
  {
    LastMappedIsMapped(before, o.port);
  }

  ghost predicate Refines(r: (System, seq<word>), slow: (MemState, seq<word>), ops: seq<AccessOp>) {
    && (!r.0.wild <==> SafeRun(ops))
    && (!r.0.wild ==> (r.0.mem, r.1) == slow)
    && forall id :: r.0.CacheOf(id) == CacheFor(LastMapped(ops, id))
  }

  /** From invalid caches, any interleaving of the three ports returns the values and leaves
      the memory that sending every access over the bus would, and it does so exactly when no
      access wraps in the way `Harmless` rules out. */
  lemma {:induction false} FastPathRefinesBus(m: MemState, ops: seq<AccessOp>)
    ensures Refines(FastRun(System(NoDmi, NoDmi, NoDmi, m, false), ops), SlowRun(m, ops), ops)
  {
    if ops != [] {
      var n := |ops| - 1;
      FastPathRefinesBus(m, ops[..n]);
      SafeRunSnoc(ops);
      HarmlessMeansNoEscape(ops[..n], ops[n]);
      StepAgrees(FastRun(System(NoDmi, NoDmi, NoDmi, m, false), ops[..n]).0, ops[n]);
    }
  }

  /** Without wrapping accesses the two routes always agree. */
  lemma {:induction false} NonWrappingRunsAgree(m: MemState, ops: seq<AccessOp>)
    requires forall i :: 0 <= i < |ops| ==> !Wraps(ops[i].addr, ops[i].size)
    ensures var (s, vs) := FastRun(System(NoDmi, NoDmi, NoDmi, m, false), ops);
            !s.wild && (s.mem, vs) == SlowRun(m, ops)
  {
    FastPathRefinesBus(m, ops);
  }

  /** The wrapping check lets a word read at the last address through a FLASH descriptor. */
  lemma WrappingReadEscapes(m: MemState)
    ensures FastRun(System(NoDmi, NoDmi, NoDmi, m, false),
                    [Op(ExecData, false, 0, 4, 0), Op(ExecData, false, 0xFFFF_FFFF, 4, 0)]).0.wild
  {
    var ops: seq<AccessOp> := [Op(ExecData, false, 0, 4, 0), Op(ExecData, false, 0xFFFF_FFFF, 4, 0)];
    FastPathRefinesBus(m, ops);
    assert ops[..1][..0] == [];
    assert LastMapped(ops[..1], ExecData) == Some(0);
    assert !Harmless(ops[..1], ops[1]);
  }

  /** One caller's cached access to the bus. */
  class BusPort {
    const bus: BusController
    var cache: Cache
    var wild: bool

    ghost predicate Valid()
      reads this, bus
    {
      bus.Valid() && bus.Configured() && CacheSound(cache)
    }

    ghost function Footprint(): set<object> { {this, bus, bus.memory.data} }

    ghost function State(): Port
      reads this, bus, bus.memory.data
      requires Valid()
    {
      Port(cache, bus.State(), wild)
    }

    constructor (bus: BusController)
      requires bus.Valid() && bus.Configured()
      ensures Valid() && this.bus == bus && cache == NoDmi && !wild
    {
      this.bus := bus;
      cache, wild := NoDmi, false;
    }

    method ReadMemory(a: word, size: nat) returns (v: word)
      requires Valid() && AccessSize(size)
      modifies this, bus`log, bus.memory.data
      ensures Valid() && (State(), v) == PortRead(old(State()), a, size)
    {
      hide DmiRead, MissRead;
      if cache.Cached? && a >= cache.dmi.start && Wrap(a + size - 1) <= cache.dmi.end {
        v := DirectLoad(a, size);
      } else {
        v := LoadAfterMiss(a, size);
      }
    }

    method LoadAfterMiss(a: word, size: nat) returns (v: word)
      requires Valid() && AccessSize(size)
      modifies this, bus`log, bus.memory.data
      ensures Valid() && (State(), v) == MissRead(old(State()), a, size)
    {
      hide DmiRead, ThroughBusRead;
      var granted := bus.GetDirectMemPtr(a);
      if granted.Some? {
        cache := Cached(granted.value);
        if a >= cache.dmi.start && Wrap(a + size - 1) <= cache.dmi.end {
          v := DirectLoad(a, size);
          return;
        }
      }
      v := TransportLoad(a, size);
    }

    method WriteMemory(a: word, v: word, size: nat)
      requires Valid() && AccessSize(size)
      modifies this, bus`log, bus.memory.data
      ensures Valid() && State() == PortWrite(old(State()), a, size, v)
    {
      hide DmiWrite, MissWrite;
      if cache.Cached? && a >= cache.dmi.start && Wrap(a + size - 1) <= cache.dmi.end && cache.dmi.writable {
        DirectStore(a, v, size);
      } else {
        StoreAfterMiss(a, v, size);
      }
    }

    method StoreAfterMiss(a: word, v: word, size: nat)
      requires Valid() && AccessSize(size)
      modifies this, bus`log, bus.memory.data
      ensures Valid() && State() == MissWrite(old(State()), a, size, v)
    {
      hide DmiWrite, ThroughBusWrite;
      var granted := bus.GetDirectMemPtr(a);
      if granted.Some? {
        cache := Cached(granted.value);
        if a >= cache.dmi.start && Wrap(a + size - 1) <= cache.dmi.end && cache.dmi.writable {
          DirectStore(a, v, size);
          return;
        }
      }
      TransportStore(a, v, size);
    }

    /** The fallback: one blocking transaction, 0 if it fails. */
    method TransportLoad(a: word, size: nat) returns (v: word)
      requires Valid() && size <= 4
      modifies bus`log, bus.memory.data
      ensures Valid() && (State(), v) == ThroughBusRead(old(State()), a, size)
    {
      var r := bus.BTransport(false, a, size, 0);
      v := if r.Okay? then r.value else 0;
    }

    method TransportStore(a: word, v: word, size: nat)
      requires Valid() && size <= 4
      modifies bus`log, bus.memory.data
      ensures Valid() && State() == ThroughBusWrite(old(State()), a, size, v)
    {
      var r := bus.BTransport(true, a, size, v);
    }

    method DirectLoad(a: word, size: nat) returns (v: word)
      requires Valid() && size <= 4 && cache.Cached? && a >= cache.dmi.start
      modifies this`wild
      ensures Valid() && (State(), v) == DmiRead(old(State()), cache.dmi, a, size)
    {
      var off := cache.dmi.ptr + (a - cache.dmi.start);
      if off + size > MEM_SIZE {
        wild := true;
        return 0;
      }
      v := LittleEndian(bus.memory.data[off..off + size]);
      assert bus.memory.data[off..off + size] == bus.memory.Contents()[off..off + size];
    }

    method DirectStore(a: word, v: word, size: nat)
      requires Valid() && size <= 4 && cache.Cached? && a >= cache.dmi.start
      modifies this`wild, bus.memory.data
      ensures Valid() && State() == DmiWrite(old(State()), cache.dmi, a, size, v)
    {
      var off := cache.dmi.ptr + (a - cache.dmi.start);
      if off + size > MEM_SIZE {
        wild := true;
        return;
      }
      bus.memory.CopyIn(off, BytesOf(v, size));
    }
  }
}
