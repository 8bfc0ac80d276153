/** The bus controller: device table, address decoding and routing
    (src/bus/BusCtrl.cpp), with the simulator's memory map (src/Simulator.cpp).

    Peripherals are the outside world: each transaction that reaches one is appended to
    a log, and the answer is an arbitrary function of that log. */
module BusCtrl {
  import opened Words
  import opened Memory

  datatype Device = Device(name: string, base: word, size: word, translate: bool)

  /** `m_devices` and the name index. */
  datatype Table = Table(devices: seq<Device>, index: map<string, nat>)

  const EMPTY_TABLE := Table([], map[])

  /** The address test of `decode_address`, with the wrapping sum of the source. */
  predicate Covers(d: Device, a: word) {
    d.base <= a < Wrap(d.base + d.size)
  }

  /** The overlap test of `add_device`, with its wrapping inclusive ends. */
  predicate Conflicts(d: Device, e: Device) {
    !(e.base > Wrap(d.base + d.size - 1) || Wrap(e.base + e.size - 1) < d.base)
  }

  predicate Accepts(t: Table, d: Device) {
    forall i :: 0 <= i < |t.devices| ==> !Conflicts(t.devices[i], d)
  }

  function AddDevice(t: Table, d: Device): Table {
    if Accepts(t, d) then Table(t.devices + [d], t.index[d.name := |t.devices|]) else t
  }

  function AddAll(t: Table, ds: seq<Device>): Table
    decreases |ds|
  {
    if ds == [] then t else AddAll(AddDevice(t, ds[0]), ds[1..])
  }

  /** Index of the first device that covers the address. */
  function Decode(ds: seq<Device>, a: word): (r: Option<nat>)
    ensures r.Some? ==> r.value < |ds| && Covers(ds[r.value], a) && forall j :: 0 <= j < r.value ==> !Covers(ds[j], a)
    ensures r.None? ==> forall j :: 0 <= j < |ds| ==> !Covers(ds[j], a)
  {
    if ds == [] then None
    else if Covers(ds[0], a) then Some(0)
    else
      match Decode(ds[1..], a)
      case None => None
      case Some(i) => Some(i + 1)
  }

  function DecodeDevice(ds: seq<Device>, a: word): Option<Device> {
    match Decode(ds, a)
    case None => None
    case Some(i) => Some(ds[i])
  }

  // --- properties of the device table ---

  ghost predicate Disjoint(ds: seq<Device>) {
    forall i, j, a :: 0 <= i < j < |ds| ==> !(Covers(ds[i], a) && Covers(ds[j], a))
  }

  /** Every name points to the latest device of that name, and every device is named. */
  ghost predicate IndexConsistent(t: Table) {
    && (forall n :: n in t.index ==>
          t.index[n] < |t.devices| && t.devices[t.index[n]].name == n
          && forall j :: t.index[n] < j < |t.devices| ==> t.devices[j].name != n)
    && (forall i :: 0 <= i < |t.devices| ==> t.devices[i].name in t.index)
  }

  /** A device covers exactly the range it was declared with, unless the range reaches
      the top of the address space; then it covers nothing. */
  lemma CoversDeclaredRange(d: Device)
    ensures (forall a: word :: Covers(d, a) <==> d.base <= a < d.base + d.size)
            <==> (d.size == 0 || d.base + d.size < TWO32)
    ensures d.base + d.size >= TWO32 ==> forall a: word :: !Covers(d, a)
  {
    if d.size != 0 && d.base + d.size >= TWO32 {
      assert !Covers(d, d.base) && d.base <= d.base < d.base + d.size;
    }
  }

  /** The wrapping overlap test misses no address that both devices cover. */
  lemma SharedAddressConflicts(d: Device, e: Device, a: word)
    requires Covers(d, a) && Covers(e, a)
    ensures Conflicts(d, e)
  {
    assert Wrap(d.base + d.size) == d.base + d.size && Wrap(e.base + e.size) == e.base + e.size;
  }

  lemma AddKeepsDisjoint(t: Table, d: Device)
    requires Disjoint(t.devices)
    ensures Disjoint(AddDevice(t, d).devices)
  {
    hide Covers, Conflicts;
    var devices := AddDevice(t, d).devices;
    forall i, j, a | 0 <= i < j < |devices|
      ensures !(Covers(devices[i], a) && Covers(devices[j], a))
    {
      if j == |t.devices| && Covers(devices[i], a) && Covers(devices[j], a) {
        SharedAddressConflicts(t.devices[i], d, a);
      }
    }
  }

  lemma AddKeepsIndex(t: Table, d: Device)
    requires IndexConsistent(t)
    ensures IndexConsistent(AddDevice(t, d))
  {
    var t' := AddDevice(t, d);
    forall n | n in t'.index
      ensures t'.index[n] < |t'.devices| && t'.devices[t'.index[n]].name == n
      ensures forall j :: t'.index[n] < j < |t'.devices| ==> t'.devices[j].name != n
    {
      assert n in t.index || n == d.name;
    }
  }

  /** Whatever devices are added, in whatever order and with whatever wrap-around, no
      address is covered twice and the name index stays right. */
  lemma {:induction false} AdditionsKeepTable(t: Table, ds: seq<Device>)
    requires Disjoint(t.devices) && IndexConsistent(t)
    ensures Disjoint(AddAll(t, ds).devices) && IndexConsistent(AddAll(t, ds))
    decreases |ds|
  {
    if ds != [] {
      AddKeepsDisjoint(t, ds[0]);
      AddKeepsIndex(t, ds[0]);
      AdditionsKeepTable(AddDevice(t, ds[0]), ds[1..]);
    }
  }

  /** In a table of disjoint devices decoding finds the one device that covers the address,
      so two tables with the same devices decode alike, whatever their order. */
  lemma DecodeIgnoresOrder(ds: seq<Device>, es: seq<Device>, a: word)
    requires Disjoint(ds)
    requires forall d :: d in ds <==> d in es
    ensures DecodeDevice(ds, a) == DecodeDevice(es, a)
    ensures forall d :: d in ds && Covers(d, a) ==> DecodeDevice(ds, a) == Some(d)
  {
    forall d | d in ds && Covers(d, a) ensures DecodeDevice(ds, a) == Some(d) {
      var i :| 0 <= i < |ds| && ds[i] == d;
      var k := Decode(ds, a).value;
      assert Covers(ds[k], a) && Covers(ds[i], a);
    }
    match Decode(es, a) {
      case None =>
      case Some(i) => assert es[i] in ds;
    }
    match Decode(ds, a) {
      case None =>
      case Some(i) => assert ds[i] in es;
    }
  }

  /** Devices that do not conflict with one another are all accepted, in order. */
  lemma {:induction false} AllAccepted(t: Table, ds: seq<Device>)
    requires forall i, j :: 0 <= i < j < |t.devices + ds| && j >= |t.devices| ==>
               !Conflicts((t.devices + ds)[i], (t.devices + ds)[j])
    ensures AddAll(t, ds).devices == t.devices + ds
    decreases |ds|
  {
    if ds != [] {
      forall i | 0 <= i < |t.devices| ensures !Conflicts(t.devices[i], ds[0]) {
        assert (t.devices + ds)[i] == t.devices[i] && (t.devices + ds)[|t.devices|] == ds[0];
      }
      var t' := AddDevice(t, ds[0]);
      assert t'.devices + ds[1..] == t.devices + ds;
      AllAccepted(t', ds[1..]);
    }
  }

  /** Two conflict-free lists of the same devices decode alike once added. */
  lemma {:induction false} SameDevicesDecodeAlike(ds: seq<Device>, es: seq<Device>, a: word)
    requires forall i, j :: 0 <= i < j < |ds| ==> !Conflicts(ds[i], ds[j])
    requires forall i, j :: 0 <= i < j < |es| ==> !Conflicts(es[i], es[j])
    requires forall d :: d in ds <==> d in es
    ensures DecodeDevice(AddAll(EMPTY_TABLE, ds).devices, a) == DecodeDevice(AddAll(EMPTY_TABLE, es).devices, a)
  {
    assert [] + ds == ds && [] + es == es;
    AllAccepted(EMPTY_TABLE, ds);
    AllAccepted(EMPTY_TABLE, es);
    AdditionsKeepTable(EMPTY_TABLE, ds);
    DecodeIgnoresOrder(ds, es, a);
  }

  lemma ConflictsSymmetric(d: Device, e: Device)
    ensures Conflicts(d, e) == Conflicts(e, d)
  {
  }

  /** A device that occurs twice occurs at two places. */
  lemma {:induction false} TwoPlaces(ds: seq<Device>, d: Device) returns (i: nat, j: nat)
    requires multiset(ds)[d] >= 2
    ensures i < j < |ds| && ds[i] == d && ds[j] == d
  {
    var n := |ds| - 1;
    assert ds == ds[..n] + [ds[n]];
    if ds[n] == d {
      j := n;
      assert d in multiset(ds[..n]);
      i :| 0 <= i < n && ds[..n][i] == d;
    } else {
      i, j := TwoPlaces(ds[..n], d);
    }
  }

  /** Freedom from conflicts does not depend on the order. */
  lemma {:induction false} PermutationConflictFree(ds: seq<Device>, es: seq<Device>, i: nat, j: nat)
    requires multiset(ds) == multiset(es) && i < j < |es|
    requires forall i, j :: 0 <= i < j < |ds| ==> !Conflicts(ds[i], ds[j])
    ensures !Conflicts(es[i], es[j])
  {
    hide Conflicts;
    var d, e := es[i], es[j];
    if d == e {
      assert es == es[..i] + [d] + es[i + 1..j] + [e] + es[j + 1..];
      assert multiset(es)[d] >= 2;
      var _, _ := TwoPlaces(ds, d);
    } else {
      assert d in multiset(es) && e in multiset(es);
      var k :| 0 <= k < |ds| && ds[k] == d;
      var l :| 0 <= l < |ds| && ds[l] == e;
      ConflictsSymmetric(d, e);
    }
  }

  /** Decoding does not depend on the order in which conflict-free devices are added. */
  lemma {:induction false} InsertionOrderIrrelevant(ds: seq<Device>, es: seq<Device>, a: word)
    requires forall i, j :: 0 <= i < j < |ds| ==> !Conflicts(ds[i], ds[j])
    requires multiset(ds) == multiset(es)
    ensures DecodeDevice(AddAll(EMPTY_TABLE, ds).devices, a) == DecodeDevice(AddAll(EMPTY_TABLE, es).devices, a)
  {
    hide Conflicts;
    forall i, j | 0 <= i < j < |es| ensures !Conflicts(es[i], es[j]) {
      PermutationConflictFree(ds, es, i, j);
    }
    forall d ensures d in ds <==> d in es {
      assert d in multiset(ds) <==> d in multiset(es);
    }
    SameDevicesDecodeAlike(ds, es, a);
  }

  // --- the simulator's map and routing ---

  const MEMORY_DEVICE := Device("memory", 0x0000_0000, 0x4000_0000, false)
  const TRACE_DEVICE := Device("trace", 0x4000_0000, 0x4000, true)
  const NVIC_DEVICE := Device("nvic", 0xE000_E000, 0x1000, false)
  const SIM_MAP := [MEMORY_DEVICE, TRACE_DEVICE, NVIC_DEVICE]

  /** One transaction that reached a peripheral, at the address the peripheral saw. */
  datatype Access = Access(target: string, write: bool, address: word, size: nat, value: word)

  /** Memory contents together with the outside world. */
  datatype MemState = MemState(bytes: Backing, log: seq<Access>, answer: seq<Access> -> Response)

  /** What `b_transport` does under the simulator's map: memory below 0x4000_0000, the trace
      unit at a translated address, the NVIC at its own address, an error elsewhere. */
  function Transport(m: MemState, write: bool, a: word, size: nat, v: word): (MemState, Response)
    requires size <= 4
  {
    if a < 0x4000_0000 then
      if write then
        var (b, r) := MemoryWrite(m.bytes, a, size, v);
        (m.(bytes := b), r)
      else (m, MemoryRead(m.bytes, a, size))
    else if a < 0x4000_4000 then Peripheral(m, Access("trace", write, a - 0x4000_0000, size, v))
    else if 0xE000_E000 <= a < 0xE000_F000 then Peripheral(m, Access("nvic", write, a, size, v))
    else (m, AddressError)
  }

  function Peripheral(m: MemState, x: Access): (MemState, Response) {
    var log := m.log + [x];
    (m.(log := log), m.answer(log))
  }

  lemma SimMapDecodes(a: word)
    ensures DecodeDevice(SIM_MAP, a) ==
            if a < 0x4000_0000 then Some(MEMORY_DEVICE)
            else if a < 0x4000_4000 then Some(TRACE_DEVICE)
            else if 0xE000_E000 <= a < 0xE000_F000 then Some(NVIC_DEVICE)
            else None
  {
    assert SIM_MAP[0] == MEMORY_DEVICE && SIM_MAP[1] == TRACE_DEVICE && SIM_MAP[2] == NVIC_DEVICE;
    match Decode(SIM_MAP, a) {
      case None => assert !Covers(SIM_MAP[0], a) && !Covers(SIM_MAP[1], a) && !Covers(SIM_MAP[2], a);
      case Some(i) => assert Covers(SIM_MAP[i], a);
    }
  }

  /** Each transaction reaches the device that the map decodes. The memory device answers it from the
      store and no peripheral sees it; another device sees exactly this transaction - direction, size
      and value, at the offset into its range if its entry asks for translation, else at the address
      itself - gives the answer, and the store stays; without a device there is an address error and
      nothing happens. */
  lemma {:induction false} TransportRoutes(m: MemState, write: bool, a: word, size: nat, v: word)
    requires size <= 4
    ensures var (m', r) := Transport(m, write, a, size, v);
            match DecodeDevice(SIM_MAP, a)
            case None => (m', r) == (m, AddressError)
            case Some(d) =>
              if d.name == "memory" then
                m'.log == m.log && m'.answer == m.answer
                && (if write then (m'.bytes, r) == MemoryWrite(m.bytes, a, size, v)
                    else m'.bytes == m.bytes && r == MemoryRead(m.bytes, a, size))
              else
                m' == m.(log := m.log + [Access(d.name, write, if d.translate then a - d.base else a, size, v)])
                && r == m.answer(m'.log)
  {
    hide DecodeDevice, MemoryRead, MemoryWrite;
    SimMapDecodes(a);
  }

  class BusController {
    var devices: seq<Device>
    var index: map<string, nat>
    var log: seq<Access>
    const memory: MemoryDevice
    const answer: seq<Access> -> Response

    ghost predicate Valid() { memory.Valid() }

    ghost function Footprint(): set<object> { {this, memory.data} }

    ghost function DeviceTable(): Table
      reads this
    {
      Table(devices, index)
    }

    /** The simulator's map is installed. */
    ghost predicate Configured()
      reads this
    {
      devices == SIM_MAP
    }

    ghost function State(): MemState
      reads this, memory.data
      requires Valid()
    {
      MemState(memory.Contents(), log, answer)
    }

    constructor (memory: MemoryDevice, answer: seq<Access> -> Response)
      requires memory.Valid()
      ensures Valid() && this.memory == memory && this.answer == answer && log == []
      ensures DeviceTable() == EMPTY_TABLE
    {
      this.memory := memory;
      this.answer := answer;
      devices, index, log := [], map[], [];
    }

    method AddDeviceMapping(name: string, base: word, size: word, translate: bool)
      modifies this`devices, this`index
      ensures DeviceTable() == AddDevice(old(DeviceTable()), Device(name, base, size, translate))
    {
      var d := Device(name, base, size, translate);
      for i := 0 to |devices|
        invariant forall k :: 0 <= k < i ==> !Conflicts(devices[k], d)
      {
        var devEnd := Wrap(devices[i].base + devices[i].size - 1);
        var newEnd := Wrap(base + size - 1);
        if !(base > devEnd || newEnd < devices[i].base) {
          assert Conflicts(devices[i], d);
          return;
        }
      }
      index := index[name := |devices|];
      devices := devices + [d];
    }

    method SetupMemoryMap()
      requires DeviceTable() == EMPTY_TABLE
      modifies this`devices, this`index
      ensures Configured()
    {
      AddDeviceMapping("memory", 0x0000_0000, 0x4000_0000, false);
      AddDeviceMapping("trace", 0x4000_0000, 0x4000, true);
      AddDeviceMapping("nvic", 0xE000_E000, 0x1000, false);
    }

    method DecodeAddress(a: word) returns (r: Option<nat>)
      ensures r == Decode(devices, a)
    {
      for i := 0 to |devices|
        invariant forall j :: 0 <= j < i ==> !Covers(devices[j], a)
      {
        if devices[i].base <= a < Wrap(devices[i].base + devices[i].size) {
          return Some(i);
        }
      }
      r := None;
    }

    method BTransport(write: bool, a: word, size: nat, v: word) returns (r: Response)
      requires Valid() && Configured() && size <= 4
      modifies this`log, memory.data
      ensures (State(), r) == Transport(old(State()), write, a, size, v)
    {
      SimMapDecodes(a);
      var target := DecodeAddress(a);
      if target.None? {
        return AddressError;
      }
      var d := devices[target.value];
      var address := a;
      if d.translate {
        address := Wrap(a - d.base);
      }
      if d.name == "memory" {
        if write {
          r := memory.HandleWrite(address, size, v);
        } else {
          r := memory.HandleRead(address, size);
        }
      } else {
        log := log + [Access(d.name, write, address, size, v)];
        r := answer(log);
      }
    }

    /** Direct memory is granted for the memory device only. */
    method GetDirectMemPtr(a: word) returns (r: Option<Dmi>)
      requires Configured()
      ensures r == DirectMemory(a)
    {
      SimMapDecodes(a);
      var target := DecodeAddress(a);
      if target.Some? && devices[target.value].name == "memory" {
        r := memory.GetDirectMemPtr(a);
      } else {
        r := None;
      }
    }
  }
}
