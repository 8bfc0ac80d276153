/** The memory commands of the GDB server: `handle_read_memory` and `handle_write_memory` of
    src/debug/GDBServer.cpp over the one-byte transactions of CPU::read_memory_debug and
    CPU::write_memory_debug. */
module GdbMemory {
  import opened Words
  import opened Memory
  import opened BusCtrl
  import opened HexText

  /** `std::string::find(c, from)`. */
  function Find(s: string, c: char, from: nat): (r: Option<nat>)
    ensures r.Some? ==> from <= r.value < |s| && s[r.value] == c && forall i :: from <= i < r.value ==> s[i] != c
    ensures r.None? ==> forall i :: from <= i < |s| ==> s[i] != c
    decreases |s| - from
  {
    if from >= |s| then None
    else if s[from] == c then Some(from)
    else Find(s, c, from + 1)
  }

  /** Two digits at most, as `substr(pos, 2)` cuts them off. */
  function TwoAt(s: string, pos: nat): string
    requires pos <= |s|
  {
    if pos + 2 <= |s| then s[pos..pos + 2] else s[pos..]
  }

  // --- the loops over bytes ---

  /** `read_memory_debug` and `to_hex`; a failed transaction throws. */
  function ReadByte(m: MemState, a: word): (MemState, Option<string>) {
    var (m', t) := Transport(m, false, a, 1, 0);
    (m', if t.Okay? then Some(ToHex(t.value % 256)) else None)
  }

  /** `substr` and `write_memory_debug`; both may throw. */
  function WriteByte(m: MemState, a: word, data: string, pos: nat): (MemState, bool) {
    if pos > |data| then (m, false)
    else
      var (m', t) := Transport(m, true, a, 1, ParseHex(TwoAt(data, pos)) % 256);
      (m', t.Okay?)
  }

  /** What was read before a failure is lost. */
  function ReadBytes(m: MemState, a: word, n: nat): (MemState, Option<string>)
    decreases n
  {
    if n == 0 then (m, Some(""))
    else
      var (m1, r) := ReadBytes(m, a, n - 1);
      if r.None? then (m1, None)
      else
        var (m2, byte) := ReadByte(m1, Wrap(a + (n - 1)));
        (m2, if byte.Some? then Some(r.value + byte.value) else None)
  }

  /** What was written before a failure stays written. */
  function WriteBytes(m: MemState, a: word, data: string, n: nat): (MemState, bool)
    decreases n
  {
    if n == 0 then (m, true)
    else
      var (m1, ok) := WriteBytes(m, a, data, n - 1);
      if !ok then (m1, false) else WriteByte(m1, Wrap(a + (n - 1)), data, 2 * (n - 1))
  }

  // --- the commands ---

  const READ_LIMIT := 1024

  function ReadCommand(m: MemState, args: string): (MemState, string) {
    match Find(args, ',', 0)
    case None => (m, "E01")
    case Some(comma) =>
      var length := ParseHex(args[comma + 1..]);
      if length > READ_LIMIT then (m, "E02")
      else
        var (m', r) := ReadBytes(m, ParseHex(args[..comma]), length);
        (m', if r.Some? then r.value else "E03")
  }

  /** The digit count is compared with `length * 2` in 32 bits. */
  function WriteCommand(m: MemState, packet: string): (MemState, string) {
    match Find(packet, ',', 1)
    case None => (m, "E01")
    case Some(comma) =>
      match Find(packet, ':', comma)
      case None => (m, "E01")
      case Some(colon) =>
        var length := ParseHex(packet[comma + 1..colon]);
        var data := packet[colon + 1..];
        if |data| != Wrap(length * 2) then (m, "E02")
        else
          var (m', ok) := WriteBytes(m, ParseHex(packet[1..comma]), data, length);
          (m', if ok then "OK" else "E03")
  }

  // --- what the loops do inside one memory region ---

  lemma ByteReadInRegion(m: MemState, a: word)
    requires InRegion(a, 1)
    ensures ReadByte(m, a) == (m, Some(ToHex(m.bytes[Offset(a)])))
  {
    hide ToHex;
    assert m.bytes[Offset(a)..Offset(a) + 1] == [m.bytes[Offset(a)]];
  }

  lemma ByteWriteInRegion(m: MemState, a: word, data: string, pos: nat)
    requires InRegion(a, 1) && pos <= |data|
    ensures WriteByte(m, a, data, pos) ==
            (m.(bytes := Splice(m.bytes, Offset(a), [ParseHex(TwoAt(data, pos)) % 256])), true)
  {
    hide ParseHex, TwoAt, Splice;
    var v: byte := ParseHex(TwoAt(data, pos)) % 256;
    LowByte(v);
  }

  lemma LowByte(v: byte)
    ensures BytesOf(v, 1) == [v]
  {
  }

  function Spelled(bs: seq<byte>): (s: string)
    ensures |s| == 2 * |bs|
    decreases |bs|
  {
    if bs == [] then "" else Spelled(bs[..|bs| - 1]) + ToHex(bs[|bs| - 1])
  }

  lemma SpelledLast(bs: seq<byte>, b: byte)
    requires bs != [] && bs[|bs| - 1] == b
    ensures Spelled(bs) == Spelled(bs[..|bs| - 1]) + ToHex(b)
  {
    hide ToHex;
  }

  function Parsed(data: string, n: nat): (bs: seq<byte>)
    requires 2 * n <= |data|
    ensures |bs| == n
  {
    seq(n, i requires 0 <= i < n => ParseHex(data[2 * i..2 * i + 2]) % 256)
  }

  lemma {:induction false} ReadBytesInRegion(m: MemState, a: word, n: nat)
    requires InRegion(a, n)
    ensures ReadBytes(m, a, n) == (m, Some(Spelled(m.bytes[Offset(a)..Offset(a) + n])))
  {
    hide ReadByte, ToHex, Spelled, Offset, InRegion, Wrap;
    if n == 0 {
      SpelledNothing(m, a);
    } else {
      RegionShrinks(a, n);
      ReadBytesInRegion(m, a, n - 1);
      ByteReadInRegion(m, a + (n - 1));
      WrapWord(a + (n - 1));
      var bs := m.bytes[Offset(a)..Offset(a) + n];
      assert bs[..n - 1] == m.bytes[Offset(a)..Offset(a) + (n - 1)];
      SpelledLast(bs, m.bytes[Offset(a + (n - 1))]);
    }
  }

  lemma SpelledNothing(m: MemState, a: word)
    requires InRegion(a, 0)
    ensures Spelled(m.bytes[Offset(a)..Offset(a) + 0]) == ""
  {
    assert m.bytes[Offset(a)..Offset(a) + 0] == [];
  }

  lemma RegionShrinks(a: word, n: nat)
    requires InRegion(a, n) && n > 0
    ensures InRegion(a, n - 1) && a + (n - 1) < TWO32 && InRegion(a + (n - 1), 1)
    ensures Offset(a + (n - 1)) == Offset(a) + (n - 1) && Offset(a) + n <= MEM_SIZE
  {
  }

  lemma {:induction false} WriteBytesInRegion(m: MemState, a: word, data: string, n: nat)
    requires InRegion(a, n) && 2 * n <= |data|
    ensures WriteBytes(m, a, data, n) == (m.(bytes := Splice(m.bytes, Offset(a), Parsed(data, n))), true)
  {
    hide WriteByte, ParseHex, Splice;
    if n == 0 {
      NothingSpliced(m.bytes, Offset(a));
    } else {
      WriteBytesInRegion(m, a, data, n - 1);
      var v: byte := ParseHex(data[2 * (n - 1)..2 * (n - 1) + 2]) % 256;
      var m1 := m.(bytes := Splice(m.bytes, Offset(a), Parsed(data, n - 1)));
      ByteWriteInRegion(m1, a + (n - 1), data, 2 * (n - 1));
      WrapWord(a + (n - 1));
      SpliceNext(m.bytes, Offset(a), Parsed(data, n - 1), v);
      assert Parsed(data, n) == Parsed(data, n - 1) + [v];
    }
  }

  lemma NothingSpliced(b: Backing, off: nat)
    requires off <= MEM_SIZE
    ensures Splice(b, off, []) == b
  {
  }

  lemma SpliceNext(b: Backing, off: nat, d: seq<byte>, v: byte)
    requires off + |d| < MEM_SIZE
    ensures Splice(Splice(b, off, d), off + |d|, [v]) == Splice(b, off, d + [v])
  {
  }

  /** Printing the bytes that hex text denotes gives the text in lower case. */
  lemma {:induction false} SpelledParsed(data: string, n: nat)
    requires AllHex(data) && |data| == 2 * n
    ensures Spelled(Parsed(data, n)) == Lower(data)
    decreases n
  {
    hide ToHex, ParseHex, Lower, IsHex, Parsed;
    if n == 0 {
      assert Parsed(data, 0) == [] && Lower(data) == "";
    } else {
      var front, pair := data[..2 * (n - 1)], data[2 * (n - 1)..];
      SpelledParsed(front, n - 1);
      PairRoundTrip(pair);
      ParsedFront(data, n);
      LastParsed(data, n);
      LowerSplits(data, 2 * (n - 1));
      hide Spelled;
      SpelledLast(Parsed(data, n), ParseHex(pair));
    }
  }

  lemma LastParsed(data: string, n: nat)
    requires |data| == 2 * n && n > 0 && ParseHex(data[2 * (n - 1)..]) < 256
    ensures Parsed(data, n)[n - 1] == ParseHex(data[2 * (n - 1)..])
  {
    hide ParseHex;
    assert data[2 * (n - 1)..2 * (n - 1) + 2] == data[2 * (n - 1)..];
  }

  lemma LowerSplits(s: string, k: nat)
    requires k <= |s|
    ensures Lower(s) == Lower(s[..k]) + Lower(s[k..])
  {
  }

  lemma ParsedFront(data: string, n: nat)
    requires 0 < n && 2 * n <= |data|
    ensures Parsed(data, n)[..n - 1] == Parsed(data[..2 * (n - 1)], n - 1)
  {
    hide ParseHex;
    forall i | 0 <= i < n - 1
      ensures Parsed(data, n)[i] == Parsed(data[..2 * (n - 1)], n - 1)[i]
    {
      assert data[2 * i..2 * i + 2] == data[..2 * (n - 1)][2 * i..2 * i + 2];
    }
  }

  // --- the two commands together ---

  predicate SameExcept(b: Backing, b': Backing, off: nat, n: nat) {
    forall i :: 0 <= i < MEM_SIZE && !(off <= i < off + n) ==> b'[i] == b[i]
  }

  predicate Lacks(s: string, c: char) { forall i :: 0 <= i < |s| ==> s[i] != c }

  lemma FindSplits(front: string, c: char, rest: string, from: nat)
    requires from <= |front| && Lacks(front[from..], c)
    ensures Find(front + [c] + rest, c, from) == Some(|front|)
  {
    var s := front + [c] + rest;
    forall i | from <= i < |front| ensures s[i] != c {
      assert s[i] == front[from..][i - from];
    }
    assert s[|front|] == c;
  }

  /** How a write packet is taken apart: the spellings of address and length are any text that
      keeps the separators apart. */
  lemma {:induction false} WriteParses(m: MemState, addr: string, len: string, data: string)
    requires Lacks(addr, ',') && Lacks(len, ':')
    ensures WriteCommand(m, "M" + addr + "," + len + ":" + data) ==
            if |data| != Wrap(ParseHex(len) * 2) then (m, "E02")
            else
              var (m', ok) := WriteBytes(m, ParseHex(addr), data, ParseHex(len));
              (m', if ok then "OK" else "E03")
  {
    hide ParseHex, WriteBytes, Find, Wrap;
    var front := "M" + addr;
    var head := front + "," + len;
    var packet := head + ":" + data;
    assert front[1..] == addr && head[|front|..] == "," + len;
    FindSplits(front, ',', len + ":" + data, 1);
    assert packet == front + [','] + (len + ":" + data);
    FindSplits(head, ':', data, |front|);
    assert packet == head + [':'] + data;
    assert packet[1..|front|] == addr && packet[|front| + 1..|head|] == len && packet[|head| + 1..] == data;
  }

  /** A write of `n` bytes given by `2 n` digits to a range inside one region answers OK and
      changes exactly those bytes. */
  lemma {:induction false} WriteStores(m: MemState, addr: string, len: string, data: string)
    requires Lacks(addr, ',') && Lacks(len, ':')
    requires InRegion(ParseHex(addr), ParseHex(len)) && |data| == 2 * ParseHex(len)
    ensures WriteCommand(m, "M" + addr + "," + len + ":" + data) ==
            (m.(bytes := Splice(m.bytes, Offset(ParseHex(addr)), Parsed(data, ParseHex(len)))), "OK")
  {
    hide ParseHex, WriteBytes, WriteCommand, Splice, Parsed;
    WriteParses(m, addr, len, data);
    WrapWord(ParseHex(len) * 2);
    WriteBytesInRegion(m, ParseHex(addr), data, ParseHex(len));
  }

  lemma {:induction false} ReadReturns(m: MemState, addr: string, len: string)
    requires Lacks(addr, ',') && InRegion(ParseHex(addr), ParseHex(len))
    ensures ReadCommand(m, addr + "," + len) ==
            (m, if ParseHex(len) > 1024 then "E02"
                else Spelled(m.bytes[Offset(ParseHex(addr))..Offset(ParseHex(addr)) + ParseHex(len)]))
  {
    hide ParseHex, ReadBytes, Find, Spelled;
    var args := addr + "," + len;
    assert addr[0..] == addr;
    FindSplits(addr, ',', len, 0);
    assert args[..|addr|] == addr && args[|addr| + 1..] == len;
    ReadBytesInRegion(m, ParseHex(addr), ParseHex(len));
  }

  /** Writing hex text to memory and reading the same range gives back the text in lower case,
      exactly when the range is within the read limit; nothing else in memory changes. */
  lemma {:induction false} WriteThenRead(m: MemState, addr: string, len: string, data: string)
    requires Lacks(addr, ',') && Lacks(len, ':')
    requires InRegion(ParseHex(addr), ParseHex(len)) && |data| == 2 * ParseHex(len) && AllHex(data)
    ensures var (m', reply) := WriteCommand(m, "M" + addr + "," + len + ":" + data);
            && reply == "OK"
            && ReadCommand(m', addr + "," + len).0 == m'
            && (ReadCommand(m', addr + "," + len).1 == Lower(data) <==> ParseHex(len) <= 1024)
            && m'.log == m.log
            && SameExcept(m.bytes, m'.bytes, Offset(ParseHex(addr)), ParseHex(len))
  {
    hide ParseHex, WriteCommand, ReadCommand, Spelled, Parsed;
    var off, n := Offset(ParseHex(addr)), ParseHex(len);
    WriteStores(m, addr, len, data);
    var bytes := Splice(m.bytes, off, Parsed(data, n));
    ReadReturns(m.(bytes := bytes), addr, len);
    assert bytes[off..off + n] == Parsed(data, n);
    SpelledParsed(data, n);
  }

  // --- commands that fail ---

  /** Without its separators a command is answered E01 and does nothing. */
  lemma MalformedRefused(m: MemState, s: string)
    ensures Lacks(s, ',') ==> ReadCommand(m, s) == (m, "E01") && WriteCommand(m, s) == (m, "E01")
    ensures Lacks(s, ':') ==> WriteCommand(m, s) == (m, "E01")
  {
  }

  /** No device answers at the address. */
  predicate NothingAt(a: word) { 0x4000_4000 <= a < 0xE000_E000 || 0xE000_F000 <= a }

  lemma {:induction false} ReadFailsAtOnce(m: MemState, a: word, n: nat)
    requires NothingAt(a) && n > 0
    ensures ReadBytes(m, a, n) == (m, None)
    decreases n
  {
    hide ToHex, Wrap;
    WrapWord(a);
    if n > 1 {
      ReadFailsAtOnce(m, a, n - 1);
    } else {
      assert ReadBytes(m, a, 0) == (m, Some(""));
    }
  }

  lemma {:induction false} WriteFailsAtOnce(m: MemState, a: word, data: string, n: nat)
    requires NothingAt(a) && n > 0
    ensures WriteBytes(m, a, data, n) == (m, false)
    decreases n
  {
    hide ParseHex, Wrap;
    WrapWord(a);
    if n > 1 {
      WriteFailsAtOnce(m, a, data, n - 1);
    } else {
      assert WriteBytes(m, a, data, 0) == (m, true);
    }
  }

  /** Reading or writing where no device answers is answered E03 and changes nothing. */
  lemma {:induction false} NothingThereFails(m: MemState, addr: string, len: string, data: string)
    requires Lacks(addr, ',') && Lacks(len, ':') && NothingAt(ParseHex(addr)) && ParseHex(len) > 0
    ensures ParseHex(len) <= 1024 ==> ReadCommand(m, addr + "," + len) == (m, "E03")
    ensures |data| == 2 * ParseHex(len) && ParseHex(len) < 0x8000_0000 ==>
              WriteCommand(m, "M" + addr + "," + len + ":" + data) == (m, "E03")
  {
    hide ParseHex, ReadBytes, WriteBytes, WriteCommand, Find;
    var args := addr + "," + len;
    assert addr[0..] == addr;
    FindSplits(addr, ',', len, 0);
    assert args[..|addr|] == addr && args[|addr| + 1..] == len;
    ReadFailsAtOnce(m, ParseHex(addr), ParseHex(len));
    WriteParses(m, addr, len, data);
    WriteFailsAtOnce(m, ParseHex(addr), data, ParseHex(len));
  }

  // --- lengths that wrap ---

  /** The digit count and the length agree in 32 bits but not as numbers. */
  predicate WrappedLength(len: word, digits: nat) {
    len >= 0x8000_0000 && digits == 2 * len - TWO32
  }

  /** A write whose digit count does not match its length is refused, with memory as it was, if
      and only if the two do not agree in 32 bits either. It never answers OK. */
  lemma {:induction false} MismatchRefusedIff(m: MemState, addr: string, len: string, data: string)
    requires Lacks(addr, ',') && Lacks(len, ':') && |data| != 2 * ParseHex(len)
    ensures WriteCommand(m, "M" + addr + "," + len + ":" + data) == (m, "E02")
            <==> !WrappedLength(ParseHex(len), |data|)
    ensures WriteCommand(m, "M" + addr + "," + len + ":" + data).1 != "OK"
  {
    hide ParseHex, WriteBytes, WriteCommand;
    WriteParses(m, addr, len, data);
    DoubledLength(ParseHex(len), |data|);
    SuccessNeedsDigits(m, ParseHex(addr), data, ParseHex(len));
  }

  lemma SuccessNeedsDigits(m: MemState, a: word, data: string, n: nat)
    ensures WriteBytes(m, a, data, n).1 && n > 0 ==> 2 * (n - 1) <= |data|
  {
    hide ParseHex, Transport;
  }

  lemma DoubledLength(len: word, digits: nat)
    ensures digits == Wrap(len * 2) <==> (digits == 2 * len && len < 0x8000_0000) || WrappedLength(len, digits)
  {
  }

  /** What a mismatched write that gets through does, wherever it fits into one region: it stores
      the bytes it has digits for and a zero behind them, then fails. */
  lemma {:induction false} WrappedWriteEffect(m: MemState, addr: string, len: string, data: string)
    requires Lacks(addr, ',') && Lacks(len, ':') && WrappedLength(ParseHex(len), |data|)
    requires InRegion(ParseHex(addr), |data| / 2 + 1)
    ensures var stored := Parsed(data, |data| / 2) + [0];
            WriteCommand(m, "M" + addr + "," + len + ":" + data) ==
            (m.(bytes := Splice(m.bytes, Offset(ParseHex(addr)), stored)), "E03")
  {
    hide ParseHex, WriteBytes, WriteByte, WriteCommand, Splice, Parsed, InRegion;
    WriteParses(m, addr, len, data);
    DoubledLength(ParseHex(len), |data|);
    var k := |data| / 2;
    DigitsRunOut(m, ParseHex(addr), data, k);
    WriteFailureStays(m, ParseHex(addr), data, k + 2, ParseHex(len));
  }

  lemma DigitsRunOut(m: MemState, a: word, data: string, k: nat)
    requires |data| == 2 * k && InRegion(a, k + 1)
    ensures WriteBytes(m, a, data, k + 2) ==
            (m.(bytes := Splice(m.bytes, Offset(a), Parsed(data, k) + [0])), false)
  {
    hide Splice, Parsed, WriteByte;
    WriteBytesInRegion(m, a, data, k);
    var m1 := m.(bytes := Splice(m.bytes, Offset(a), Parsed(data, k)));
    WrapWord(a + k);
    ByteWriteInRegion(m1, a + k, data, 2 * k);
    assert TwoAt(data, 2 * k) == "";
    SpliceNext(m.bytes, Offset(a), Parsed(data, k), 0);
    assert WriteBytes(m, a, data, k + 1) == WriteByte(m1, a + k, data, 2 * k);
    PastTheDigits(WriteByte(m1, a + k, data, 2 * k).0, Wrap(a + (k + 1)), data, 2 * (k + 1));
  }

  lemma PastTheDigits(m: MemState, a: word, data: string, pos: nat)
    requires pos > |data|
    ensures WriteByte(m, a, data, pos) == (m, false)
  {
  }

  /** The smallest case: half the address space with no data at all zeroes one byte. */
  lemma EmptyWriteZeroesAByte(m: MemState, addr: string, len: string)
    requires Lacks(addr, ',') && Lacks(len, ':')
    requires InRegion(ParseHex(addr), 1) && ParseHex(len) == 0x8000_0000
    ensures WriteCommand(m, "M" + addr + "," + len + ":") ==
            (m.(bytes := Splice(m.bytes, Offset(ParseHex(addr)), [0])), "E03")
  {
    hide ParseHex, WriteCommand, Splice;
    assert "M" + addr + "," + len + ":" + "" == "M" + addr + "," + len + ":";
    assert Parsed("", 0) + [0] == [0];
    WrappedWriteEffect(m, addr, len, "");
  }

  // --- the server ---

  class DebugServer {
    const bus: BusController

    ghost predicate Valid()
      reads bus
    {
      bus.Valid() && bus.Configured()
    }

    constructor (bus: BusController)
      requires bus.Valid() && bus.Configured()
      ensures this.bus == bus && Valid()
    {
      this.bus := bus;
    }

    method HandleReadMemory(args: string) returns (reply: string)
      requires Valid()
      modifies bus`log, bus.memory.data
      ensures Valid() && (bus.State(), reply) == ReadCommand(old(bus.State()), args)
    {
      hide ReadByte, ParseHex, Transport;
      var comma := Find(args, ',', 0);
      if comma.None? {
        return "E01";
      }
      var address := ParseHexDigits(args[..comma.value]);
      var length := ParseHexDigits(args[comma.value + 1..]);
      if length > READ_LIMIT {
        return "E02";
      }
      reply := "";
      for i := 0 to length
        invariant Valid() && ReadBytes(old(bus.State()), address, i) == (bus.State(), Some(reply))
      {
        var digits := ReadMemoryDebug(Wrap(address + i));
        if digits.None? {
          ReadFailureStays(old(bus.State()), address, i + 1, length);
          return "E03";
        }
        reply := reply + digits.value;
      }
    }

    method ReadMemoryDebug(a: word) returns (digits: Option<string>)
      requires Valid()
      modifies bus`log, bus.memory.data
      ensures Valid() && (bus.State(), digits) == ReadByte(old(bus.State()), a)
    {
      var data := bus.BTransport(false, a, 1, 0);
      digits := if data.Okay? then Some(ToHex(data.value % 256)) else None;
    }

    method WriteMemoryDebug(a: word, data: string, pos: nat) returns (done: bool)
      requires Valid()
      modifies bus`log, bus.memory.data
      ensures Valid() && (bus.State(), done) == WriteByte(old(bus.State()), a, data, pos)
    {
      if pos > |data| {
        return false;
      }
      var value := ParseHexDigits(TwoAt(data, pos));
      var response := bus.BTransport(true, a, 1, value % 256);
      done := response.Okay?;
    }

    method HandleWriteMemory(packet: string) returns (reply: string)
      requires Valid()
      modifies bus`log, bus.memory.data
      ensures Valid() && (bus.State(), reply) == WriteCommand(old(bus.State()), packet)
    {
      hide WriteByte, ParseHex, Transport;
      var comma := Find(packet, ',', 1);
      if comma.None? {
        return "E01";
      }
      var colon := Find(packet, ':', comma.value);
      if colon.None? {
        return "E01";
      }
      var address := ParseHexDigits(packet[1..comma.value]);
      var length := ParseHexDigits(packet[comma.value + 1..colon.value]);
      var data := packet[colon.value + 1..];
      var digits := (length as int) * 2;
      if |data| != Wrap(digits) {
        return "E02";
      }
      for i := 0 to length
        invariant Valid() && WriteBytes(old(bus.State()), address, data, i) == (bus.State(), true)
      {
        var done := WriteMemoryDebug(Wrap(address + i), data, 2 * i);
        if !done {
          WriteFailureStays(old(bus.State()), address, data, i + 1, length);
          return "E03";
        }
      }
      reply := "OK";
    }
  }

  lemma {:induction false} ReadFailureStays(m: MemState, a: word, k: nat, n: nat)
    requires k <= n && ReadBytes(m, a, k).1.None?
    ensures ReadBytes(m, a, n) == ReadBytes(m, a, k)
    decreases n
  {
    hide ReadByte;
    if k < n {
      ReadFailureStays(m, a, k, n - 1);
    }
  }

  lemma {:induction false} WriteFailureStays(m: MemState, a: word, data: string, k: nat, n: nat)
    requires k <= n && !WriteBytes(m, a, data, k).1
    ensures WriteBytes(m, a, data, n) == WriteBytes(m, a, data, k)
    decreases n
  {
    hide WriteByte;
    if k < n {
      WriteFailureStays(m, a, data, k, n - 1);
    }
  }
}
