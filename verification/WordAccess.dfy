/** Word loads and stores over the bus, and what they do inside one memory region. */
module WordAccess {
  import opened Words
  import opened Memory
  import opened BusCtrl
  import opened DataPort

  function LoadWord(m: MemState, a: word): word { BusRead(m, a, 4).1 }

  /** The state after a load; a load from a peripheral is visible to it. */
  function AfterLoad(m: MemState, a: word): MemState { BusRead(m, a, 4).0 }

  function StoreWord(m: MemState, a: word, v: word): MemState { BusWrite(m, a, 4, v) }

  /** Only the `n` bytes at address `a` may differ between the two states. */
  ghost predicate SameOutside(m: MemState, m': MemState, a: word, n: nat) {
    forall i :: 0 <= i < MEM_SIZE && !(Offset(a) <= i < Offset(a) + n) ==> m'.bytes[i] == m.bytes[i]
  }

  /** The words at `a`, `a + 4`, ... are `ws`, all in one region. */
  ghost predicate Holds(m: MemState, a: word, ws: seq<word>) {
    InRegion(a, 4 * |ws|) && forall k :: 0 <= k < |ws| ==> LoadWord(m, a + 4 * k) == ws[k]
  }

  predicate Apart(a: word, n: nat, b: word, k: nat) { a + n <= b || b + k <= a }

  lemma LoadInRegion(m: MemState, a: word)
    requires InRegion(a, 4)
    ensures AfterLoad(m, a) == m
    ensures LoadWord(m, a) == LittleEndian(m.bytes[Offset(a)..Offset(a) + 4])
  {
  }

  lemma StoreInRegion(m: MemState, a: word, v: word)
    requires InRegion(a, 4)
    ensures StoreWord(m, a, v) == m.(bytes := Splice(m.bytes, Offset(a), BytesOf(v, 4)))
    ensures LoadWord(StoreWord(m, a, v), a) == v
    ensures SameOutside(m, StoreWord(m, a, v), a, 4)
  {
    var m' := StoreWord(m, a, v);
    LoadInRegion(m', a);
    assert m'.bytes[Offset(a)..Offset(a) + 4] == BytesOf(v, 4);
    WordBytesRoundTrip(v);
  }

  /** The byte at `a + k`. */
  function ByteAt(m: MemState, a: word, k: nat): byte
    requires InRegion(a, k + 1)
  {
    m.bytes[Offset(a) + k]
  }

  /** A read of one, two or four bytes in a region gives the bytes there, lowest address lowest, with
      zeros above them, and changes nothing. */
  lemma ReadsBytes(m: MemState, a: word, n: nat)
    requires AccessSize(n) && InRegion(a, n)
    ensures BusRead(m, a, n).0 == m
    ensures BusRead(m, a, n).1 ==
            if n == 1 then ByteAt(m, a, 0)
            else if n == 2 then ByteAt(m, a, 0) + 0x100 * ByteAt(m, a, 1)
            else ByteAt(m, a, 0) + 0x100 * ByteAt(m, a, 1) + 0x1_0000 * ByteAt(m, a, 2) + 0x100_0000 * ByteAt(m, a, 3)
  {
  }

  /** 256 to the `n`. */
  function Capacity(n: nat): nat { if n == 1 then 0x100 else if n == 2 then 0x1_0000 else TWO32 }

  /** A write of one, two or four bytes in a region stores the low bytes of the value there and changes
      no other byte. */
  lemma WritesBytes(m: MemState, a: word, n: nat, v: word)
    requires AccessSize(n) && InRegion(a, n)
    ensures var m' := BusWrite(m, a, n, v);
            && m' == m.(bytes := m'.bytes) && SameOutside(m, m', a, n)
            && BusRead(m', a, n).1 == v % Capacity(n)
  {
    hide BusWrite, BusRead, BytesOf, LittleEndian, Splice;
    WriteShape(m, a, n, v);
    var m' := BusWrite(m, a, n, v);
    ReadShape(m', a, n);
    LowBytes(v, n);
    assert m'.bytes[Offset(a)..Offset(a) + n] == BytesOf(v, n);
  }

  lemma WriteShape(m: MemState, a: word, n: nat, v: word)
    requires AccessSize(n) && InRegion(a, n)
    ensures BusWrite(m, a, n, v) == m.(bytes := Splice(m.bytes, Offset(a), BytesOf(v, n)))
  {
    hide BytesOf, Splice;
  }

  lemma ReadShape(m: MemState, a: word, n: nat)
    requires AccessSize(n) && InRegion(a, n)
    ensures BusRead(m, a, n).1 == LittleEndian(m.bytes[Offset(a)..Offset(a) + n])
  {
    hide LittleEndian;
  }

  lemma LowBytes(v: word, n: nat)
    requires AccessSize(n)
    ensures LittleEndian(BytesOf(v, n)) == v % Capacity(n)
  {
    if n == 4 {
      WordBytesRoundTrip(v);
    } else if n == 2 {
      LowHalf(v);
    }
  }

  lemma LowHalf(v: word)
    ensures v % 0x1_0000 == v % 0x100 + 0x100 * (v / 0x100 % 0x100)
  {
  }

  /** A load outside the changed bytes is unaffected. */
  lemma LoadUnchanged(m: MemState, m': MemState, a: word, n: nat, b: word)
    requires InRegion(a, n) && InRegion(b, 4) && Apart(a, n, b, 4)
    requires SameOutside(m, m', a, n)
    ensures LoadWord(m', b) == LoadWord(m, b)
  {
    LoadInRegion(m, b);
    LoadInRegion(m', b);
    assert m'.bytes[Offset(b)..Offset(b) + 4] == m.bytes[Offset(b)..Offset(b) + 4];
  }

  lemma HoldsUnchanged(m: MemState, m': MemState, a: word, n: nat, b: word, ws: seq<word>)
    requires InRegion(a, n) && Holds(m, b, ws) && Apart(a, n, b, 4 * |ws|)
    requires SameOutside(m, m', a, n)
    ensures Holds(m', b, ws)
  {
    forall k | 0 <= k < |ws| ensures LoadWord(m', b + 4 * k) == ws[k] {
      LoadUnchanged(m, m', a, n, b + 4 * k);
    }
  }

  // --- runs of words ---

  /** Stores `ws` downwards from `sp`, the first word highest. */
  function StoreDown(m: MemState, sp: word, ws: seq<word>): MemState
    decreases |ws|
  {
    if ws == [] then m
    else
      var a := Wrap(sp - 4);
      StoreDown(StoreWord(m, a, ws[0]), a, ws[1..])
  }

  /** Loads `n` words upwards from `sp`. */
  function LoadUp(m: MemState, sp: word, n: nat): (r: (seq<word>, MemState))
    ensures |r.0| == n
    decreases n
  {
    if n == 0 then ([], m)
    else
      var (ws, m') := LoadUp(AfterLoad(m, sp), Wrap(sp + 4), n - 1);
      ([LoadWord(m, sp)] + ws, m')
  }

  function Reverse(ws: seq<word>): (r: seq<word>)
    ensures |r| == |ws|
    ensures forall k :: 0 <= k < |ws| ==> r[k] == ws[|ws| - 1 - k]
  {
    seq(|ws|, k requires 0 <= k < |ws| => ws[|ws| - 1 - k])
  }

  lemma {:induction false} StoreDownHolds(m: MemState, base: word, ws: seq<word>)
    requires InRegion(base, 4 * |ws|)
    ensures var m' := StoreDown(m, base + 4 * |ws|, ws);
            && Holds(m', base, Reverse(ws)) && SameOutside(m, m', base, 4 * |ws|)
            && m'.log == m.log && m'.answer == m.answer
    decreases |ws|
  {
    hide LoadWord, StoreWord;
    if ws != [] {
      var n := |ws| - 1;
      var top := base + 4 * n;
      var m1 := StoreWord(m, top, ws[0]);
      StoreInRegion(m, top, ws[0]);
      StoreDownHolds(m1, base, ws[1..]);
      var m' := StoreDown(m1, top, ws[1..]);
      LoadUnchanged(m1, m', base, 4 * n, top);
      assert Wrap(base + 4 * |ws| - 4) == top;
      assert m' == StoreDown(m, base + 4 * |ws|, ws);
      forall k | 0 <= k < |ws| ensures LoadWord(m', base + 4 * k) == Reverse(ws)[k] {
        if k < n {
          assert Reverse(ws[1..])[k] == Reverse(ws)[k];
        }
      }
    }
  }

  lemma {:induction false} LoadUpHolds(m: MemState, base: word, ws: seq<word>)
    requires Holds(m, base, ws) && base + 4 * |ws| < TWO32
    ensures LoadUp(m, base, |ws|) == (ws, m)
    decreases |ws|
  {
    hide LoadWord, AfterLoad;
    if ws != [] {
      LoadInRegion(m, base);
      assert LoadWord(m, base + 4 * 0) == ws[0];
      forall k | 0 <= k < |ws[1..]| ensures LoadWord(m, base + 4 + 4 * k) == ws[1..][k] {
        assert LoadWord(m, base + 4 * (k + 1)) == ws[k + 1];
      }
      if |ws| > 1 {
        LoadUpHolds(m, base + 4, ws[1..]);
        assert Wrap(base + 4) == base + 4;
      }
      assert ws == [ws[0]] + ws[1..];
    }
  }
}
