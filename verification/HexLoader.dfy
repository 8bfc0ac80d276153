/** The Intel HEX loader: `parse_hex_line` and `load_hex_file` of src/memory/Memory.cpp. */
module HexLoader {
  import opened Words
  import opened Memory
  import opened HexText

  // --- numbers: `std::stoi(s, nullptr, 16)` ---

  predicate IsSpace(c: char) { c == ' ' || '\t' <= c <= '\r' }

  function SkipSpaces(s: string): string {
    if s != "" && IsSpace(s[0]) then SkipSpaces(s[1..]) else s
  }

  function SkipPrefix(s: string): string {
    if |s| >= 3 && s[0] == '0' && (s[1] == 'x' || s[1] == 'X') && IsHex(s[2]) then s[2..] else s
  }

  /** The value of the hex digits `s` starts with, appended to `v`. */
  function LeadingHex(v: nat, s: string): nat
    decreases |s|
  {
    if s != "" && IsHex(s[0]) then LeadingHex(v * 16 + Digit(s[0]), s[1..]) else v
  }

  /** White space, a sign, a prefix, digits; anything after the digits is ignored, and having
      no digits throws. The calls below pass four characters at most, so nothing overflows. */
  function Stoi(s: string): Option<int> {
    var t := SkipSpaces(s);
    var signed := t != "" && (t[0] == '+' || t[0] == '-');
    var u := SkipPrefix(if signed then t[1..] else t);
    if u == "" || !IsHex(u[0]) then None
    else if signed && t[0] == '-' then Some(0 - LeadingHex(0, u))
    else Some(LeadingHex(0, u))
  }

  // --- lines ---

  datatype Record = Record(byteCount: byte, address: nat, recordType: byte, data: seq<byte>)

  /** The data loop of `parse_hex_line`: digits past the end of the line are left out. */
  function DataBytes(line: string, n: nat): Option<seq<byte>>
    decreases n
  {
    if n == 0 then Some([])
    else
      var front := DataBytes(line, n - 1);
      var pos := 9 + (n - 1) * 2;
      if front.None? || pos + 1 >= |line| then front
      else
        match Stoi(line[pos..pos + 2])
        case None => None
        case Some(v) => Some(front.value + [v % 256])
  }

  /** The checksum is read, and may throw, but is not compared with anything. */
  predicate ChecksumReads(line: string, byteCount: byte) {
    var pos := 9 + byteCount * 2;
    pos + 1 < |line| ==> Stoi(line[pos..pos + 2]).Some?
  }

  function HexLine(line: string): Option<Record> {
    if |line| < 11 || line[0] != ':' then None
    else
      match (Stoi(line[1..3]), Stoi(line[3..7]), Stoi(line[7..9]))
      case (Some(count), Some(address), Some(kind)) =>
        var data := DataBytes(line, count % 256);
        if data.None? || !ChecksumReads(line, count % 256) then None
        else Some(Record(count % 256, address % 0x1_0000, kind % 256, data.value))
      case _ => None
  }

  // --- records ---

  const DATA := 0
  const END_OF_FILE := 1
  const EXTENDED_ADDRESS := 4

  predicate Complete(r: Record) { |r.data| == r.byteCount }

  /** Where a data record goes, given the extended address in force. */
  function Start(ext: word, r: Record): word { Wrap(ext + r.address) }

  /** One record's effect; copying bytes the line did not have reads outside the record's
      buffer, which C++ leaves undefined: None. */
  function Apply(b: Backing, ext: word, r: Record): Option<(Backing, word)> {
    if r.recordType == DATA && Mapped(Start(ext, r)) then
      if r.byteCount > |r.data| then None
      else Some((Splice(b, Offset(Start(ext, r)), r.data[..r.byteCount]), ext))
    else if r.recordType == EXTENDED_ADDRESS && r.byteCount == 2 && |r.data| < 2 then None
    else Some((b, NextExtended(ext, r)))
  }

  /** The extended address after a record. */
  function NextExtended(ext: word, r: Record): word {
    if r.recordType == EXTENDED_ADDRESS && r.byteCount == 2 && |r.data| >= 2 then
      0x100_0000 * (r.data[0] as int) + 0x1_0000 * (r.data[1] as int)
    else ext
  }

  function LoadRecords(b: Backing, ext: word, rs: seq<Record>): Option<Backing>
    decreases |rs|
  {
    if rs == [] || rs[0].recordType == END_OF_FILE then Some(b)
    else
      match Apply(b, ext, rs[0])
      case None => None
      case Some((b', ext')) => LoadRecords(b', ext', rs[1..])
  }

  function LoadLines(b: Backing, ext: word, lines: seq<string>): Option<Backing>
    decreases |lines|
  {
    if lines == [] then Some(b)
    else
      match HexLine(lines[0])
      case None => LoadLines(b, ext, lines[1..])
      case Some(r) =>
        if r.recordType == END_OF_FILE then Some(b)
        else
          match Apply(b, ext, r)
          case None => None
          case Some((b', ext')) => LoadLines(b', ext', lines[1..])
  }

  /** The records of a file: every line that parses, in order. */
  function RecordsOf(lines: seq<string>): seq<Record>
    decreases |lines|
  {
    if lines == [] then []
    else
      match HexLine(lines[0])
      case None => RecordsOf(lines[1..])
      case Some(r) => [r] + RecordsOf(lines[1..])
  }

  /** Loading a file depends only on its records. */
  lemma {:induction false} LoadsItsRecords(b: Backing, ext: word, lines: seq<string>)
    ensures LoadLines(b, ext, lines) == LoadRecords(b, ext, RecordsOf(lines))
    decreases |lines|
  {
    hide HexLine, Apply;
    if lines != [] {
      match HexLine(lines[0]) {
        case None =>
          LoadsItsRecords(b, ext, lines[1..]);
        case Some(r) =>
          var rs := RecordsOf(lines);
          assert rs[0] == r && rs[1..] == RecordsOf(lines[1..]);
          var next := Apply(b, ext, r);
          if r.recordType != END_OF_FILE && next.Some? {
            LoadsItsRecords(next.value.0, next.value.1, lines[1..]);
          }
      }
    }
  }

  // --- last writer wins ---

  /** How many records come before the end-of-file record. */
  function Body(rs: seq<Record>): (n: nat)
    ensures n <= |rs|
    decreases |rs|
  {
    if rs == [] || rs[0].recordType == END_OF_FILE then 0 else 1 + Body(rs[1..])
  }

  /** The extended address in force at record `k`: what the records before it leave. */
  function ExtendedAt(ext: word, rs: seq<Record>, k: nat): word
    requires k <= |rs|
    decreases k
  {
    if k == 0 then ext else ExtendedAt(NextExtended(ext, rs[0]), rs[1..], k - 1)
  }

  /** The copy the record asks for needs bytes its line did not have. */
  predicate Overreads(ext: word, r: Record) {
    if r.recordType == DATA then Mapped(Start(ext, r)) && |r.data| < r.byteCount
    else r.recordType == EXTENDED_ADDRESS && r.byteCount == 2 && |r.data| < 2
  }

  /** A data record at a mapped address; the others load nothing. */
  predicate Loaded(ext: word, r: Record) { r.recordType == DATA && Mapped(Start(ext, r)) }

  predicate CarriesOne(ext: word, r: Record, a: word) {
    Loaded(ext, r) && Start(ext, r) <= a < Start(ext, r) + |r.data|
  }

  /** Record `k` is loaded and holds a byte for address `a`. */
  predicate Carries(ext: word, rs: seq<Record>, k: nat, a: word)
    requires k < |rs|
  {
    CarriesOne(ExtendedAt(ext, rs, k), rs[k], a)
  }

  function Carried(ext: word, rs: seq<Record>, k: nat, a: word): byte
    requires k < |rs| && Carries(ext, rs, k, a)
  {
    rs[k].data[a - Start(ExtendedAt(ext, rs, k), rs[k])]
  }

  /** A record that stays inside its buffer and, if it is loaded, is complete and lies in one region. */
  predicate RecordFits(ext: word, r: Record) {
    !Overreads(ext, r) && (Loaded(ext, r) ==> Complete(r) && InRegion(Start(ext, r), |r.data|))
  }

  /** Every record before the end does. */
  ghost predicate WellFormed(ext: word, rs: seq<Record>) {
    forall k :: 0 <= k < Body(rs) ==> RecordFits(ExtendedAt(ext, rs, k), rs[k])
  }

  lemma WellFormedRest(ext: word, rs: seq<Record>)
    requires WellFormed(ext, rs) && Body(rs) > 0
    ensures WellFormed(NextExtended(ext, rs[0]), rs[1..]) && RecordFits(ext, rs[0])
  {
    hide NextExtended, RecordFits;
    var next, rest := NextExtended(ext, rs[0]), rs[1..];
    assert Body(rs) == 1 + Body(rest);
    forall k | 0 <= k < Body(rest) ensures RecordFits(ExtendedAt(next, rest, k), rest[k]) {
      assert rest[k] == rs[k + 1] && ExtendedAt(ext, rs, k + 1) == ExtendedAt(next, rest, k);
    }
    assert ExtendedAt(ext, rs, 0) == ext;
  }

  /** One well-formed record: the addresses it carries get its bytes, everything else stays. */
  lemma ApplyEffect(b: Backing, ext: word, r: Record)
    requires RecordFits(ext, r)
    ensures Apply(b, ext, r).Some? && Apply(b, ext, r).value.1 == NextExtended(ext, r)
    ensures forall a: word :: Mapped(a) ==>
              Apply(b, ext, r).value.0[Offset(a)] ==
              if CarriesOne(ext, r, a) then r.data[a - Start(ext, r)] else b[Offset(a)]
    ensures forall i :: SRAM_OFFSET + SRAM_SIZE <= i < MEM_SIZE ==> Apply(b, ext, r).value.0[i] == b[i]
  {
    hide Start;
    if Loaded(ext, r) {
      assert r.data[..r.byteCount] == r.data;
      assert |r.data| > 0 ==> Offset(Start(ext, r)) + |r.data| <= SRAM_OFFSET + SRAM_SIZE;
    }
  }

  lemma {:induction false} Untouched(b: Backing, ext: word, rs: seq<Record>, a: word)
    requires WellFormed(ext, rs) && Mapped(a)
    requires forall k :: 0 <= k < Body(rs) ==> !Carries(ext, rs, k, a)
    ensures LoadRecords(b, ext, rs).Some? && LoadRecords(b, ext, rs).value[Offset(a)] == b[Offset(a)]
    decreases |rs|
  {
    hide Apply, NextExtended, Start, WellFormed;
    if Body(rs) > 0 {
      WellFormedRest(ext, rs);
      ApplyEffect(b, ext, rs[0]);
      assert !Carries(ext, rs, 0, a);
      var ext' := NextExtended(ext, rs[0]);
      forall k | 0 <= k < Body(rs[1..]) ensures !Carries(ext', rs[1..], k, a) {
        assert !Carries(ext, rs, k + 1, a);
      }
      Untouched(Apply(b, ext, rs[0]).value.0, ext', rs[1..], a);
    }
  }

  lemma {:induction false} LastWriter(b: Backing, ext: word, rs: seq<Record>, k: nat, a: word)
    requires WellFormed(ext, rs) && Mapped(a)
    requires k < Body(rs) && Carries(ext, rs, k, a)
    requires forall j :: k < j < Body(rs) ==> !Carries(ext, rs, j, a)
    ensures LoadRecords(b, ext, rs).Some? && LoadRecords(b, ext, rs).value[Offset(a)] == Carried(ext, rs, k, a)
    decreases |rs|
  {
    hide Apply, NextExtended, Start, WellFormed;
    WellFormedRest(ext, rs);
    ApplyEffect(b, ext, rs[0]);
    var b', ext' := Apply(b, ext, rs[0]).value.0, NextExtended(ext, rs[0]);
    forall j | k <= j < Body(rs[1..]) ensures !Carries(ext', rs[1..], j, a) {
      assert !Carries(ext, rs, j + 1, a);
    }
    if k == 0 {
      Untouched(b', ext', rs[1..], a);
    } else {
      LastWriter(b', ext', rs[1..], k - 1, a);
    }
  }

  lemma {:induction false} BeyondRegions(b: Backing, ext: word, rs: seq<Record>, i: nat)
    requires WellFormed(ext, rs) && SRAM_OFFSET + SRAM_SIZE <= i < MEM_SIZE
    ensures LoadRecords(b, ext, rs).Some? && LoadRecords(b, ext, rs).value[i] == b[i]
    decreases |rs|
  {
    hide Apply, NextExtended, Start, WellFormed;
    if Body(rs) > 0 {
      WellFormedRest(ext, rs);
      ApplyEffect(b, ext, rs[0]);
      BeyondRegions(Apply(b, ext, rs[0]).value.0, NextExtended(ext, rs[0]), rs[1..], i);
    }
  }

  ghost predicate LastCarrier(rs: seq<Record>, k: nat, a: word) {
    k < Body(rs) && Carries(0, rs, k, a) && forall j :: k < j < Body(rs) ==> !Carries(0, rs, j, a)
  }

  /** Loading any file whose records before the end-of-file record stay inside their buffers, each
      data record at a mapped address being complete and inside one region: every mapped address
      holds the byte of the last such record that carries one for it, and is as it was if there is
      none. Data records at unmapped addresses load nothing. */
  lemma {:induction false} LastWriterWins(b: Backing, lines: seq<string>, a: word)
    requires WellFormed(0, RecordsOf(lines)) && Mapped(a)
    ensures LoadLines(b, 0, lines).Some?
    ensures forall k | LastCarrier(RecordsOf(lines), k, a) ::
              LoadLines(b, 0, lines).value[Offset(a)] == Carried(0, RecordsOf(lines), k, a)
    ensures (forall k :: 0 <= k < Body(RecordsOf(lines)) ==> !Carries(0, RecordsOf(lines), k, a)) ==>
              LoadLines(b, 0, lines).value[Offset(a)] == b[Offset(a)]
  {
    hide WellFormed, Carries, Carried, LoadRecords, LoadLines, RecordsOf, Body;
    var rs := RecordsOf(lines);
    LoadsItsRecords(b, 0, lines);
    BeyondRegions(b, 0, rs, MEM_SIZE - 1);
    forall k | LastCarrier(rs, k, a) ensures LoadRecords(b, 0, rs).value[Offset(a)] == Carried(0, rs, k, a) {
      LastWriter(b, 0, rs, k, a);
    }
    if forall k :: 0 <= k < Body(rs) ==> !Carries(0, rs, k, a) {
      Untouched(b, 0, rs, a);
    }
  }

  /** The part of the store that no address reaches is never loaded. */
  lemma {:induction false} SpareBytesStay(b: Backing, lines: seq<string>, i: nat)
    requires WellFormed(0, RecordsOf(lines)) && SRAM_OFFSET + SRAM_SIZE <= i < MEM_SIZE
    ensures LoadLines(b, 0, lines).Some? && LoadLines(b, 0, lines).value[i] == b[i]
  {
    hide WellFormed, LoadRecords, LoadLines, RecordsOf;
    LoadsItsRecords(b, 0, lines);
    BeyondRegions(b, 0, RecordsOf(lines), i);
  }

  /** Types other than data and extended address have no effect, nor has an extended address of another
      length than two bytes; one of two bytes gives the upper half of the addresses, high byte first. */
  lemma OtherRecordsIgnored(b: Backing, ext: word, r: Record)
    requires r.recordType != 0
    ensures r.recordType != 4 || r.byteCount != 2 ==> Apply(b, ext, r) == Some((b, ext))
    ensures r.recordType == 4 && r.byteCount == 2 && |r.data| == 2 ==>
              Apply(b, ext, r) == Some((b, (r.data[0] as int * 0x100 + r.data[1] as int) * 0x1_0000))
  {
  }

  // --- when loading stays inside its buffers ---

  ghost predicate Safe(ext: word, rs: seq<Record>) {
    forall k :: 0 <= k < Body(rs) ==> !Overreads(ExtendedAt(ext, rs, k), rs[k])
  }

  lemma SafeStep(ext: word, rs: seq<Record>)
    requires Body(rs) > 0
    ensures Safe(ext, rs) <==> !Overreads(ext, rs[0]) && Safe(NextExtended(ext, rs[0]), rs[1..])
  {
    hide Overreads, NextExtended;
    var next, rest := NextExtended(ext, rs[0]), rs[1..];
    assert ExtendedAt(ext, rs, 0) == ext;
    assert forall k :: 0 < k < Body(rs) ==>
                         ExtendedAt(ext, rs, k) == ExtendedAt(next, rest, k - 1) && rs[k] == rest[k - 1];
    if Safe(ext, rs) {
      forall k | 0 <= k < Body(rest) ensures !Overreads(ExtendedAt(next, rest, k), rest[k]) {
        assert !Overreads(ExtendedAt(ext, rs, k + 1), rs[k + 1]);
      }
    }
  }

  /** Loading is defined exactly when no record before the end overreads. */
  lemma {:induction false} DefinedIffNoOverread(b: Backing, ext: word, rs: seq<Record>)
    ensures LoadRecords(b, ext, rs).Some? <==> Safe(ext, rs)
    decreases |rs|
  {
    hide Start, Mapped, Splice, Offset, Safe;
    if Body(rs) == 0 {
      NothingToOverread(ext, rs);
    } else {
      SafeStep(ext, rs);
      if !Overreads(ext, rs[0]) {
        var (b', ext') := Apply(b, ext, rs[0]).value;
        DefinedIffNoOverread(b', ext', rs[1..]);
      }
    }
  }

  lemma NothingToOverread(ext: word, rs: seq<Record>)
    requires Body(rs) == 0
    ensures Safe(ext, rs)
  {
  }

  // --- printing ---

  /** A line spells a record out in hex, in either case; what follows the data is not looked at
      beyond being hex. */
  predicate Spells(line: string, r: Record) {
    && |line| >= 11 + 2 * |r.data| && line[0] == ':' && AllHex(line[1..11 + 2 * |r.data|])
    && Complete(r) && r.address < 0x1_0000
    && ParseHex(line[1..3]) == r.byteCount
    && ParseHex(line[3..7]) == r.address
    && ParseHex(line[7..9]) == r.recordType
    && forall i :: 0 <= i < |r.data| ==> ParseHex(line[9 + 2 * i..11 + 2 * i]) == r.data[i]
  }

  lemma {:induction false} LeadingIsParsed(v: nat, s: string, t: string)
    requires AllHex(t) && |s| + |t| <= 7 && v == ParseHex(s) && v < Power16(|s|)
    ensures LeadingHex(v, t) == ParseHex(s + t)
    decreases |t|
  {
    hide Digit, IsHex;
    if t == "" {
      assert s + t == s;
    } else {
      var s' := s + [t[0]];
      assert s'[..|s|] == s;
      SmallPower(|s|);
      LeadingIsParsed(v * 16 + Digit(t[0]), s', t[1..]);
      assert s' + t[1..] == s + t;
    }
  }

  function Power16(n: nat): nat { if n == 0 then 1 else 16 * Power16(n - 1) }

  lemma SmallPower(n: nat)
    requires n < 7
    ensures Power16(n) <= 0x100_0000
  {
    assert Power16(6) == 0x100_0000 && Power16(5) == 0x10_0000;
  }

  lemma LeadingOfHex(s: string)
    requires AllHex(s) && |s| <= 7
    ensures LeadingHex(0, s) == ParseHex(s)
  {
    hide LeadingHex;
    LeadingIsParsed(0, "", s);
    assert "" + s == s;
  }

  /** On plain hex digits `stoi` is the value they spell. */
  lemma {:induction false} StoiOfHex(s: string)
    requires AllHex(s) && 0 < |s| <= 7
    ensures Stoi(s) == Some(ParseHex(s))
  {
    hide LeadingHex, ParseHex;
    assert IsHex(s[0]);
    if |s| >= 3 {
      assert IsHex(s[1]);
    }
    LeadingOfHex(s);
  }

  lemma PartIsHex(s: string, i: nat, j: nat, k: nat)
    requires 1 <= i <= j <= k <= |s| && AllHex(s[1..k])
    ensures AllHex(s[i..j])
  {
    hide IsHex;
    forall x | 0 <= x < j - i ensures IsHex(s[i..j][x]) {
      assert s[i..j][x] == s[1..k][i - 1 + x];
    }
  }

  lemma {:induction false} SpelledData(line: string, r: Record, n: nat)
    requires Spells(line, r) && n <= |r.data|
    ensures DataBytes(line, n) == Some(r.data[..n])
    decreases n
  {
    hide Stoi, ParseHex, AllHex;
    if n > 0 {
      SpelledData(line, r, n - 1);
      var pos := 9 + (n - 1) * 2;
      PartIsHex(line, pos, pos + 2, 11 + 2 * |r.data|);
      assert line[9 + 2 * (n - 1)..11 + 2 * (n - 1)] == line[pos..pos + 2];
      StoiOfHex(line[pos..pos + 2]);
      assert r.data[..n] == r.data[..n - 1] + [r.data[n - 1]];
    }
  }

  /** Parsing undoes printing: whatever line spells a record, parsing it gives the record. */
  lemma ParsePrinted(line: string, r: Record)
    requires Spells(line, r)
    ensures HexLine(line) == Some(r)
  {
    hide Stoi, ParseHex, AllHex, DataBytes;
    var end := 11 + 2 * |r.data|;
    PartIsHex(line, 1, 3, end);
    StoiOfHex(line[1..3]);
    PartIsHex(line, 3, 7, end);
    StoiOfHex(line[3..7]);
    PartIsHex(line, 7, 9, end);
    StoiOfHex(line[7..9]);
    PartIsHex(line, end - 2, end, end);
    StoiOfHex(line[end - 2..end]);
    SpelledData(line, r, |r.data|);
    assert r.data[..|r.data|] == r.data;
  }

  // --- a printed memory image ---

  datatype Segment = Segment(start: word, size: byte)

  const END_RECORD := Record(0, 0, END_OF_FILE, [])

  function ExtendedRecord(a: word): Record {
    Record(2, 0, EXTENDED_ADDRESS, [a / 0x100_0000, a / 0x1_0000 % 0x100])
  }

  function DataRecord(image: Backing, g: Segment): Record
    requires InRegion(g.start, g.size)
  {
    Record(g.size, g.start % 0x1_0000, DATA, image[Offset(g.start)..Offset(g.start) + g.size])
  }

  predicate Printable(gs: seq<Segment>) {
    forall j :: 0 <= j < |gs| ==> InRegion(gs[j].start, gs[j].size)
  }

  /** Each segment of the image with its upper address, then the end-of-file record. */
  function ImageRecords(image: Backing, gs: seq<Segment>): seq<Record>
    requires Printable(gs)
    decreases |gs|
  {
    if gs == [] then [END_RECORD]
    else [ExtendedRecord(gs[0].start), DataRecord(image, gs[0])] + ImageRecords(image, gs[1..])
  }

  predicate InSegment(g: Segment, i: nat) { Offset(g.start) <= i < Offset(g.start) + g.size }

  predicate InSegments(gs: seq<Segment>, i: nat) { exists j :: 0 <= j < |gs| && InSegment(gs[j], i) }

  lemma StartOfPrinted(a: word, ext: word, image: Backing, n: byte)
    requires InRegion(a, n)
    ensures NextExtended(ext, ExtendedRecord(a)) == a - a % 0x1_0000
    ensures Start(a - a % 0x1_0000, DataRecord(image, Segment(a, n))) == a
  {
    var high := a / 0x1_0000;
    assert a / 0x100_0000 == high / 0x100;
    assert high == 0x100 * (high / 0x100) + high % 0x100;
  }

  lemma SegmentLoads(b: Backing, ext: word, image: Backing, g: Segment, rest: seq<Record>)
    requires InRegion(g.start, g.size)
    ensures LoadRecords(b, ext, [ExtendedRecord(g.start), DataRecord(image, g)] + rest) ==
            LoadRecords(Splice(b, Offset(g.start), image[Offset(g.start)..Offset(g.start) + g.size]),
                        g.start - g.start % 0x1_0000, rest)
  {
    hide NextExtended, Start, Splice;
    var rs := [ExtendedRecord(g.start), DataRecord(image, g)] + rest;
    var ext' := g.start - g.start % 0x1_0000;
    StartOfPrinted(g.start, ext, image, g.size);
    assert rs[1..] == [DataRecord(image, g)] + rest && rs[1..][1..] == rest;
    assert LoadRecords(b, ext, rs) == LoadRecords(b, ext', rs[1..]);
    DataLoads(b, ext', image, g);
  }

  lemma DataLoads(b: Backing, ext: word, image: Backing, g: Segment)
    requires InRegion(g.start, g.size) && Start(ext, DataRecord(image, g)) == g.start
    ensures Apply(b, ext, DataRecord(image, g)) ==
            Some((Splice(b, Offset(g.start), image[Offset(g.start)..Offset(g.start) + g.size]), ext))
  {
    hide Start;
    var r := DataRecord(image, g);
    assert r.data[..g.size] == r.data;
    if !Mapped(g.start) {
      assert Splice(b, Offset(g.start), r.data) == b;
    }
  }

  /** Loading the records of an image puts back every byte the segments cover, in whatever
      order and with whatever overlaps they come, and touches nothing else. */
  lemma {:induction false} ImageRecordsRestore(b: Backing, ext: word, image: Backing, gs: seq<Segment>)
    requires Printable(gs)
    ensures var loaded := LoadRecords(b, ext, ImageRecords(image, gs));
            loaded.Some? && forall i :: 0 <= i < MEM_SIZE ==>
              loaded.value[i] == if InSegments(gs, i) then image[i] else b[i]
    decreases |gs|
  {
    hide InRegion, Apply, DataRecord, ExtendedRecord;
    if gs == [] {
    } else {
      hide LoadRecords, InSegments, InSegment, Offset, Splice;
      var g, off := gs[0], Offset(gs[0].start);
      SegmentSplice(b, image, g);
      SegmentLoads(b, ext, image, g, ImageRecords(image, gs[1..]));
      var b' := Splice(b, off, image[off..off + g.size]);
      ImageRecordsRestore(b', g.start - g.start % 0x1_0000, image, gs[1..]);
      forall i | 0 <= i < MEM_SIZE ensures InSegments(gs, i) == (InSegment(g, i) || InSegments(gs[1..], i)) {
        InSegmentsStep(gs, i);
      }
    }
  }

  lemma SegmentSplice(b: Backing, image: Backing, g: Segment)
    requires InRegion(g.start, g.size)
    ensures var off := Offset(g.start);
            && off + g.size <= MEM_SIZE
            && forall i :: 0 <= i < MEM_SIZE ==>
                 Splice(b, off, image[off..off + g.size])[i] == if InSegment(g, i) then image[i] else b[i]
  {
  }

  lemma InSegmentsStep(gs: seq<Segment>, i: nat)
    requires gs != []
    ensures InSegments(gs, i) == (InSegment(gs[0], i) || InSegments(gs[1..], i))
  {
    hide InSegment;
    if j :| 0 <= j < |gs| && InSegment(gs[j], i) {
      if j > 0 {
        assert gs[1..][j - 1] == gs[j];
      }
    }
    if j :| 0 <= j < |gs[1..]| && InSegment(gs[1..][j], i) {
      assert gs[j + 1] == gs[1..][j];
    }
  }

  /** The lines of a file spell out the records. */
  predicate SpellsAll(lines: seq<string>, rs: seq<Record>) {
    |lines| == |rs| && forall k :: 0 <= k < |rs| ==> Spells(lines[k], rs[k])
  }

  lemma {:induction false} SpelledRecords(lines: seq<string>, rs: seq<Record>)
    requires SpellsAll(lines, rs)
    ensures RecordsOf(lines) == rs
    decreases |lines|
  {
    hide Spells, HexLine;
    if lines != [] {
      ParsePrinted(lines[0], rs[0]);
      SpelledRecords(lines[1..], rs[1..]);
      assert rs == [rs[0]] + rs[1..];
    }
  }

  /** Printing a memory image as text and loading the text restores the image. */
  lemma {:induction false} PrintedImageRestores(b: Backing, image: Backing, gs: seq<Segment>, lines: seq<string>)
    requires Printable(gs) && SpellsAll(lines, ImageRecords(image, gs))
    ensures var loaded := LoadLines(b, 0, lines);
            loaded.Some? && forall i :: 0 <= i < MEM_SIZE ==>
              loaded.value[i] == if InSegments(gs, i) then image[i] else b[i]
  {
    hide Printable, SpellsAll, InSegments, ImageRecords, LoadLines, LoadRecords;
    SpelledRecords(lines, ImageRecords(image, gs));
    LoadsItsRecords(b, 0, lines);
    ImageRecordsRestore(b, 0, image, gs);
  }

  /** One way to print a record: lower case, with the checksum of the Intel HEX format. */
  function PrintRecord(r: Record): string
    requires r.address < 0x1_0000
  {
    ":" + PrintBytes(Fields(r)) + ToHex((256 - Sum(Fields(r))) % 256)
  }

  function PrintBytes(bs: seq<byte>): (s: string)
    ensures |s| == 2 * |bs|
    decreases |bs|
  {
    if bs == [] then "" else ToHex(bs[0]) + PrintBytes(bs[1..])
  }

  function Sum(bs: seq<byte>): byte
    decreases |bs|
  {
    if bs == [] then 0 else (bs[0] + Sum(bs[1..]) as int) % 256
  }

  lemma {:induction false} PrintedByte(bs: seq<byte>, k: nat)
    requires k < |bs|
    ensures PrintBytes(bs)[2 * k..2 * k + 2] == ToHex(bs[k])
    decreases |bs|
  {
    hide ToHex;
    var s := PrintBytes(bs);
    if k == 0 {
      assert s[0..2] == ToHex(bs[0]);
    } else {
      PrintedByte(bs[1..], k - 1);
      assert s[2 * k..2 * k + 2] == s[2..][2 * (k - 1)..2 * (k - 1) + 2];
      assert s[2..] == PrintBytes(bs[1..]);
    }
  }

  lemma {:induction false} PrintedBytesAreHex(bs: seq<byte>)
    ensures AllHex(PrintBytes(bs))
    decreases |bs|
  {
    hide IsHex;
    if bs != [] {
      PrintedBytesAreHex(bs[1..]);
    }
  }

  lemma PushSmall(v: word, c: char, d: char)
    requires v < 256
    ensures PushDigit(PushDigit(v, c), d) == 256 * v + 16 * Digit(c) + Digit(d)
  {
    hide Digit;
  }

  lemma ParseFour(s: string)
    requires |s| == 4
    ensures ParseHex(s) == 256 * ParseHex(s[..2]) + ParseHex(s[2..])
  {
    ParseTwo(s[..2]);
    ParseTwo(s[2..]);
    var front := s[..3];
    assert front[..2] == s[..2] && front[2] == s[2];
    assert ParseHex(front) == PushDigit(ParseHex(front[..2]), front[2]);
    assert ParseHex(s) == PushDigit(ParseHex(front), s[3]);
    PushSmall(ParseHex(s[..2]), s[2], s[3]);
  }

  function Fields(r: Record): seq<byte>
    requires r.address < 0x1_0000
  {
    [r.byteCount, r.address / 0x100, r.address % 0x100, r.recordType] + r.data
  }

  lemma PrintedField(r: Record, k: nat)
    requires r.address < 0x1_0000 && k < 4 + |r.data|
    ensures |PrintRecord(r)| == 11 + 2 * |r.data|
    ensures ParseHex(PrintRecord(r)[1 + 2 * k..3 + 2 * k]) == Fields(r)[k]
  {
    hide ToHex, ParseHex, Sum;
    var body, line := Fields(r), PrintRecord(r);
    var s := PrintBytes(body);
    PrintedByte(body, k);
    ByteRoundTrip(body[k]);
    assert line == ":" + s + ToHex((256 - Sum(body)) % 256);
    assert line[1 + 2 * k..3 + 2 * k] == s[2 * k..2 * k + 2];
  }

  lemma PrintedHex(r: Record)
    requires r.address < 0x1_0000
    ensures |PrintRecord(r)| == 11 + 2 * |r.data| && AllHex(PrintRecord(r)[1..11 + 2 * |r.data|])
  {
    hide ToHex, IsHex, Sum;
    var s, sum := PrintBytes(Fields(r)), ToHex((256 - Sum(Fields(r))) % 256);
    PrintedBytesAreHex(Fields(r));
    assert PrintRecord(r)[1..11 + 2 * |r.data|] == s + sum;
  }

  /** The printer spells the record. */
  lemma PrinterSpells(r: Record)
    requires Complete(r) && r.address < 0x1_0000
    ensures Spells(PrintRecord(r), r)
  {
    hide ParseHex, AllHex, PrintBytes, Sum;
    PrintedHex(r);
    var line := PrintRecord(r);
    PrintedField(r, 0);
    PrintedField(r, 1);
    PrintedField(r, 2);
    PrintedField(r, 3);
    assert line[3..7][..2] == line[3..5] && line[3..7][2..] == line[5..7];
    ParseFour(line[3..7]);
    assert 256 * (r.address / 0x100) + r.address % 0x100 == r.address;
    forall i | 0 <= i < |r.data| ensures ParseHex(line[9 + 2 * i..11 + 2 * i]) == r.data[i] {
      PrintedField(r, i + 4);
      assert line[9 + 2 * i..11 + 2 * i] == line[1 + 2 * (i + 4)..3 + 2 * (i + 4)];
    }
  }

  // --- the loader ---

  method ParseHexLine(line: string) returns (record: Option<Record>)
    ensures record == HexLine(line)
  {
    hide Stoi;
    if |line| < 11 || line[0] != ':' {
      return None;
    }
    var count, address, kind := Stoi(line[1..3]), Stoi(line[3..7]), Stoi(line[7..9]);
    if count.None? || address.None? || kind.None? {
      return None;
    }
    var byteCount: byte := count.value % 256;
    var data: seq<byte> := [];
    for i := 0 to byteCount
      invariant DataBytes(line, i) == Some(data)
    {
      var pos := 9 + i * 2;
      if pos + 1 < |line| {
        var value := Stoi(line[pos..pos + 2]);
        if value.None? {
          FailedDataStays(line, i + 1, byteCount);
          return None;
        }
        data := data + [value.value % 256];
      }
    }
    var checksumPos := 9 + byteCount * 2;
    if checksumPos + 1 < |line| && Stoi(line[checksumPos..checksumPos + 2]).None? {
      return None;
    }
    record := Some(Record(byteCount, address.value % 0x1_0000, kind.value % 256, data));
  }

  lemma {:induction false} FailedDataStays(line: string, k: nat, n: nat)
    requires k <= n && DataBytes(line, k).None?
    ensures DataBytes(line, n).None?
    decreases n
  {
    if k < n {
      FailedDataStays(line, k, n - 1);
    }
  }

  /** `file` is None when it cannot be opened. `defined` is false once a copy has read outside
      the record's buffer. */
  method LoadHexFile(memory: MemoryDevice, file: Option<seq<string>>) returns (ok: bool, defined: bool)
    requires memory.Valid()
    modifies memory.data
    ensures ok == file.Some?
    ensures file.None? ==> defined && memory.Contents() == old(memory.Contents())
    ensures file.Some? ==>
              (if defined then Some(memory.Contents()) else None) == LoadLines(old(memory.Contents()), 0, file.value)
  {
    hide HexLine;
    if file.None? {
      return false, true;
    }
    var lines := file.value;
    var extended: word := 0;
    var i := 0;
    while i < |lines|
      invariant 0 <= i <= |lines|
      invariant LoadLines(memory.Contents(), extended, lines[i..]) == LoadLines(old(memory.Contents()), 0, lines)
    {
      assert lines[i..][1..] == lines[i + 1..];
      var parsed := ParseHexLine(lines[i]);
      if parsed.Some? {
        var record := parsed.value;
        if record.recordType == END_OF_FILE {
          return true, true;
        }
        defined, extended := LoadRecord(memory, extended, record);
        if !defined {
          return true, false;
        }
      }
      i := i + 1;
    }
    ok, defined := true, true;
  }

  /** The switch of `load_hex_file`. */
  method LoadRecord(memory: MemoryDevice, extended0: word, record: Record) returns (defined: bool, extended: word)
    requires memory.Valid() && record.recordType != END_OF_FILE
    modifies memory.data
    ensures (if defined then Some((memory.Contents(), extended)) else None) ==
            Apply(old(memory.Contents()), extended0, record)
  {
    defined, extended := true, extended0;
    if record.recordType == DATA {
      var address := Start(extended, record);
      var offset := Translate(address);
      if offset.Some? && offset.value + record.byteCount <= MEM_SIZE {
        if record.byteCount > |record.data| {
          return false, extended;
        }
        memory.CopyIn(offset.value, record.data[..record.byteCount]);
      }
    } else if record.recordType == EXTENDED_ADDRESS && record.byteCount == 2 {
      if |record.data| < 2 {
        return false, extended;
      }
      extended := NextExtended(extended, record);
    }
  }
}
