/** Packet framing of the GDB Remote Serial Protocol: `send_packet` and `receive_packet` of
    src/debug/GDBServer.cpp. The socket delivers a sequence of non-empty chunks. */
module GdbFraming {
  import opened Words
  import opened HexText

  function Checksum(s: string): byte {
    if s == "" then 0 else (Checksum(s[..|s| - 1]) + s[|s| - 1] as int) % 256
  }

  /** What `send_packet` writes. */
  function Frame(data: string): string { "$" + data + "#" + ToHex(Checksum(data)) }

  /** The scan of one chunk ends with an accepted packet or with the state it leaves behind;
      `replies` collects the acknowledgements sent. */
  datatype Scanned = Accepted(packet: string, replies: string) | Open(packet: string, inPacket: bool, replies: string)

  /** The two characters after '#', read as a checksum. */
  function Trailer(s: string): byte
    requires |s| >= 2
  {
    (Digit(s[0]) * 16 + Digit(s[1])) % 256
  }

  function Scan(s: string, packet: string, inPacket: bool, replies: string): Scanned
    decreases |s|
  {
    if s == "" then Open(packet, inPacket, replies)
    else if s[0] == '$' then Scan(s[1..], "", true, replies)
    else if s[0] == '#' && inPacket then
      if |s| > 2 then
        if Trailer(s[1..]) == Checksum(packet) then Accepted(packet, replies + "+")
        else Scan(s[3..], "", false, replies + "-")
      else Open("", false, replies)
    else if inPacket then Scan(s[1..], packet + [s[0]], true, replies)
    else Scan(s[1..], packet, false, replies)
  }

  /** Chunk after chunk until a packet is accepted or the connection ends. */
  function Receive(chunks: seq<string>, packet: string, inPacket: bool, replies: string): (Option<string>, string)
    decreases |chunks|
  {
    if chunks == [] then (None, replies)
    else
      match Scan(chunks[0], packet, inPacket, replies)
      case Accepted(p, r) => (Some(p), r)
      case Open(p, b, r) => Receive(chunks[1..], p, b, r)
  }

  // --- framing round trip ---

  function Flatten(chunks: seq<string>): string {
    if chunks == [] then "" else chunks[0] + Flatten(chunks[1..])
  }

  predicate Lacks(s: string, c: char) { forall i :: 0 <= i < |s| ==> s[i] != c }

  /** The three characters at position `pos` of the stream arrive in one chunk. */
  predicate Unsplit(chunks: seq<string>, pos: nat)
    decreases |chunks|
  {
    chunks != [] && if pos < |chunks[0]| then pos + 2 < |chunks[0]| else Unsplit(chunks[1..], pos - |chunks[0]|)
  }

  lemma {:induction false} ScanIdle(s: string, k: nat, packet: string, replies: string)
    requires k <= |s| && Lacks(s[..k], '$')
    ensures Scan(s, packet, false, replies) == Scan(s[k..], packet, false, replies)
    decreases k
  {
    if k > 0 {
      assert s[0] == s[..k][0];
      assert s[1..][..k - 1] == s[..k][1..];
      ScanIdle(s[1..], k - 1, packet, replies);
      assert s[1..][k - 1..] == s[k..];
    }
  }

  lemma {:induction false} ScanCollects(s: string, k: nat, packet: string, replies: string)
    requires k <= |s| && Lacks(s[..k], '$') && Lacks(s[..k], '#')
    ensures Scan(s, packet, true, replies) == Scan(s[k..], packet + s[..k], true, replies)
    decreases k
  {
    if k == 0 {
      assert packet + s[..0] == packet;
    } else {
      assert s[0] == s[..k][0];
      assert s[1..][..k - 1] == s[..k][1..];
      ScanCollects(s[1..], k - 1, packet + [s[0]], replies);
      assert s[1..][k - 1..] == s[k..];
      assert packet + [s[0]] + s[1..][..k - 1] == packet + s[..k];
    }
  }

  lemma PrefixOfSum(c: string, more: string, a: string, b: string)
    requires c + more == a + b
    ensures |c| <= |a| ==> c == a[..|c|] && more == a[|c|..] + b
    ensures |c| >= |a| ==> c[..|a|] == a && c[|a|..] + more == b
  {
    if |c| <= |a| {
      assert (c + more)[..|c|] == (a + b)[..|c|];
      assert (c + more)[|c|..] == (a + b)[|c|..];
    }
    if |c| >= |a| {
      assert (c + more)[..|a|] == (a + b)[..|a|];
      assert (c + more)[|a|..] == (a + b)[|a|..];
    }
  }

  lemma {:induction false} NothingWithoutDollar(chunks: seq<string>, packet: string, replies: string)
    requires Lacks(Flatten(chunks), '$')
    ensures Receive(chunks, packet, false, replies) == (None, replies)
    decreases |chunks|
  {
    if chunks != [] {
      var c := chunks[0];
      assert Flatten(chunks)[..|c|] == c && Flatten(chunks)[|c|..] == Flatten(chunks[1..]);
      assert c[..|c|] == c && c[|c|..] == "";
      ScanIdle(c, |c|, packet, replies);
      NothingWithoutDollar(chunks[1..], packet, replies);
    }
  }

  /** Inside a packet: the rest of the payload, the trailer, and whatever follows. */
  lemma {:induction false} ReceiveInside(chunks: seq<string>, packet: string, tail: string, rest: string,
                                         replies: string)
    requires Flatten(chunks) == tail + ("#" + ToHex(Checksum(packet + tail)) + rest)
    requires Lacks(tail, '$') && Lacks(tail, '#')
    ensures Unsplit(chunks, |tail|) ==> Receive(chunks, packet, true, replies) == (Some(packet + tail), replies + "+")
    ensures !Unsplit(chunks, |tail|) && Lacks(rest, '$') ==> Receive(chunks, packet, true, replies).0 == None
    decreases |chunks|
  {
    if chunks != [] {
      var c := chunks[0];
      var hex := ToHex(Checksum(packet + tail));
      PrefixOfSum(c, Flatten(chunks[1..]), tail, "#" + hex + rest);
      if |c| <= |tail| {
        ScanWhole(c, packet, tail, replies);
        assert packet + c + tail[|c|..] == packet + tail;
        ReceiveInside(chunks[1..], packet + c, tail[|c|..], rest, replies);
      } else {
        ScanCollects(c, |tail|, packet, replies);
        var s := c[|tail|..];
        assert (s + Flatten(chunks[1..]))[0] == ("#" + hex + rest)[0];
        if |s| > 2 {
          TrailerMatches(s, Flatten(chunks[1..]), packet + tail, rest);
        } else {
          LostTail(s, Flatten(chunks[1..]), hex, rest);
          if Lacks(rest, '$') {
            NothingWithoutDollar(chunks[1..], "", replies);
          }
        }
      }
    }
  }

  lemma ScanWhole(c: string, packet: string, tail: string, replies: string)
    requires |c| <= |tail| && c == tail[..|c|] && Lacks(tail, '$') && Lacks(tail, '#')
    ensures Scan(c, packet, true, replies) == Open(packet + c, true, replies)
  {
    assert c[..|c|] == c && c[|c|..] == "";
    ScanCollects(c, |c|, packet, replies);
  }

  lemma TrailerMatches(s: string, more: string, data: string, rest: string)
    requires |s| > 2 && s + more == "#" + ToHex(Checksum(data)) + rest
    ensures Trailer(s[1..]) == Checksum(data)
  {
    hide ToHex, Checksum;
    var hex := ToHex(Checksum(data));
    ParseTwo(hex);
    ByteRoundTrip(Checksum(data));
    assert (s + more)[1] == s[1] && (s + more)[2] == s[2];
    assert ("#" + hex + rest)[1] == hex[0] && ("#" + hex + rest)[2] == hex[1];
  }

  /** What is left of the stream after a split trailer holds no '$'. */
  lemma LostTail(s: string, more: string, hex: string, rest: string)
    requires 0 < |s| <= 2 && |hex| == 2 && AllHex(hex) && s + more == "#" + hex + rest
    ensures Lacks(rest, '$') ==> Lacks(more, '$')
  {
    forall i | 0 <= i < |more| ensures more[i] == (hex + rest)[|s| - 1 + i] {
      assert (s + more)[|s| + i] == more[i];
    }
    if Lacks(rest, '$') {
      forall i | 0 <= i < |more| ensures more[i] != '$' {
        var k := |s| - 1 + i;
        assert more[i] == if k < 2 then hex[k] else rest[k - 2];
      }
    }
  }

  /** `receive_packet` returns exactly what `send_packet` framed, after any bytes other than '$'
      and before any bytes at all, for every chunking that keeps "#xx" in one chunk. If the
      trailer is split the packet is lost; nothing is returned when no other packet follows. */
  lemma {:induction false} FramingRoundTrip(chunks: seq<string>, noise: string, data: string, rest: string,
                                            replies: string)
    requires Flatten(chunks) == noise + (Frame(data) + rest)
    requires Lacks(noise, '$') && Lacks(data, '$') && Lacks(data, '#')
    ensures Unsplit(chunks, |noise| + 1 + |data|) ==>
              Receive(chunks, "", false, replies) == (Some(data), replies + "+")
    ensures Lacks(rest, '$') ==>
              (Receive(chunks, "", false, replies).0 == Some(data) <==> Unsplit(chunks, |noise| + 1 + |data|))
    decreases |chunks|
  {
    hide Frame, Checksum, ToHex;
    if chunks != [] {
      var c := chunks[0];
      PrefixOfSum(c, Flatten(chunks[1..]), noise, Frame(data) + rest);
      if |c| <= |noise| {
        assert c[..|c|] == c && c[|c|..] == "";
        ScanIdle(c, |c|, "", replies);
        FramingRoundTrip(chunks[1..], noise[|c|..], data, rest, replies);
      } else {
        FrameStarts(chunks, noise, data, rest, replies);
      }
    }
  }

  // --- frames that are refused ---

  /** The sum of the character codes. */
  function Total(s: string): nat { if s == "" then 0 else s[0] as int + Total(s[1..]) }

  lemma {:induction false} TotalSnoc(s: string, c: char)
    ensures Total(s + [c]) == Total(s) + c as int
    decreases |s|
  {
    if s == "" {
      assert ("" + [c])[1..] == "";
    } else {
      assert (s + [c])[1..] == s[1..] + [c];
      TotalSnoc(s[1..], c);
    }
  }

  /** The checksum is the sum of all characters modulo 256. */
  lemma {:induction false} ChecksumIsTotal(s: string)
    ensures Checksum(s) == Total(s) % 256
  {
    if s != "" {
      ChecksumIsTotal(s[..|s| - 1]);
      assert s == s[..|s| - 1] + [s[|s| - 1]];
      TotalSnoc(s[..|s| - 1], s[|s| - 1]);
    }
  }

  /** The stream without its first `n` characters, chunk boundaries kept. */
  function DropChars(chunks: seq<string>, n: nat): seq<string>
    decreases |chunks|
  {
    if chunks == [] || n == 0 then chunks
    else if n < |chunks[0]| then [chunks[0][n..]] + chunks[1..]
    else DropChars(chunks[1..], n - |chunks[0]|)
  }

  /** Nothing is left to scan in an empty chunk. */
  lemma DropWithin(chunks: seq<string>, n: nat, replies: string)
    requires chunks != [] && n <= |chunks[0]|
    ensures Receive(DropChars(chunks, n), "", false, replies) ==
            Receive([chunks[0][n..]] + chunks[1..], "", false, replies)
  {
    var after := [chunks[0][n..]] + chunks[1..];
    assert after[1..] == chunks[1..];
    if n == 0 {
      assert chunks[0][0..] == chunks[0];
      assert after == chunks;
    } else if n == |chunks[0]| {
      assert chunks[0][n..] == "";
      assert DropChars(chunks[1..], 0) == chunks[1..];
    }
  }

  /** A '#' and two characters at the start of what is left of the chunk. */
  lemma ScanTrailer(s: string, packet: string, replies: string)
    requires |s| > 2 && s[0] == '#'
    ensures Scan(s, packet, true, replies) ==
            if (16 * Digit(s[1]) + Digit(s[2])) % 256 == Checksum(packet) then Accepted(packet, replies + "+")
            else Scan(s[3..], "", false, replies + "-")
  {
  }

  lemma {:induction false} TrailerInside(chunks: seq<string>, packet: string, tail: string, trailer: string,
                                         rest: string, replies: string)
    requires Flatten(chunks) == tail + ("#" + trailer + rest) && |trailer| == 2
    requires Lacks(tail, '$') && Lacks(tail, '#') && Unsplit(chunks, |tail|)
    ensures Receive(chunks, packet, true, replies) ==
            if (16 * Digit(trailer[0]) + Digit(trailer[1])) % 256 == Checksum(packet + tail)
            then (Some(packet + tail), replies + "+")
            else Receive(DropChars(chunks, |tail| + 3), "", false, replies + "-")
    decreases |chunks|
  {
    hide Checksum, Digit;
    var c, more := chunks[0], Flatten(chunks[1..]);
    PrefixOfSum(c, more, tail, "#" + trailer + rest);
    if |c| <= |tail| {
      ScanWhole(c, packet, tail, replies);
      assert packet + c + tail[|c|..] == packet + tail;
      TrailerInside(chunks[1..], packet + c, tail[|c|..], trailer, rest, replies);
    } else {
      ScanCollects(c, |tail|, packet, replies);
      var s := c[|tail|..];
      assert (s + more)[0] == s[0] && (s + more)[1] == s[1] && (s + more)[2] == s[2];
      assert ("#" + trailer + rest)[0] == '#' && ("#" + trailer + rest)[1] == trailer[0];
      assert ("#" + trailer + rest)[2] == trailer[1];
      ScanTrailer(s, packet + tail, replies);
      assert s[3..] == c[|tail| + 3..];
      DropWithin(chunks, |tail| + 3, replies + "-");
      FirstChunk(chunks, s[3..], replies + "-");
    }
  }

  /** Receiving goes on with what the first chunk leaves. */
  lemma FirstChunk(chunks: seq<string>, s: string, replies: string)
    requires chunks != []
    ensures Receive([s] + chunks[1..], "", false, replies) ==
            match Scan(s, "", false, replies)
            case Accepted(p, r) => (Some(p), r)
            case Open(p, b, r) => Receive(chunks[1..], p, b, r)
  {
    assert ([s] + chunks[1..])[1..] == chunks[1..];
  }

  /** A frame whose two hex digits are not the sum of its payload modulo 256 is refused: one '-' is sent
      and receiving goes on behind it as if nothing had come; if they are, the payload is returned and
      one '+' is sent. */
  lemma {:induction false} FrameAcceptedIff(chunks: seq<string>, noise: string, data: string, trailer: string,
                                            rest: string, replies: string)
    requires Flatten(chunks) == noise + ("$" + (data + ("#" + trailer + rest))) && |trailer| == 2
    requires Lacks(noise, '$') && Lacks(data, '$') && Lacks(data, '#')
    requires Unsplit(chunks, |noise| + 1 + |data|)
    ensures Receive(chunks, "", false, replies) ==
            if (16 * Digit(trailer[0]) + Digit(trailer[1])) % 256 == Total(data) % 256
            then (Some(data), replies + "+")
            else Receive(DropChars(chunks, |noise| + |data| + 4), "", false, replies + "-")
    decreases |chunks|
  {
    hide Checksum, Digit, Scan;
    var c, more := chunks[0], Flatten(chunks[1..]);
    var frame := "$" + (data + ("#" + trailer + rest));
    PrefixOfSum(c, more, noise, frame);
    if |c| <= |noise| {
      assert c[..|c|] == c && c[|c|..] == "";
      ScanIdle(c, |c|, "", replies);
      ScanNothing(replies);
      FrameAcceptedIff(chunks[1..], noise[|c|..], data, trailer, rest, replies);
    } else {
      var k := |noise|;
      ScanIdle(c, k, "", replies);
      assert (c[k..] + more)[0] == frame[0] == '$';
      assert c[k..] + more == ['$'] + (c[k + 1..] + more) && (['$'] + (c[k + 1..] + more))[1..] == c[k + 1..] + more;
      assert frame[1..] == data + ("#" + trailer + rest);
      ScanDollar(c[k..], replies);
      assert c[k..][1..] == c[k + 1..];
      var after := [c[k + 1..]] + chunks[1..];
      assert after[1..] == chunks[1..];
      UnsplitShift(chunks, k, |data|);
      TrailerInside(after, "", data, trailer, rest, replies);
      assert "" + data == data;
      ChecksumIsTotal(data);
      DropBehind(chunks, k + 1, |data| + 3);
    }
  }

  lemma ScanNothing(replies: string)
    ensures Scan("", "", false, replies) == Open("", false, replies)
  {
  }

  lemma ScanDollar(s: string, replies: string)
    requires s != "" && s[0] == '$'
    ensures Scan(s, "", false, replies) == Scan(s[1..], "", true, replies)
  {
  }

  lemma DropBehind(chunks: seq<string>, k: nat, n: nat)
    requires chunks != [] && 0 < k <= |chunks[0]| && n > 0
    ensures DropChars([chunks[0][k..]] + chunks[1..], n) == DropChars(chunks, k + n)
  {
    var after := [chunks[0][k..]] + chunks[1..];
    assert after[1..] == chunks[1..] && after[0] == chunks[0][k..];
    if k + n < |chunks[0]| {
      assert chunks[0][k..][n..] == chunks[0][k + n..];
    }
  }

  /** The chunk in which the frame begins. */
  lemma FrameStarts(chunks: seq<string>, noise: string, data: string, rest: string, replies: string)
    requires chunks != [] && |noise| < |chunks[0]| && chunks[0][..|noise|] == noise
    requires chunks[0][|noise|..] + Flatten(chunks[1..]) == Frame(data) + rest
    requires Lacks(noise, '$') && Lacks(data, '$') && Lacks(data, '#')
    ensures Unsplit(chunks, |noise| + 1 + |data|) ==>
              Receive(chunks, "", false, replies) == (Some(data), replies + "+")
    ensures Lacks(rest, '$') && !Unsplit(chunks, |noise| + 1 + |data|) ==>
              Receive(chunks, "", false, replies).0 == None
  {
    hide Checksum, ToHex;
    var c, k, more := chunks[0], |noise|, Flatten(chunks[1..]);
    ScanIdle(c, k, "", replies);
    var after := [c[k + 1..]] + chunks[1..];
    assert after[1..] == chunks[1..];
    FrameTail(c[k..], more, data, rest);
    assert c[k..][1..] == c[k + 1..];
    assert "" + data == data;
    ReceiveInside(after, "", data, rest, replies);
    UnsplitShift(chunks, k, |data|);
  }

  lemma FrameTail(s: string, more: string, data: string, rest: string)
    requires s != "" && s + more == Frame(data) + rest
    ensures s[0] == '$' && s[1..] + more == data + ("#" + ToHex(Checksum(data)) + rest)
  {
    hide Checksum, ToHex;
    var trailer := "#" + ToHex(Checksum(data)) + rest;
    assert Frame(data) + rest == "$" + (data + trailer);
    assert s + more == [s[0]] + (s[1..] + more);
    assert ("$" + (data + trailer))[1..] == data + trailer;
    assert ([s[0]] + (s[1..] + more))[1..] == s[1..] + more;
    assert (s + more)[0] == '$';
  }

  lemma UnsplitShift(chunks: seq<string>, k: nat, pos: nat)
    requires chunks != [] && k < |chunks[0]|
    ensures Unsplit(chunks, k + 1 + pos) == Unsplit([chunks[0][k + 1..]] + chunks[1..], pos)
  {
    var after := [chunks[0][k + 1..]] + chunks[1..];
    assert after[1..] == chunks[1..];
  }

  // --- the server's side of the socket ---

  method CalculateChecksum(data: string) returns (checksum: byte)
    ensures checksum == Checksum(data)
  {
    checksum := 0;
    for i := 0 to |data|
      invariant checksum == Checksum(data[..i])
    {
      assert data[..i + 1][..i] == data[..i];
      checksum := (checksum + data[i] as int) % 256;
    }
    assert data[..|data|] == data;
  }

  /** The client connection: chunks still to be received, and everything sent. */
  class Connection {
    var incoming: seq<string>
    var sent: string

    constructor (chunks: seq<string>)
      ensures incoming == chunks && sent == ""
    {
      incoming, sent := chunks, "";
    }

    method SendPacket(data: string)
      modifies `sent
      ensures sent == old(sent) + Frame(data)
    {
      var checksum := CalculateChecksum(data);
      sent := sent + ("$" + data + "#" + ToHex(checksum));
    }

    /** The outer loop of `receive_packet`. */
    method ReceivePacket() returns (result: Option<string>)
      modifies this
      ensures (result, sent) == Receive(old(incoming), "", false, old(sent))
    {
      var packet, inPacket := "", false;
      while incoming != []
        invariant Receive(incoming, packet, inPacket, sent) == Receive(old(incoming), "", false, old(sent))
        decreases |incoming|
      {
        var buffer := incoming[0];
        incoming := incoming[1..];
        var done;
        done, packet, inPacket := ScanBuffer(buffer, packet, inPacket);
        if done {
          return Some(packet);
        }
      }
      result := None;
    }

    /** The inner loop of `receive_packet`. */
    method ScanBuffer(buffer: string, packet0: string, inPacket0: bool)
      returns (done: bool, packet: string, inPacket: bool)
      modifies `sent
      ensures Scan(buffer, packet0, inPacket0, old(sent)) ==
              if done then Accepted(packet, sent) else Open(packet, inPacket, sent)
    {
      packet, inPacket := packet0, inPacket0;
      var i := 0;
      while i < |buffer|
        invariant 0 <= i
        invariant Scan(buffer, packet0, inPacket0, old(sent)) ==
                  if i <= |buffer| then Scan(buffer[i..], packet, inPacket, sent) else Open(packet, inPacket, sent)
      {
        var c := buffer[i];
        assert buffer[i..][1..] == buffer[i + 1..];
        if c == '$' {
          packet, inPacket := "", true;
        } else if c == '#' && inPacket {
          if i + 2 < |buffer| {
            assert buffer[i..][3..] == buffer[i + 3..];
            var high := ParseHexDigits([buffer[i + 1]]);
            var low := ParseHexDigits([buffer[i + 2]]);
            ParseOne(buffer[i + 1]);
            ParseOne(buffer[i + 2]);
            var calculated := CalculateChecksum(packet);
            if (high * 16 + low) % 256 == calculated {
              sent := sent + "+";
              return true, packet, inPacket;
            } else {
              sent := sent + "-";
            }
          }
          packet, inPacket := "", false;
          i := i + 2;
        } else if inPacket {
          packet := packet + [c];
        }
        i := i + 1;
      }
      done := false;
    }
  }
}
