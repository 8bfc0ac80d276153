/** Hexadecimal text: `parse_hex` and `to_hex` of src/debug/GDBServer.cpp. */
module HexText {
  import opened Words

  /** The value of a hex digit; other characters count as 0. */
  function Digit(c: char): (d: nat)
    ensures d < 16
  {
    if '0' <= c <= '9' then c as int - '0' as int
    else if 'a' <= c <= 'f' then c as int - 'a' as int + 10
    else if 'A' <= c <= 'F' then c as int - 'A' as int + 10
    else 0
  }

  predicate IsHex(c: char) { '0' <= c <= '9' || 'a' <= c <= 'f' || 'A' <= c <= 'F' }

  predicate AllHex(s: string) { forall i :: 0 <= i < |s| ==> IsHex(s[i]) }

  function HexChar(d: nat): (c: char)
    requires d < 16
    ensures IsHex(c) && Digit(c) == d
  {
    "0123456789abcdef"[d]
  }

  /** Shift in one digit: the top four bits of the value are lost. */
  function PushDigit(v: word, c: char): word {
    v % 0x1000_0000 * 16 + Digit(c)
  }

  /** `parse_hex`: 32-bit shifts, so that long strings keep their last eight digits. */
  function ParseHex(s: string): word {
    if s == "" then 0 else PushDigit(ParseHex(s[..|s| - 1]), s[|s| - 1])
  }

  /** The accumulating loop of `parse_hex`. */
  method ParseHexDigits(hex: string) returns (result: word)
    ensures result == ParseHex(hex)
  {
    result := 0;
    for i := 0 to |hex|
      invariant result == ParseHex(hex[..i])
    {
      assert hex[..i + 1][..i] == hex[..i];
      result := PushDigit(result, hex[i]);
    }
    assert hex[..|hex|] == hex;
  }

  /** `to_hex(uint8_t)`. */
  function ToHex(b: byte): (s: string)
    ensures |s| == 2 && AllHex(s)
  {
    [HexChar(b / 16), HexChar(b % 16)]
  }

  function LowerChar(c: char): char {
    if 'A' <= c <= 'F' then (c as int - 'A' as int + 'a' as int) as char else c
  }

  function Lower(s: string): (r: string)
    ensures |r| == |s|
    ensures forall i :: 0 <= i < |s| ==> r[i] == LowerChar(s[i])
  {
    seq(|s|, i requires 0 <= i < |s| => LowerChar(s[i]))
  }

  lemma DigitSpelling(c: char)
    requires IsHex(c)
    ensures HexChar(Digit(c)) == LowerChar(c)
  {
  }

  lemma ParseTwo(s: string)
    requires |s| == 2
    ensures ParseHex(s) == 16 * Digit(s[0]) + Digit(s[1])
  {
    assert s[..1] == [s[0]] && s[..1][..0] == "";
    assert ParseHex(s[..1]) == Digit(s[0]);
  }

  lemma ParseOne(c: char)
    ensures ParseHex([c]) == Digit(c)
  {
    assert [c][..0] == "";
  }

  /** The two digits of 16 a + b are a and b. */
  lemma ToHexOfDigits(a: nat, b: nat)
    requires a < 16 && b < 16
    ensures 16 * a + b < 256 && ToHex(16 * a + b) == [HexChar(a), HexChar(b)]
  {
    assert (16 * a + b) / 16 == a && (16 * a + b) % 16 == b;
  }

  /** Printing a parsed pair of digits gives the pair in lower case. */
  lemma PairRoundTrip(s: string)
    requires |s| == 2 && AllHex(s)
    ensures ParseHex(s) < 256 && ToHex(ParseHex(s)) == Lower(s)
  {
    hide Digit, HexChar, LowerChar, ToHex, IsHex, ParseHex;
    ParseTwo(s);
    DigitSpelling(s[0]);
    DigitSpelling(s[1]);
    ToHexOfDigits(Digit(s[0]), Digit(s[1]));
  }

  /** Parsing a printed byte gives the byte. */
  lemma ByteRoundTrip(b: byte)
    ensures ParseHex(ToHex(b)) == b
  {
    ParseTwo(ToHex(b));
  }
}
