/** Machine words: 32-bit unsigned values and bytes as bounded integers, with the
    wrap-around of `uint32_t` written out. */
module Words {

  const TWO32 := 0x1_0000_0000

  type word = x: int | 0 <= x < TWO32
  type byte = x: int | 0 <= x < 256

  datatype Option<+T> = None | Some(value: T)

  /** `uint32_t` arithmetic: every sum and difference is taken modulo 2^32. */
  function Wrap(x: int): word {
    x % TWO32
  }

  lemma WrapTwice(x: int, y: int)
    ensures Wrap(Wrap(x) + y) == Wrap(x + y)
  {
    var q := x / TWO32;
    assert x == q * TWO32 + Wrap(x);
  }

  lemma WrapWord(w: word)
    ensures Wrap(w) == w
  {
  }

  lemma WrapAligned(x: int)
    requires x % 4 == 0
    ensures Wrap(x) % 4 == 0
  {
    var q, k := x / TWO32, x / 4;
    assert x == TWO32 * q + Wrap(x) && x == 4 * k;
    MultipleOfFour(k - 0x4000_0000 * q);
    assert Wrap(x) == 4 * (k - 0x4000_0000 * q);
  }

  lemma MultipleOfFour(k: int)
    ensures (4 * k) % 4 == 0
  {
  }

  /** Walking up or down from `base` in words: each step and its alignment. */
  lemma WordStep(base: word, k: int)
    ensures Wrap(Wrap(base + 4 * k) + 4) == Wrap(base + 4 * (k + 1))
    ensures Wrap(Wrap(base + 4 * k) - 4) == Wrap(base + 4 * (k - 1))
    ensures base % 4 == 0 ==> Wrap(base + 4 * k) % 4 == 0
  {
    hide Wrap;
    if base % 4 == 0 {
      WrapAligned(base + 4 * k);
    }
    WrapTwice(base + 4 * k, 4);
    WrapTwice(base + 4 * k, -4);
    assert base + 4 * k + 4 == base + 4 * (k + 1) && base + 4 * k - 4 == base + 4 * (k - 1);
  }

  function ClearBit0(w: word): word {
    w - w % 2
  }

  /** Two's-complement reading of a word. */
  function Signed(w: word): int {
    if w < 0x8000_0000 then w else w - TWO32
  }

  /** Bit 31. */
  predicate Negative(w: word) {
    w >= 0x8000_0000
  }

  function Pow2(n: nat): (p: nat)
    ensures p >= 1
  {
    if n == 0 then 1 else 2 * Pow2(n - 1)
  }

  /** The set of bit positions that are 1 in a 32-bit mask. */
  function BitsOf(w: word): (s: set<nat>)
    ensures forall i :: i in s ==> i < 32
  {
    set i: nat | i < 32 && (w / Pow2(i)) % 2 == 1
  }

  // --- little-endian words in a byte sequence ---

  function LittleEndian(bs: seq<byte>): word
    requires |bs| <= 4
  {
    (if |bs| > 0 then bs[0] as int else 0)
    + (if |bs| > 1 then 0x100 * (bs[1] as int) else 0)
    + (if |bs| > 2 then 0x1_0000 * (bs[2] as int) else 0)
    + (if |bs| > 3 then 0x100_0000 * (bs[3] as int) else 0)
  }

  /** The low `n` bytes of a word, least significant first: what `memcpy(p, &w, n)` stores. */
  function BytesOf(w: word, n: nat): (bs: seq<byte>)
    requires n <= 4
    ensures |bs| == n
  {
    seq(n, i requires 0 <= i < n =>
      if i == 0 then w % 0x100
      else if i == 1 then (w / 0x100) % 0x100
      else if i == 2 then (w / 0x1_0000) % 0x100
      else w / 0x100_0000)
  }

  /** Storing a word and loading it back is the identity. */
  lemma WordBytesRoundTrip(w: word)
    ensures LittleEndian(BytesOf(w, 4)) == w
  {
    var q1, q2, q3 := w / 0x100, w / 0x1_0000, w / 0x100_0000;
    assert q2 == q1 / 0x100 && q3 == q2 / 0x100;
    assert w == w % 0x100 + 0x100 * q1;
    assert q1 == q1 % 0x100 + 0x100 * q2;
    assert q2 == q2 % 0x100 + 0x100 * q3;
  }
}
