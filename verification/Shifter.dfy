/** The shifter in front of 32-bit data processing (`apply_shift`), against shifting one place at a
    time and against the shift fields of section A7.4.2 of the ARMv7-M Architecture Reference Manual. */
module Shifter {
  import opened Words
  import opened Execute

  /** One place to the left, to the right, to the right with the sign kept, and around. */
  function ShiftByOne(v: word, shiftType: nat): word {
    match shiftType
    case 0 => Wrap(v + v)
    case 1 => v / 2
    case 2 => v / 2 + if v >= 0x8000_0000 then 0x8000_0000 else 0
    case 3 => v / 2 + if v % 2 == 1 then 0x8000_0000 else 0
    case _ => v
  }

  function ShiftedBy(v: word, shiftType: nat, n: nat): word {
    if n == 0 then v else ShiftByOne(ShiftedBy(v, shiftType, n - 1), shiftType)
  }

  // --- arithmetic of powers and quotients ---

  lemma Powers()
    ensures Pow2(0) == 1 && Pow2(31) == 0x8000_0000 && Pow2(32) == TWO32
  {
    assert Pow2(8) == 0x100;
    assert Pow2(16) == 0x1_0000;
    assert Pow2(24) == 0x100_0000;
  }

  lemma Grows(p: int, d: int)
    requires p >= 1
    ensures d >= 1 ==> p * d >= p
    ensures d <= -1 ==> p * d <= -p
  {
    if d >= 1 {
      assert p * d == p + p * (d - 1) && p * (d - 1) >= 0;
    }
    if d <= -1 {
      assert p * d == -p + p * (d + 1) && p * (d + 1) <= 0;
    }
  }

  lemma Division(x: int, p: int)
    requires p >= 1
    ensures x == p * (x / p) + x % p && 0 <= x % p < p
  {
  }

  lemma QuotientIs(x: int, p: int, q: int, r: int)
    requires p >= 1 && x == p * q + r && 0 <= r < p
    ensures x / p == q && x % p == r
  {
    Division(x, p);
    var d := x / p - q;
    assert p * d == p * (x / p) - p * q;
    Grows(p, d);
  }

  /** Halving a floored quotient. */
  lemma HalvedQuotient(x: int, p: int)
    requires p >= 1
    ensures x / (2 * p) == x / p / 2 && x % (2 * p) == p * (x / p % 2) + x % p
  {
    Division(x, p);
    var q, r := x / p, x % p;
    var h, b := q / 2, q % 2;
    assert q == 2 * h + b;
    assert p * q == (2 * p) * h + p * b by {
      assert p * (2 * h + b) == (2 * p) * h + p * b;
    }
    assert 0 <= p * b <= p by {
      assert b == 0 || b == 1;
    }
    QuotientIs(x, 2 * p, h, p * b + r);
  }

  lemma WrapDoubled(x: int)
    ensures Wrap(Wrap(x) + Wrap(x)) == Wrap(2 * x)
  {
    var q := x / TWO32;
    assert x == q * TWO32 + Wrap(x);
    assert 2 * x == 2 * q * TWO32 + 2 * Wrap(x);
  }

  // --- LSL, LSR and ASR ---

  lemma LslStep(v: int, p: int)
    ensures ShiftByOne(Wrap(v * p), 0) == Wrap(v * (2 * p))
  {
    hide Wrap;
    assert v * (2 * p) == 2 * (v * p);
    WrapDoubled(v * p);
  }

  lemma {:induction false} LslPlaces(v: word, n: nat)
    ensures ShiftedBy(v, 0, n) == Wrap(v * Pow2(n))
  {
    hide Wrap, ShiftByOne;
    if n == 0 {
      WrapWord(v);
    } else {
      LslPlaces(v, n - 1);
      LslStep(v, Pow2(n - 1));
    }
  }

  /** Shifted out altogether, a word stays zero. */
  lemma {:induction false} ShiftedOut(v: word, shiftType: nat, n: nat)
    requires n >= 32 && shiftType < 2
    ensures ShiftedBy(v, shiftType, n) == 0
  {
    hide ShiftedBy;
    if n == 32 {
      Powers();
      LslPlaces(v, 32);
      LsrPlaces(v, 32);
    } else {
      ShiftedOut(v, shiftType, n - 1);
      assert ShiftedBy(v, shiftType, n) == ShiftByOne(0, shiftType) by {
        LastPlace(v, shiftType, n);
      }
    }
  }

  lemma LastPlace(v: word, shiftType: nat, n: nat)
    requires n > 0
    ensures ShiftedBy(v, shiftType, n) == ShiftByOne(ShiftedBy(v, shiftType, n - 1), shiftType)
  {
    hide ShiftByOne;
  }

  lemma SmallerQuotient(v: word, p: int)
    requires p >= 1
    ensures 0 <= v / p <= v
  {
    Division(v, p);
    Grows(p, v / p);
    if v / p >= 1 {
      assert p * (v / p) >= v / p by {
        Grows(v / p, p);
      }
    }
  }

  lemma {:induction false} LsrPlaces(v: word, n: nat)
    ensures ShiftedBy(v, 1, n) == v / Pow2(n)
  {
    if n > 0 {
      LsrPlaces(v, n - 1);
      HalvedQuotient(v, Pow2(n - 1));
    }
  }

  predicate InSignedRange(x: int) { -0x8000_0000 <= x < 0x8000_0000 }

  lemma SignedQuotient(s: int, p: int)
    requires p >= 1 && InSignedRange(s)
    ensures InSignedRange(s / p)
  {
    Division(s, p);
    var q := s / p;
    Grows(p, q);
    Grows(p, q + 1);
    Multiples(p, q);
  }

  lemma Multiples(p: int, q: int)
    requires p >= 1
    ensures q >= 0 ==> p * q >= q
    ensures q <= 0 ==> p * q <= q
  {
    assert p * q == q + (p - 1) * q;
    if q >= 0 {
      assert (p - 1) * q >= 0;
    }
    if q <= 0 {
      assert (p - 1) * q <= 0;
    }
  }

  lemma HalvedSigned(t: int)
    requires InSignedRange(t)
    ensures ShiftByOne(Wrap(t), 2) == Wrap(t / 2)
  {
  }

  lemma {:induction false} AsrPlaces(v: word, n: nat)
    ensures InSignedRange(Signed(v) / Pow2(n)) && ShiftedBy(v, 2, n) == Wrap(Signed(v) / Pow2(n))
  {
    hide Wrap, ShiftByOne;
    if n == 0 {
      WrapSigned(v);
    } else {
      AsrPlaces(v, n - 1);
      HalvedQuotient(Signed(v), Pow2(n - 1));
      HalvedSigned(Signed(v) / Pow2(n - 1));
    }
  }

  lemma WrapSigned(v: word)
    ensures Wrap(Signed(v)) == v
  {
  }

  lemma {:induction false} OnlySignLeft(v: word, n: nat)
    requires n >= 31
    ensures ShiftedBy(v, 2, n) == if Negative(v) then 0xFFFF_FFFF else 0
  {
    if n == 31 {
      Powers();
      AsrPlaces(v, 31);
    } else {
      OnlySignLeft(v, n - 1);
    }
  }

  // --- ROR ---

  /** The upper part of the word comes first, the lower part above it. */
  function Rotated(v: word, p: int, q: int): int
    requires p >= 1
  {
    v / p + v % p * q
  }

  lemma RotatedFits(v: word, p: int, q: int)
    requires p >= 1 && q >= 1 && p * q == TWO32
    ensures 0 <= v / p < q && 0 <= Rotated(v, p, q) < TWO32
  {
    Division(v, p);
    var h, l := v / p, v % p;
    assert h < q by {
      var d := h - q;
      assert p * h == p * q + p * d;
      Grows(p, d);
    }
    assert h >= 0 by {
      Grows(p, h);
    }
    LowPart(l, p, q);
  }

  lemma LowPart(l: int, p: int, q: int)
    requires 0 <= l < p && q >= 1
    ensures 0 <= l * q <= p * q - q
  {
    var k := p - 1 - l;
    assert p * q == (l + 1 + k) * q == l * q + q + k * q;
    assert k * q >= 0 && l * q >= 0;
  }

  /** The source's expression, whose left part loses what is above 32 bits. */
  lemma RotatedIs(v: word, p: int, q: int)
    requires p >= 1 && q >= 1 && p * q == TWO32
    ensures Rotated(v, p, q) == Wrap(v / p + v * q)
  {
    Division(v, p);
    RotatedFits(v, p, q);
    var h, l := v / p, v % p;
    assert v * q == h * TWO32 + l * q by {
      assert (p * h + l) * q == h * (p * q) + l * q;
    }
    QuotientIs(h + v * q, TWO32, h, h + l * q);
  }

  /** One more place: the lowest bit of the upper part moves to the top. */
  lemma RotatedStep(v: word, p: int, q: int)
    requires p >= 1 && q >= 1 && p * (2 * q) == TWO32
    ensures 0 <= Rotated(v, p, 2 * q) < TWO32
    ensures ShiftByOne(Rotated(v, p, 2 * q), 3) == Rotated(v, 2 * p, q)
  {
    RotatedFits(v, p, 2 * q);
    HalvedQuotient(v, p);
    var h, l := v / p, v % p;
    var b := h % 2;
    assert l * (2 * q) == 2 * (l * q);
    assert (p * b + l) * q == (p * q) * b + l * q;
    assert p * q == 0x8000_0000 by {
      assert p * (2 * q) == 2 * (p * q);
    }
    var r := h + 2 * (l * q);
    assert r / 2 == h / 2 + l * q && r % 2 == b;
  }

  lemma {:induction false} PowersMultiply(n: nat)
    requires n <= 32
    ensures Pow2(n) * Pow2(32 - n) == TWO32
  {
    if n == 0 {
      Powers();
    } else {
      PowersMultiply(n - 1);
      Halves(Pow2(n - 1), Pow2(32 - n));
    }
  }

  lemma Halves(p: int, q: int)
    ensures (2 * p) * q == p * (2 * q)
  {
  }

  lemma {:induction false} RorPlaces(v: word, n: nat)
    requires n <= 32
    ensures ShiftedBy(v, 3, n) == Rotated(v, Pow2(n), Pow2(32 - n))
    decreases n
  {
    hide Rotated, ShiftByOne;
    if n == 0 {
      WholeWord(v, Pow2(0), Pow2(32));
    } else {
      RorPlaces(v, n - 1);
      PowersMultiply(n - 1);
      RotatedStep(v, Pow2(n - 1), Pow2(32 - n));
    }
  }

  lemma WholeWord(v: word, p: int, q: int)
    requires p == 1
    ensures Rotated(v, p, q) == v
  {
  }

  lemma FullTurn(v: word)
    ensures ShiftedBy(v, 3, 32) == v
  {
    hide ShiftedBy, Pow2;
    RorPlaces(v, 32);
    Powers();
    QuotientIs(v, TWO32, 0, v);
  }

  lemma {:induction false} ShiftsAdd(v: word, shiftType: nat, a: nat, b: nat)
    ensures ShiftedBy(v, shiftType, a + b) == ShiftedBy(ShiftedBy(v, shiftType, a), shiftType, b)
    decreases b
  {
    hide ShiftByOne;
    if b > 0 {
      ShiftsAdd(v, shiftType, a, b - 1);
    }
  }

  lemma {:induction false} RorTurns(v: word, n: nat)
    ensures ShiftedBy(v, 3, n) == ShiftedBy(v, 3, n % 32)
  {
    hide ShiftedBy;
    if n >= 32 {
      ShiftsAdd(v, 3, 32, n - 32);
      FullTurn(v);
      RorTurns(v, n - 32);
    }
  }

  // --- the shifter ---

  /** The shifter applies LSL, LSR, ASR and ROR one place at a time, as often as the amount says. */
  lemma {:induction false} ShiftIsRepeated(v: word, shiftType: nat, n: nat)
    requires shiftType < 4
    ensures ApplyShift(v, shiftType, n) == ShiftedBy(v, shiftType, n)
  {
    hide Pow2, Wrap, ShiftByOne;
    if n == 0 {
    } else if shiftType == 3 {
      hide ShiftedBy;
      var k := n % 32;
      RorTurns(v, n);
      RorPlaces(v, k);
      PowersMultiply(k);
      RotatedIs(v, Pow2(k), Pow2(32 - k));
      if k == 0 {
        NoPlaces(v);
      }
    } else if n >= 32 {
      hide ShiftedBy;
      if shiftType == 2 {
        OnlySignLeft(v, n);
      } else {
        ShiftedOut(v, shiftType, n);
      }
    } else {
      hide ShiftedBy;
      LslPlaces(v, n);
      LsrPlaces(v, n);
      AsrPlaces(v, n);
      SmallerQuotient(v, Pow2(n));
      WrapWord(v / Pow2(n));
    }
  }

  lemma NoPlaces(v: word)
    ensures ShiftedBy(v, 3, 0) == v
  {
  }

  /** The architecture's reading of a shift field: with an amount of 0, LSR and ASR shift by 32 and ROR
      is a rotation through C by one place. */
  function ArchShift(v: word, shiftType: nat, amount: nat, c: bool): word {
    if amount != 0 || shiftType == 0 then ShiftedBy(v, shiftType, amount)
    else if shiftType == 3 then v / 2 + if c then 0x8000_0000 else 0
    else ShiftedBy(v, shiftType, 32)
  }

  /** The code shifts every word as the architecture says if and only if the field is not one of those
      three. */
  lemma {:induction false} ShiftFieldsAgreeIff(shiftType: nat, amount: nat)
    requires shiftType < 4 && amount < 32
    ensures (forall v: word, c :: ApplyShift(v, shiftType, amount) == ArchShift(v, shiftType, amount, c))
            <==> amount != 0 || shiftType == 0
  {
    hide ShiftedBy;
    if amount != 0 || shiftType == 0 {
      forall v: word, c: bool ensures ApplyShift(v, shiftType, amount) == ArchShift(v, shiftType, amount, c) {
        hide ApplyShift;
        ShiftIsRepeated(v, shiftType, amount);
      }
    } else {
      ShiftedOut(1, 1, 32);
      OnlySignLeft(1, 32);
      assert ApplyShift(1, shiftType, amount) != ArchShift(1, shiftType, amount, false);
    }
  }
}
