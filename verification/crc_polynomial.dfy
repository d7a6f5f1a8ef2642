// The CRC register as polynomial long division over GF(2), and in the MSB-first
// form that the generator 0x04C11DB7 names (ISO 3309; section 8.1.1.6.2 of
// ITU-T V.42; section 8 of RFC 1952).

module CrcPolynomial {
  import opened CrcRegister
  import opened Crc

  // ---- long division ------------------------------------------------------

  /** A polynomial by its coefficients, leading one first. */
  type Poly = seq<bool>

  /** The exponents below 32 of the generator of ISO 3309. */
  const EXPONENTS: set<nat> := {26, 23, 22, 16, 12, 11, 10, 8, 7, 5, 4, 2, 1, 0}

  /** The generator without its leading term x^32. */
  function Generator(): (g: Poly)
    ensures |g| == 32
  {
    seq(32, i requires 0 <= i < 32 => (31 - i) in EXPONENTS)
  }

  /** Adds g, aligned with the leading terms of d. */
  function AddLeading(d: Poly, g: Poly): (s: Poly)
    requires |g| <= |d|
    ensures |s| == |d|
  {
    if g == [] then d else [d[0] != g[0]] + AddLeading(d[1..], g[1..])
  }

  /** Schoolbook long division: while a leading term of degree 32 or more is left,
      cancel it by adding a multiple of the generator. */
  function Remainder(d: Poly): (r: Poly)
    requires |d| >= 32
    ensures |r| == 32
    decreases |d|
  {
    if |d| == 32 then d
    else if d[0] then Remainder(AddLeading(d[1..], Generator()))
    else Remainder(d[1..])
  }

  function Zeros(n: nat): (z: Poly)
    ensures |z| == n
  {
    seq(n, _ => false)
  }

  lemma {:induction false} AddLeadingAt(d: Poly, g: Poly, k: nat)
    requires |g| <= |d| && k < |d|
    ensures AddLeading(d, g)[k] == (if k < |g| then d[k] != g[k] else d[k])
  {
    if g != [] && k > 0 {
      AddLeadingAt(d[1..], g[1..], k - 1);
    }
  }

  lemma AddLeadingTwice(d: Poly, a: Poly, b: Poly)
    requires |a| == |b| <= |d|
    ensures AddLeading(AddLeading(d, a), b) == AddLeading(d, AddLeading(a, b))
  {
    var l, r := AddLeading(AddLeading(d, a), b), AddLeading(d, AddLeading(a, b));
    forall k | 0 <= k < |d| ensures l[k] == r[k] {
      AddLeadingAt(AddLeading(d, a), b, k);
      AddLeadingAt(d, a, k);
      AddLeadingAt(d, AddLeading(a, b), k);
      if k < |a| {
        AddLeadingAt(a, b, k);
      }
    }
  }

  // ---- the register's bits ------------------------------------------------

  lemma {:induction false} WordBitsXor(a: bv32, b: bv32, n: nat)
    ensures WordBits(Xor(a, b), n) == AddLeading(WordBits(a, n), WordBits(b, n))
    decreases n
  {
    hide Xor, Low, Half;
    if n > 0 {
      LowXor(a, b);
      HalfXor(a, b);
      WordBitsXor(Half(a), Half(b), n - 1);
      assert WordBits(a, n)[1..] == WordBits(Half(a), n - 1);
      assert WordBits(b, n)[1..] == WordBits(Half(b), n - 1);
    }
  }

  lemma {:induction false} WordBitsExtend(w: bv32, n: nat)
    requires Fits(w, n)
    ensures WordBits(w, n + 1) == WordBits(w, n) + [false]
    decreases n
  {
    hide Half;
    if n == 0 {
      assert !Low(w);
      assert WordBits(w, 1) == [Low(w)] + WordBits(Half(w), 0);
    } else {
      WordBitsExtend(Half(w), n - 1);
      assert WordBits(w, n + 1) == [Low(w)] + WordBits(Half(w), n);
      assert WordBits(w, n) == [Low(w)] + WordBits(Half(w), n - 1);
    }
  }

  lemma HalfBits(w: bv32)
    ensures WordBits(Half(w), 32) == WordBits(w, 32)[1..] + [false]
  {
    hide Half, Low;
    FitsAll(w);
    WordBitsExtend(w, 32);
    assert WordBits(w, 33) == [Low(w)] + WordBits(Half(w), 32);
    assert WordBits(w, 33)[1..] == WordBits(w, 32)[1..] + [false];
  }

  lemma FirstBit(w: bv32)
    ensures WordBits(w, 32)[0] == Low(w)
  {}

  function Nibble(w: bv32): seq<bool> {
    [Low(w), Low(Half(w)), Low(Half(Half(w))), Low(Half(Half(Half(w))))]
  }

  lemma Four(a: bool, b: bool, c: bool, d: bool, rest: seq<bool>)
    ensures [a] + ([b] + ([c] + ([d] + rest))) == [a, b, c, d] + rest
  {}

  lemma NibbleFirst(w: bv32, n: nat)
    ensures WordBits(w, n + 4) == Nibble(w) + WordBits(Half(Half(Half(Half(w)))), n)
  {
    hide Low, Half;
    var v, x, y := Half(w), Half(Half(w)), Half(Half(Half(w)));
    assert WordBits(w, n + 4) == [Low(w)] + WordBits(v, n + 3);
    assert WordBits(v, n + 3) == [Low(v)] + WordBits(x, n + 2);
    assert WordBits(x, n + 2) == [Low(x)] + WordBits(y, n + 1);
    assert WordBits(y, n + 1) == [Low(y)] + WordBits(Half(y), n);
    Four(Low(w), Low(v), Low(x), Low(y), WordBits(Half(y), n));
  }

  lemma NibbleAt(w: bv32, v: bv32, a: bool, b: bool, c: bool, d: bool, n: nat)
    requires Nibble(w) == [a, b, c, d] && Half(Half(Half(Half(w)))) == v
    ensures WordBits(w, n + 4) == [a, b, c, d] + WordBits(v, n)
  {
    hide Low, Half;
    NibbleFirst(w, n);
  }

  lemma LowHalfOfGenerator()
    ensures WordBits(0xedb88320, 32)
         == [false, false, false, false] + ([false, true, false, false] + ([true, true, false, false]
          + ([false, false, false, true] + WordBits(0xedb8, 16))))
  {
    NibbleAt(0xedb88320, 0x0edb8832, false, false, false, false, 28);
    NibbleAt(0x0edb8832, 0x00edb883, false, true, false, false, 24);
    NibbleAt(0x00edb883, 0x000edb88, true, true, false, false, 20);
    NibbleAt(0x000edb88, 0x0000edb8, false, false, false, true, 16);
  }

  lemma HighHalfOfGenerator()
    ensures WordBits(0xedb8, 16)
         == [false, false, false, true] + ([true, true, false, true] + ([true, false, true, true]
          + [false, true, true, true]))
  {
    NibbleAt(0xedb8, 0x0edb, false, false, false, true, 12);
    NibbleAt(0x0edb, 0x00ed, true, true, false, true, 8);
    NibbleAt(0x00ed, 0x000e, true, false, true, true, 4);
    NibbleAt(0x000e, 0x0000, false, true, true, true, 0);
  }

  /** The constant of the table is the generator of the standard. */
  lemma GeneratorBits()
    ensures WordBits(POLY_REFLECTED, 32) == Generator()
  {
    hide WordBits;
    LowHalfOfGenerator();
    HighHalfOfGenerator();
  }

  /** One step of the register is one step of the long division. */
  lemma ShiftIsDivisionStep(r: bv32)
    ensures WordBits(Shift(r), 32)
         == if Low(r) then AddLeading(WordBits(r, 32)[1..] + [false], Generator())
            else WordBits(r, 32)[1..] + [false]
  {
    hide Xor, Low, Half, WordBits;
    HalfBits(r);
    WordBitsXor(Half(r), POLY_REFLECTED, 32);
    GeneratorBits();
  }

  lemma BitEnters(r: bv32, bit: bool)
    ensures Low(Xor(r, BitWord(bit))) == (Low(r) != bit)
    ensures Half(Xor(r, BitWord(bit))) == Half(r)
  {}

  lemma BitEntersBits(r: bv32, bit: bool)
    ensures WordBits(Xor(r, BitWord(bit)), 32)[1..] == WordBits(r, 32)[1..]
  {
    hide Xor, Low, Half;
    BitEnters(r, bit);
    var s := Xor(r, BitWord(bit));
    assert WordBits(s, 32) == [Low(s)] + WordBits(Half(s), 31);
    assert WordBits(r, 32) == [Low(r)] + WordBits(Half(r), 31);
  }

  /** The dividend that the register stands for: the bits still to come followed by
      32 zeros, with the register added to the leading terms. */
  function Dividend(r: bv32, bits: seq<bool>): (d: Poly)
    ensures |d| == |bits| + 32
  {
    AddLeading(bits + Zeros(32), WordBits(r, 32))
  }

  lemma DividendShift(r: bv32, bits: seq<bool>)
    requires bits != []
    ensures Dividend(r, bits)[0] == (Low(r) != bits[0])
    ensures Dividend(r, bits)[1..] == AddLeading(bits[1..] + Zeros(32), WordBits(r, 32)[1..] + [false])
  {
    hide Low, WordBits;
    FirstBit(r);
    assert (bits + Zeros(32))[1..] == bits[1..] + Zeros(32);
    AddLeadingZero(bits[1..] + Zeros(32), WordBits(r, 32)[1..]);
  }

  lemma AddLeadingZero(d: Poly, g: Poly)
    requires |g| < |d|
    ensures AddLeading(d, g + [false]) == AddLeading(d, g)
  {
    forall k | 0 <= k < |d| ensures AddLeading(d, g + [false])[k] == AddLeading(d, g)[k] {
      AddLeadingAt(d, g + [false], k);
      AddLeadingAt(d, g, k);
    }
  }

  /** Feeding bits to the register leaves the remainder, on division by
      x^32 + x^26 + ... + 1, of the message times x^32 with the initial register
      added to its first 32 coefficients. */
  lemma {:induction false} RegisterIsRemainder(r: bv32, bits: seq<bool>)
    ensures WordBits(FeedBits(r, bits), 32) == Remainder(Dividend(r, bits))
    decreases |bits|
  {
    hide Xor, Low, Half, Shift, WordBits, BitWord;
    var w := WordBits(r, 32);
    if bits == [] {
      forall k | 0 <= k < 32 ensures Dividend(r, bits)[k] == w[k] {
        AddLeadingAt(bits + Zeros(32), w, k);
      }
    } else {
      var s, e := Xor(r, BitWord(bits[0])), bits[1..] + Zeros(32);
      BitEnters(r, bits[0]);
      BitEntersBits(r, bits[0]);
      ShiftIsDivisionStep(s);
      DividendShift(r, bits);
      AddLeadingTwice(e, w[1..] + [false], Generator());
      RegisterIsRemainder(Shift(s), bits[1..]);
    }
  }

  // ---- the checksum -------------------------------------------------------

  lemma LowOnes()
    ensures WordBits(0xffff_ffff, 32)
         == [true, true, true, true] + ([true, true, true, true] + ([true, true, true, true]
          + ([true, true, true, true] + WordBits(0xffff, 16))))
  {
    NibbleAt(0xffff_ffff, 0x0fff_ffff, true, true, true, true, 28);
    NibbleAt(0x0fff_ffff, 0x00ff_ffff, true, true, true, true, 24);
    NibbleAt(0x00ff_ffff, 0x000f_ffff, true, true, true, true, 20);
    NibbleAt(0x000f_ffff, 0x0000_ffff, true, true, true, true, 16);
  }

  lemma HighOnes()
    ensures WordBits(0xffff, 16)
         == [true, true, true, true] + ([true, true, true, true] + ([true, true, true, true]
          + [true, true, true, true]))
  {
    NibbleAt(0xffff, 0x0fff, true, true, true, true, 12);
    NibbleAt(0x0fff, 0x00ff, true, true, true, true, 8);
    NibbleAt(0x00ff, 0x000f, true, true, true, true, 4);
    NibbleAt(0x000f, 0x0000, true, true, true, true, 0);
  }

  lemma AllOnes(k: nat)
    requires k < 32
    ensures WordBits(0xffff_ffff, 32)[k]
  {
    hide WordBits;
    LowOnes();
    HighOnes();
  }

  /** The message followed by 32 zeros, its first 32 bits complemented. */
  function Complemented(bits: seq<bool>): (d: Poly)
    ensures |d| == |bits| + 32
  {
    seq(|bits| + 32, i requires 0 <= i < |bits| + 32 => (i < |bits| && bits[i]) != (i < 32))
  }

  lemma InitComplements(bits: seq<bool>)
    ensures Dividend(CrcInit(), bits) == Complemented(bits)
  {
    hide WordBits;
    forall k | 0 <= k < |bits| + 32 ensures Dividend(CrcInit(), bits)[k] == Complemented(bits)[k] {
      AddLeadingAt(bits + Zeros(32), WordBits(CrcInit(), 32), k);
      if k < 32 {
        AllOnes(k);
      }
    }
  }

  /** The checksum of a message, read lowest bit first, is the complement of the
      remainder of the message whose first 32 bits are complemented. */
  lemma ChecksumIsRemainder(data: seq<bv8>)
    ensures WordBits(CrcFinalize(Checksum(data)), 32) == Remainder(Complemented(BitsOf(data)))
    ensures forall k | 0 <= k < 32 ::
              WordBits(Checksum(data), 32)[k] != Remainder(Complemented(BitsOf(data)))[k]
  {
    hide Xor, FeedBits, WordBits, Remainder, BitsOf, Complemented, Dividend;
    var r := FeedBits(CrcInit(), BitsOf(data));
    XorTwice(r, 0xffff_ffff);
    InitComplements(BitsOf(data));
    RegisterIsRemainder(CrcInit(), BitsOf(data));
    WordBitsXor(r, 0xffff_ffff, 32);
    forall k | 0 <= k < 32 ensures WordBits(Checksum(data), 32)[k] != WordBits(r, 32)[k] {
      AddLeadingAt(WordBits(r, 32), WordBits(0xffff_ffff, 32), k);
      AllOnes(k);
    }
  }
}
