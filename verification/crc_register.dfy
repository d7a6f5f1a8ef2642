// The CRC register of libdaylite/src/crc.cpp, fed one bit at a time: the
// reference that the table-driven update is proved against.
//
// Bit-vector facts are proved in lemmas of a line or two; everything built on
// them hides Shift and Xor, so that it is plain equational reasoning.

module CrcRegister {

  function Xor(a: bv32, b: bv32): bv32 { a ^ b }

  function Low(w: bv32): bool { w & 1 == 1 }

  function Top(w: bv32): bool { w & 0x8000_0000 != 0 }

  function Half(w: bv32): bv32 { w >> 1 }

  function BitWord(bit: bool): bv32 { if bit then 1 else 0 }

  /** Puts a bit below the others, and drops the top one. */
  function Push(w: bv32, bit: bool): bv32 { (w << 1) | BitWord(bit) }

  /** The generator x^32 + x^26 + ... + 1 without its leading term, reflected:
      bit k is the coefficient of x^(31 - k). */
  const POLY_REFLECTED: bv32 := 0xEDB88320

  /** One step of the reflected division. */
  function Shift(r: bv32): bv32 {
    if Low(r) then Xor(Half(r), POLY_REFLECTED) else Half(r)
  }

  function ShiftN(r: bv32, n: nat): bv32
    decreases n
  {
    if n == 0 then r else ShiftN(Shift(r), n - 1)
  }

  /** Feeds a message one bit at a time, in transmission order. */
  function FeedBits(r: bv32, bits: seq<bool>): bv32
    decreases |bits|
  {
    if bits == [] then r else FeedBits(Shift(Xor(r, BitWord(bits[0]))), bits[1..])
  }

  /** The low n bits of w, least significant first. */
  function WordBits(w: bv32, n: nat): (bits: seq<bool>)
    ensures |bits| == n
    decreases n
  {
    if n == 0 then [] else [Low(w)] + WordBits(Half(w), n - 1)
  }

  /** w has no bit at position n or above. */
  predicate Fits(w: bv32, n: nat)
    decreases n
  {
    if n == 0 then w == 0 else Fits(Half(w), n - 1)
  }

  /** The word whose bits, least significant first, are the given ones. */
  function WordOf(bits: seq<bool>): bv32 {
    if bits == [] then 0 else Push(WordOf(bits[1..]), bits[0])
  }

  /** Bytes in the order they are read, each least significant bit first. */
  function BitsOf(data: seq<bv8>): (bits: seq<bool>)
    ensures |bits| == 8 * |data|
  {
    if data == [] then [] else WordBits(data[0] as bv32, 8) + BitsOf(data[1..])
  }

  // ---- bit-vector facts ---------------------------------------------------

  lemma XorAssoc(a: bv32, b: bv32, c: bv32)
    ensures Xor(Xor(a, b), c) == Xor(a, Xor(b, c))
  {}

  lemma XorComm(a: bv32, b: bv32)
    ensures Xor(a, b) == Xor(b, a)
  {}

  lemma XorZero(a: bv32)
    ensures Xor(a, 0) == a && Xor(0, a) == a && Xor(a, a) == 0
  {}

  lemma XorTwice(a: bv32, b: bv32)
    ensures Xor(Xor(a, b), b) == a && Xor(b, Xor(b, a)) == a
  {}

  /** (a + b) + (c + d) == (a + c) + (b + d) */
  lemma XorSwap(a: bv32, b: bv32, c: bv32, d: bv32)
    ensures Xor(Xor(a, b), Xor(c, d)) == Xor(Xor(a, c), Xor(b, d))
  {
    hide Xor;
    XorAssoc(a, b, Xor(c, d));
    XorAssoc(b, c, d);
    XorComm(b, c);
    XorAssoc(c, b, d);
    XorAssoc(a, c, Xor(b, d));
  }

  lemma LowXor(a: bv32, b: bv32)
    ensures Low(Xor(a, b)) == (Low(a) != Low(b))
  {}

  lemma HalfXor(a: bv32, b: bv32)
    ensures Half(Xor(a, b)) == Xor(Half(a), Half(b))
  {}

  lemma TopFacts(r: bv32)
    ensures !Top(Half(r)) && Top(Xor(Half(r), POLY_REFLECTED))
    ensures Top(Xor(r, POLY_REFLECTED)) == !Top(r)
  {}

  lemma PushPop(h: bv32, bit: bool)
    requires !Top(h)
    ensures Half(Push(h, bit)) == h && Low(Push(h, bit)) == bit
  {}

  /** Low bit and upper bits together determine a word. */
  lemma PopPush(w: bv32)
    ensures Push(Half(w), Low(w)) == w
  {}

  /** A word is its low bit plus a word that a step only halves. */
  lemma SplitLow(w: bv32)
    ensures var h := w & 0xFFFF_FFFE;
            w == Xor(BitWord(Low(w)), h) && !Low(h) && Half(h) == Half(w)
  {}

  // ---- the step is linear and a bijection --------------------------------

  lemma ShiftXor(a: bv32, b: bv32)
    ensures Shift(Xor(a, b)) == Xor(Shift(a), Shift(b))
  {
    hide Xor, Low, Half;
    LowXor(a, b);
    HalfXor(a, b);
    var x, y, p := Half(a), Half(b), POLY_REFLECTED;
    XorSwap(x, p, y, p);
    XorZero(p);
    XorZero(Xor(x, y));
    XorAssoc(x, y, p);
    XorAssoc(x, p, y);
    XorComm(p, y);
  }

  /** Undoes Shift: the top bit tells whether the generator was added. */
  function Unshift(r: bv32): bv32 {
    if Top(r) then Push(Xor(r, POLY_REFLECTED), true) else Push(r, false)
  }

  lemma ShiftUnshift(r: bv32)
    ensures Shift(Unshift(r)) == r && Unshift(Shift(r)) == r
  {
    hide Xor, Low, Top, Half, Push;
    TopFacts(r);
    XorTwice(r, POLY_REFLECTED);
    XorTwice(Half(r), POLY_REFLECTED);
    PopPush(r);
    if Top(r) {
      PushPop(Xor(r, POLY_REFLECTED), true);
    } else {
      PushPop(r, false);
    }
  }

  lemma {:induction false} ShiftNXor(a: bv32, b: bv32, n: nat)
    ensures ShiftN(Xor(a, b), n) == Xor(ShiftN(a, n), ShiftN(b, n))
    decreases n
  {
    hide Shift, Xor;
    if n > 0 {
      ShiftXor(a, b);
      ShiftNXor(Shift(a), Shift(b), n - 1);
    }
  }

  lemma {:induction false} ShiftNAdd(r: bv32, m: nat, n: nat)
    ensures ShiftN(r, m + n) == ShiftN(ShiftN(r, m), n)
    decreases m
  {
    hide Shift;
    if m > 0 {
      ShiftNAdd(Shift(r), m - 1, n);
    }
  }

  lemma {:induction false} ShiftNInjective(a: bv32, b: bv32, n: nat)
    requires ShiftN(a, n) == ShiftN(b, n)
    ensures a == b
    decreases n
  {
    hide Shift, Unshift;
    if n > 0 {
      ShiftNInjective(Shift(a), Shift(b), n - 1);
      ShiftUnshift(a);
      ShiftUnshift(b);
    }
  }

  /** The register before the given bits were fed, from the register after. */
  function UnfeedBits(r: bv32, bits: seq<bool>): bv32
    decreases |bits|
  {
    if bits == [] then r else Xor(Unshift(UnfeedBits(r, bits[1..])), BitWord(bits[0]))
  }

  /** For fixed data the update is a bijection of the 32-bit register. */
  lemma {:induction false} FeedBitsBijective(r: bv32, bits: seq<bool>)
    ensures UnfeedBits(FeedBits(r, bits), bits) == r
    ensures FeedBits(UnfeedBits(r, bits), bits) == r
    decreases |bits|
  {
    hide Shift, Unshift, Xor, BitWord;
    if bits != [] {
      var b, u := BitWord(bits[0]), UnfeedBits(r, bits[1..]);
      FeedBitsBijective(Shift(Xor(r, b)), bits[1..]);
      ShiftUnshift(Xor(r, b));
      XorTwice(r, b);
      FeedBitsBijective(r, bits[1..]);
      ShiftUnshift(u);
      XorTwice(Unshift(u), b);
    }
  }

  lemma {:induction false} FeedBitsConcat(r: bv32, u: seq<bool>, v: seq<bool>)
    ensures FeedBits(r, u + v) == FeedBits(FeedBits(r, u), v)
    decreases |u|
  {
    hide Shift, Xor, BitWord;
    if u == [] {
      assert u + v == v;
    } else {
      assert (u + v)[1..] == u[1..] + v;
      FeedBitsConcat(Shift(Xor(r, BitWord(u[0]))), u[1..], v);
    }
  }

  // ---- feeding a whole word ----------------------------------------------

  /** A step on r + w: the low bit of w enters the division, the rest moves down. */
  lemma ShiftFirstBit(r: bv32, w: bv32)
    ensures Shift(Xor(r, w)) == Xor(Shift(Xor(r, BitWord(Low(w)))), Half(w))
  {
    var h := w & 0xFFFF_FFFE;
    SplitLow(w);
    ShiftEvenPart(r, BitWord(Low(w)), h);
  }

  lemma ShiftEvenPart(r: bv32, b: bv32, h: bv32)
    requires !Low(h)
    ensures Shift(Xor(r, Xor(b, h))) == Xor(Shift(Xor(r, b)), Half(h))
  {
    hide Xor, Low, Half;
    XorAssoc(r, b, h);
    ShiftXor(Xor(r, b), h);
  }

  /** Bit by bit or all at once: n bits of w fed to r. */
  lemma {:induction false} FeedWord(r: bv32, w: bv32, n: nat)
    requires Fits(w, n)
    ensures FeedBits(r, WordBits(w, n)) == ShiftN(Xor(r, w), n)
    decreases n
  {
    hide Shift, Xor, BitWord, Low, Half;
    if n == 0 {
      XorZero(r);
    } else {
      ShiftFirstBit(r, w);
      FeedWord(Shift(Xor(r, BitWord(Low(w)))), Half(w), n - 1);
      assert WordBits(w, n)[1..] == WordBits(Half(w), n - 1);
    }
  }

  // ---- words and their bits ----------------------------------------------

  lemma {:induction false} FitsMore(w: bv32, m: nat, n: nat)
    requires Fits(w, m) && m <= n
    ensures Fits(w, n)
    decreases n
  {
    if n > 0 {
      if m > 0 {
        FitsMore(Half(w), m - 1, n - 1);
      } else {
        FitsMore(Half(w), 0, n - 1);
      }
    }
  }

  function Byte1(w: bv32): bv32 { w >> 8 }

  lemma Byte1Halves(w: bv32)
    ensures Byte1(w) == Half(Half(Half(Half(Half(Half(Half(Half(w))))))))
  {}

  lemma ByteFacts(w: bv32)
    ensures Byte1(Byte1(Byte1(Byte1(w)))) == 0
    ensures Half(Half(Half(Half(Half(Half(Half(Byte1(Byte1(Byte1(w)))))))))) == 0 ==> !Top(w)
  {}

  lemma FitsUnfold4(w: bv32, n: nat)
    ensures Fits(w, n + 4) == Fits(Half(Half(Half(Half(w)))), n)
  {
    hide Half;
    assert Fits(w, n + 4) == Fits(Half(w), n + 3);
    assert Fits(Half(w), n + 3) == Fits(Half(Half(w)), n + 2);
    assert Fits(Half(Half(w)), n + 2) == Fits(Half(Half(Half(w))), n + 1);
  }

  lemma FitsByte1(w: bv32, n: nat)
    ensures Fits(w, n + 8) == Fits(Byte1(w), n)
  {
    hide Half, Byte1;
    FitsUnfold4(w, n + 4);
    FitsUnfold4(Half(Half(Half(Half(w)))), n);
    Byte1Halves(w);
  }

  lemma FitsClearsTop(w: bv32, n: nat)
    requires Fits(w, n) && n <= 31
    ensures !Top(w)
  {
    hide Half, Byte1, Top;
    FitsMore(w, n, 31);
    var b := Byte1(Byte1(Byte1(w)));
    FitsByte1(w, 23);
    FitsByte1(Byte1(w), 15);
    FitsByte1(Byte1(Byte1(w)), 7);
    FitsUnfold4(b, 3);
    var h := Half(Half(Half(Half(b))));
    assert Fits(h, 3) ==> Fits(Half(Half(h)), 1);
    ByteFacts(w);
  }

  lemma FitsAll(w: bv32)
    ensures Fits(w, 32)
  {
    hide Half, Byte1, Top;
    FitsByte1(w, 24);
    FitsByte1(Byte1(w), 16);
    FitsByte1(Byte1(Byte1(w)), 8);
    FitsByte1(Byte1(Byte1(Byte1(w))), 0);
    ByteFacts(w);
  }

  lemma FitsByte(d: bv8)
    ensures Fits(d as bv32, 8)
  {
    FitsByte1(d as bv32, 0);
    assert Byte1(d as bv32) == 0;
  }

  lemma {:induction false} WordOfBits(bits: seq<bool>)
    requires |bits| <= 32
    ensures Fits(WordOf(bits), |bits|) && WordBits(WordOf(bits), |bits|) == bits
    decreases |bits|
  {
    hide Low, Half, Push, Top;
    if bits != [] {
      WordOfBits(bits[1..]);
      FitsClearsTop(WordOf(bits[1..]), |bits| - 1);
      PushPop(WordOf(bits[1..]), bits[0]);
    }
  }

  /** A word of at most 32 bits is determined by them. */
  lemma {:induction false} WordOfWordBits(w: bv32, n: nat)
    requires Fits(w, n)
    ensures WordOf(WordBits(w, n)) == w
    decreases n
  {
    hide Low, Half, Push;
    if n > 0 {
      WordOfWordBits(Half(w), n - 1);
      PopPush(w);
      assert WordBits(w, n)[1..] == WordBits(Half(w), n - 1);
    }
  }

  lemma {:induction false} BitsOfConcat(x: seq<bv8>, y: seq<bv8>)
    ensures BitsOf(x + y) == BitsOf(x) + BitsOf(y)
  {
    hide WordBits;
    if x == [] {
      assert x + y == y;
    } else {
      assert (x + y)[1..] == x[1..] + y;
      BitsOfConcat(x[1..], y);
    }
  }
}
