// crc_reflect of libdaylite/src/crc.cpp, and the MSB-first form of the division.

module CrcReflection {
  import opened Numbers
  import opened CrcRegister
  import opened CrcPolynomial

  function Reverse(s: seq<bool>): (r: seq<bool>)
    ensures |r| == |s|
  {
    if s == [] then [] else Reverse(s[1..]) + [s[0]]
  }

  /** The low n bits of w in the opposite order. */
  function Reflect(w: bv32, n: nat): bv32 { WordOf(Reverse(WordBits(w, n))) }

  lemma {:induction false} ReverseAt(s: seq<bool>, k: nat)
    requires k < |s|
    ensures Reverse(s)[k] == s[|s| - 1 - k]
  {
    if k < |s| - 1 {
      ReverseAt(s[1..], k);
    }
  }

  lemma {:induction false} ReverseAppend(s: seq<bool>, b: bool)
    ensures Reverse(s + [b]) == [b] + Reverse(s)
  {
    if s == [] {
      assert [] + [b] == [b] && [b][1..] == [];
    } else {
      assert (s + [b])[1..] == s[1..] + [b];
      ReverseAppend(s[1..], b);
    }
  }

  lemma ReverseTwice(s: seq<bool>)
    ensures Reverse(Reverse(s)) == s
  {
    forall k | 0 <= k < |s| ensures Reverse(Reverse(s))[k] == s[k] {
      ReverseAt(Reverse(s), k);
      ReverseAt(s, |s| - 1 - k);
    }
  }

  /** Bit k of the reflected word is bit n - 1 - k of the word, and no higher bit is set. */
  lemma ReflectBits(w: bv32, n: nat)
    requires n <= 32
    ensures WordBits(Reflect(w, n), n) == Reverse(WordBits(w, n)) && Fits(Reflect(w, n), n)
  {
    WordOfBits(Reverse(WordBits(w, n)));
  }

  /** Reflecting twice gives back the low n bits. */
  lemma ReflectTwice(w: bv32, n: nat)
    requires n <= 32
    ensures WordBits(Reflect(Reflect(w, n), n), n) == WordBits(w, n)
    ensures Fits(w, n) ==> Reflect(Reflect(w, n), n) == w
  {
    ReflectBits(w, n);
    ReflectBits(Reflect(w, n), n);
    ReverseTwice(WordBits(w, n));
    if Fits(w, n) {
      WordOfWordBits(w, n);
    }
  }

  // ---- the loop -----------------------------------------------------------

  function HalfN(w: bv32, n: nat): bv32
    decreases n
  {
    if n == 0 then w else HalfN(Half(w), n - 1)
  }

  lemma {:induction false} HalfNNext(w: bv32, n: nat)
    ensures Half(HalfN(w, n)) == HalfN(w, n + 1)
    decreases n
  {
    hide Half;
    if n > 0 {
      HalfNNext(Half(w), n - 1);
    }
  }

  lemma {:induction false} WordBitsNext(w: bv32, n: nat)
    ensures WordBits(w, n + 1) == WordBits(w, n) + [Low(HalfN(w, n))]
    decreases n
  {
    hide Half, Low;
    if n > 0 {
      WordBitsNext(Half(w), n - 1);
      assert WordBits(w, n + 1) == [Low(w)] + WordBits(Half(w), n);
      assert WordBits(w, n) == [Low(w)] + WordBits(Half(w), n - 1);
    } else {
      assert WordBits(w, 1) == [Low(w)] + WordBits(Half(w), 0);
    }
  }

  lemma PushIsOr(w: bv32, d: bv32)
    ensures (w << 1) | (d & 1) == Push(w, Low(d)) && d & 1 == BitWord(Low(d))
  {}

  /** One more bit of the data goes below the bits reflected so far. */
  lemma ReflectNext(data: bv32, n: nat)
    ensures Reflect(data, n + 1) == Push(Reflect(data, n), Low(HalfN(data, n)))
  {
    hide Half, Low, Push;
    WordBitsNext(data, n);
    ReverseAppend(WordBits(data, n), Low(HalfN(data, n)));
    var r := Reverse(WordBits(data, n));
    assert ([Low(HalfN(data, n))] + r)[1..] == r;
  }

  lemma ReflectOne(data: bv32)
    ensures Reflect(data, 1) == data & 1
  {
    hide Half, Low, Push;
    assert WordBits(data, 0) == [] && Reflect(data, 0) == 0;
    ReflectNext(data, 0);
    PushIsOr(0, data);
    ShiftedZero(data);
  }

  lemma ShiftedZero(data: bv32)
    ensures ((0 as bv32) << 1) | (data & 1) == data & 1
  {}

  /** What one round of the loop does to the result. */
  function Gather(ret: bv32, data: bv32): bv32 { (ret << 1) | (data & 1) }

  lemma GatherIsPush(ret: bv32, data: bv32)
    ensures Gather(ret, data) == Push(ret, Low(data))
  {
    PushIsOr(ret, data);
  }

  lemma ReflectStep(data: bv32, i: nat)
    requires 1 <= i
    ensures HalfN(data, i) == Half(HalfN(data, i - 1))
    ensures Reflect(data, i + 1) == Gather(Reflect(data, i), HalfN(data, i))
  {
    hide Reflect, Gather, Half, HalfN, Low, Push;
    HalfNNext(data, i - 1);
    ReflectNext(data, i);
    GatherIsPush(Reflect(data, i), HalfN(data, i));
  }

  /** crc_reflect; a width of 0 reads one bit, like a width of 1. From 2^32 on the
      source's counter, an unsigned int, never reaches the width. */
  method CrcReflect(data0: bv32, dataLen: nat) returns (ret: bv32)
    requires dataLen < U32
    ensures ret == Reflect(data0, if dataLen == 0 then 1 else dataLen)
  {
    var data := data0;
    var i := 1;
    ret := data & 1;
    ReflectOne(data0);
    hide Reflect, Gather, Half;
    while i < dataLen
      invariant 1 <= i && (i <= dataLen || i == 1)
      invariant data == HalfN(data0, i - 1)
      invariant ret == Reflect(data0, i)
    {
      ReflectStep(data0, i);
      data := Half(data);
      ret := Gather(ret, data);
      i := i + 1;
    }
  }

  // ---- the MSB-first division --------------------------------------------

  /** The register of a division that shifts left, towards the leading term. */
  function ShiftMsb(r: bv32): bv32 {
    if Top(r) then Xor(Push(r, false), 0x04c11db7) else Push(r, false)
  }

  function TopBit(bit: bool): bv32 { if bit then 0x8000_0000 else 0 }

  function FeedMsb(r: bv32, bits: seq<bool>): bv32
    decreases |bits|
  {
    if bits == [] then r else FeedMsb(ShiftMsb(Xor(r, TopBit(bits[0]))), bits[1..])
  }

  lemma PushXor(a: bv32, b: bv32, s: bool, t: bool)
    ensures Push(Xor(a, b), s != t) == Xor(Push(a, s), Push(b, t))
  {
    hide Xor, Push;
    var x, y := Push(a, false), Push(b, false);
    PushEvenXor(a, b);
    PushOdd(a);
    PushOdd(b);
    PushOdd(Xor(a, b));
    XorAssoc(x, y, 1);
    XorComm(y, 1);
    XorAssoc(x, 1, y);
    XorSwap(x, 1, y, 1);
    XorZero(1);
    XorZero(Xor(x, y));
  }

  lemma PushEvenXor(a: bv32, b: bv32)
    ensures Push(Xor(a, b), false) == Xor(Push(a, false), Push(b, false))
  {
    hide Push;
    PushEven(a);
    PushEven(b);
    PushEven(a ^ b);
    DoubleXor(a, b);
  }

  lemma PushEven(a: bv32)
    ensures Push(a, false) == a << 1
  {}

  lemma DoubleXor(a: bv32, b: bv32)
    ensures (a ^ b) << 1 == (a << 1) ^ (b << 1)
  {}

  lemma PushOdd(a: bv32)
    ensures Push(a, true) == Xor(Push(a, false), 1)
  {}

  lemma {:induction false} WordOfSum(u: seq<bool>, v: seq<bool>)
    requires |u| == |v|
    ensures WordOf(AddLeading(u, v)) == Xor(WordOf(u), WordOf(v))
  {
    hide Xor, Push;
    if u == [] {
      XorZero(0);
    } else {
      WordOfSum(u[1..], v[1..]);
      PushXor(WordOf(u[1..]), WordOf(v[1..]), u[0], v[0]);
    }
  }

  lemma ReverseSum(u: seq<bool>, v: seq<bool>)
    requires |u| == |v|
    ensures Reverse(AddLeading(u, v)) == AddLeading(Reverse(u), Reverse(v))
  {
    forall k | 0 <= k < |u| ensures Reverse(AddLeading(u, v))[k] == AddLeading(Reverse(u), Reverse(v))[k] {
      ReverseAt(AddLeading(u, v), k);
      AddLeadingAt(u, v, |u| - 1 - k);
      ReverseAt(u, k);
      ReverseAt(v, k);
      AddLeadingAt(Reverse(u), Reverse(v), k);
    }
  }

  lemma ReflectXor(a: bv32, b: bv32, n: nat)
    ensures Reflect(Xor(a, b), n) == Xor(Reflect(a, n), Reflect(b, n))
  {
    hide Xor, WordBits;
    WordBitsXor(a, b, n);
    ReverseSum(WordBits(a, n), WordBits(b, n));
    WordOfSum(Reverse(WordBits(a, n)), Reverse(WordBits(b, n)));
  }

  /** The word with one bit, at position n. */
  function OneAt(bit: bool, n: nat): bv32 {
    if n == 0 then BitWord(bit) else Push(OneAt(bit, n - 1), false)
  }

  lemma {:induction false} WordOfAppend(u: seq<bool>, bit: bool)
    ensures WordOf(u + [bit]) == Xor(WordOf(u), OneAt(bit, |u|))
  {
    hide Xor, Push;
    if u == [] {
      assert [] + [bit] == [bit] && [bit][1..] == [];
      XorZero(BitWord(bit));
      PushZero(bit);
    } else {
      assert (u + [bit])[1..] == u[1..] + [bit];
      WordOfAppend(u[1..], bit);
      PushXor(WordOf(u[1..]), OneAt(bit, |u| - 1), u[0], false);
    }
  }

  lemma PushZero(bit: bool)
    ensures Push(0, bit) == BitWord(bit)
  {}

  function Up8(a: bv32): bv32 { a << 8 }

  lemma OneAtFour(bit: bool, n: nat)
    ensures OneAt(bit, n + 4) == Push(Push(Push(Push(OneAt(bit, n), false), false), false), false)
  {
    hide Push;
    assert OneAt(bit, n + 2) == Push(OneAt(bit, n + 1), false);
    assert OneAt(bit, n + 3) == Push(OneAt(bit, n + 2), false);
  }

  lemma OneAtEight(bit: bool, n: nat)
    ensures OneAt(bit, n + 8) == Up8(OneAt(bit, n))
  {
    hide Push, Up8;
    OneAtFour(bit, n);
    OneAtFour(bit, n + 4);
    PushEight(OneAt(bit, n));
  }

  lemma PushEight(a: bv32)
    ensures Push(Push(Push(Push(Push(Push(Push(Push(a, false), false), false), false),
      false), false), false), false) == Up8(a)
  {}

  lemma OneAt31(bit: bool)
    ensures OneAt(bit, 31) == TopBit(bit)
  {
    hide Push, Up8, TopBit;
    OneAtEight(bit, 23);
    OneAtEight(bit, 15);
    OneAtEight(bit, 7);
    OneAtFour(bit, 3);
    assert OneAt(bit, 1) == Push(OneAt(bit, 0), false);
    assert OneAt(bit, 2) == Push(OneAt(bit, 1), false);
    assert OneAt(bit, 3) == Push(OneAt(bit, 2), false);
    PushSeven(bit);
  }

  lemma PushSeven(bit: bool)
    ensures Up8(Up8(Up8(Push(Push(Push(Push(Push(Push(Push(BitWord(bit), false), false), false), false),
      false), false), false)))) == TopBit(bit)
  {}

  // ---- reflection turns one form into the other ---------------------------

  lemma {:induction false} FitsWordOf(u: seq<bool>)
    requires |u| <= 31
    ensures !Top(WordOf(u))
  {
    hide Top;
    WordOfBits(u);
    FitsClearsTop(WordOf(u), |u|);
  }

  lemma TopOfSum(w: bv32, bit: bool)
    requires !Top(w)
    ensures Top(Xor(w, TopBit(bit))) == bit && Push(Xor(w, TopBit(bit)), false) == Push(w, false)
  {}

  /** Reflected, the low bit is on top and halving is a shift to the left. */
  lemma ReflectHalf(w: bv32)
    ensures Top(Reflect(w, 32)) == Low(w)
    ensures Reflect(Half(w), 32) == Push(Reflect(w, 32), false)
  {
    hide Xor, Top, Low, Half, Push, TopBit;
    var t := WordBits(Half(w), 31);
    assert WordBits(w, 32) == [Low(w)] + t;
    assert ([Low(w)] + t)[1..] == t;
    var u := Reverse(t);
    assert Reverse(WordBits(w, 32)) == u + [Low(w)];
    WordOfAppend(u, Low(w));
    OneAt31(Low(w));
    FitsWordOf(u);
    TopOfSum(WordOf(u), Low(w));
    HalfBits(w);
    assert WordBits(w, 32)[1..] == t;
    ReverseAppend(t, false);
    assert ([false] + u)[1..] == u;
  }

  lemma ReflectBit(bit: bool)
    ensures Reflect(BitWord(bit), 32) == TopBit(bit)
  {
    hide Xor, Push, Half, Low, TopBit;
    var w := BitWord(bit);
    var t := WordBits(Half(w), 31);
    BitWordParts(bit);
    ZeroBits(31);
    assert WordBits(w, 32) == [bit] + t;
    assert ([bit] + t)[1..] == t;
    WordOfAppend(Reverse(t), bit);
    OneAt31(bit);
    forall k | 0 <= k < 31 ensures !Reverse(t)[k] {
      ReverseAt(t, k);
    }
    WordOfZeros(Reverse(t));
    XorZero(TopBit(bit));
  }

  lemma BitWordParts(bit: bool)
    ensures Low(BitWord(bit)) == bit && Half(BitWord(bit)) == 0
  {}

  lemma {:induction false} ZeroBits(n: nat)
    ensures forall k | 0 <= k < n :: !WordBits(0, n)[k]
  {
    if n > 0 {
      assert !Low(0) && Half(0) == 0;
      ZeroBits(n - 1);
      assert WordBits(0, n) == [Low(0)] + WordBits(Half(0), n - 1);
    }
  }

  lemma {:induction false} WordOfZeros(u: seq<bool>)
    requires forall k | 0 <= k < |u| :: !u[k]
    ensures WordOf(u) == 0
  {
    if u != [] {
      WordOfZeros(u[1..]);
      assert Push(0, false) == 0;
    }
  }

  lemma LowHalfOfMsb()
    ensures WordBits(0x04c11db7, 32)
         == [true, true, true, false] + ([true, true, false, true] + ([true, false, true, true]
          + ([true, false, false, false] + WordBits(0x04c1, 16))))
  {
    NibbleAt(0x04c11db7, 0x004c11db, true, true, true, false, 28);
    NibbleAt(0x004c11db, 0x0004c11d, true, true, false, true, 24);
    NibbleAt(0x0004c11d, 0x00004c11, true, false, true, true, 20);
    NibbleAt(0x00004c11, 0x000004c1, true, false, false, false, 16);
  }

  lemma HighHalfOfMsb()
    ensures WordBits(0x04c1, 16)
         == [true, false, false, false] + ([false, false, true, true] + ([false, false, true, false]
          + [false, false, false, false]))
  {
    NibbleAt(0x04c1, 0x004c, true, false, false, false, 12);
    NibbleAt(0x004c, 0x0004, false, false, true, true, 8);
    NibbleAt(0x0004, 0x0000, false, false, true, false, 4);
    NibbleAt(0x0000, 0x0000, false, false, false, false, 0);
  }

  function Exponents(): (g: Poly)
    ensures |g| == 32
  {
    seq(32, i requires 0 <= i < 32 => i in EXPONENTS)
  }

  lemma ReverseGenerator()
    ensures Reverse(Generator()) == Exponents()
  {
    hide Reverse;
    forall k | 0 <= k < 32 ensures Reverse(Generator())[k] == Exponents()[k] {
      ReverseAt(Generator(), k);
    }
  }

  lemma MsbGeneratorBits()
    ensures WordBits(0x04c11db7, 32) == Exponents()
  {
    hide WordBits;
    LowHalfOfMsb();
    HighHalfOfMsb();
  }

  lemma ReflectGenerator()
    ensures Reflect(POLY_REFLECTED, 32) == 0x04c11db7
  {
    hide WordBits, Reverse;
    GeneratorBits();
    ReverseGenerator();
    MsbGeneratorBits();
    FitsAll(0x04c11db7);
    WordOfWordBits(0x04c11db7, 32);
  }

  lemma ReflectShift(r: bv32)
    ensures Reflect(Shift(r), 32) == ShiftMsb(Reflect(r, 32))
  {
    hide Xor, Top, Low, Half, Push, Reflect;
    ReflectHalf(r);
    ReflectXor(Half(r), POLY_REFLECTED, 32);
    ReflectGenerator();
  }

  /** Reflecting the register after an update gives the MSB-first division of the
      same bits by 0x04C11DB7, started from the reflected register. */
  lemma {:induction false} ReflectedDivision(r: bv32, bits: seq<bool>)
    ensures Reflect(FeedBits(r, bits), 32) == FeedMsb(Reflect(r, 32), bits)
    decreases |bits|
  {
    hide Xor, Shift, ShiftMsb, Reflect, BitWord, TopBit;
    if bits != [] {
      var b := bits[0];
      ReflectXor(r, BitWord(b), 32);
      ReflectBit(b);
      ReflectShift(Xor(r, BitWord(b)));
      ReflectedDivision(Shift(Xor(r, BitWord(b))), bits[1..]);
    }
  }

  /** A byte read most significant bit first. */
  function MsbBits(d: bv32): (bits: seq<bool>)
    ensures |bits| == 8
  {
    Reverse(WordBits(d, 8))
  }

  /** The bits of a message whose bytes are reflected, each most significant bit first. */
  function MsbBitsOfReflected(data: seq<bv8>): seq<bool> {
    if data == [] then [] else MsbBits(Reflect(data[0] as bv32, 8)) + MsbBitsOfReflected(data[1..])
  }

  /** Reflecting every byte and reading it most significant bit first is reading
      the bytes themselves least significant bit first. */
  lemma {:induction false} ReflectedBytes(data: seq<bv8>)
    ensures MsbBitsOfReflected(data) == BitsOf(data)
  {
    hide WordBits, Reflect;
    if data != [] {
      var d := data[0] as bv32;
      ReflectBits(d, 8);
      ReverseTwice(WordBits(d, 8));
      ReflectedBytes(data[1..]);
    }
  }

  /** crc_update, reflected, is the MSB-first division of the byte-reflected message. */
  lemma UpdateIsMsbDivision(r: bv32, data: seq<bv8>)
    ensures Reflect(FeedBits(r, BitsOf(data)), 32) == FeedMsb(Reflect(r, 32), MsbBitsOfReflected(data))
  {
    ReflectedBytes(data);
    ReflectedDivision(r, BitsOf(data));
  }
}
