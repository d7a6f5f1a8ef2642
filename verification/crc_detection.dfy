// What the CRC detects: its affine structure, the residue of a message that
// carries its own checksum, and bursts of errors.

module CrcDetection {
  import opened CrcRegister
  import opened CrcTable
  import opened Crc

  // ---- affine structure ---------------------------------------------------

  function XorByte(d: bv8, e: bv8): bv8 { d ^ e }

  function XorData(x: seq<bv8>, y: seq<bv8>): (z: seq<bv8>)
    requires |x| == |y|
    ensures |z| == |x|
  {
    if x == [] then [] else [XorByte(x[0], y[0])] + XorData(x[1..], y[1..])
  }

  lemma XorBytes(d: bv8, e: bv8)
    ensures XorByte(d, e) as bv32 == Xor(d as bv32, e as bv32)
  {}

  lemma XorDataParts(x: seq<bv8>, y: seq<bv8>)
    requires |x| == |y| > 0
    ensures XorData(x, y)[0] as bv32 == Xor(x[0] as bv32, y[0] as bv32)
    ensures XorData(x, y)[1..] == XorData(x[1..], y[1..])
  {
    hide Xor, XorByte;
    XorBytes(x[0], y[0]);
  }

  lemma {:induction false} XorDataAt(x: seq<bv8>, y: seq<bv8>, k: nat)
    requires |x| == |y| && k < |x|
    ensures XorData(x, y)[k] == XorByte(x[k], y[k])
  {
    hide XorByte;
    if k > 0 {
      XorDataAt(x[1..], y[1..], k - 1);
    }
  }

  /** One byte: the sum of the registers meets the sum of the bytes. */
  lemma ByteAffine(a: bv32, b: bv32, d: bv32, e: bv32)
    ensures ShiftN(Xor(Xor(a, b), Xor(d, e)), 8) == Xor(ShiftN(Xor(a, d), 8), ShiftN(Xor(b, e), 8))
  {
    hide Xor, ShiftN;
    XorSwap(a, b, d, e);
    ShiftNXor(Xor(a, d), Xor(b, e), 8);
  }

  /** Updating a sum of registers with a sum of messages sums the results. */
  lemma {:induction false} UpdateAffine(a: bv32, b: bv32, x: seq<bv8>, y: seq<bv8>)
    requires |x| == |y|
    ensures FeedBits(Xor(a, b), BitsOf(XorData(x, y))) == Xor(FeedBits(a, BitsOf(x)), FeedBits(b, BitsOf(y)))
    decreases |x|
  {
    hide Xor, FeedBits, ShiftN, BitsOf, XorData;
    var z := XorData(x, y);
    if x == [] {
      FeedNothing(Xor(a, b), z);
      FeedNothing(a, x);
      FeedNothing(b, y);
    } else {
      FeedByte(Xor(a, b), z);
      FeedByte(a, x);
      FeedByte(b, y);
      XorDataParts(x, y);
      ByteAffine(a, b, x[0] as bv32, y[0] as bv32);
      UpdateAffine(ShiftN(Xor(a, x[0] as bv32), 8), ShiftN(Xor(b, y[0] as bv32), 8), x[1..], y[1..]);
    }
  }

  /** Updating over a concatenation is updating twice. */
  lemma UpdateComposes(a: bv32, x: seq<bv8>, y: seq<bv8>)
    ensures FeedBits(a, BitsOf(x + y)) == FeedBits(FeedBits(a, BitsOf(x)), BitsOf(y))
  {
    BitsOfConcat(x, y);
    FeedBitsConcat(a, BitsOf(x), BitsOf(y));
  }

  // ---- the residue --------------------------------------------------------

  /** The low n bytes of a word, least significant first. */
  function LittleEndian(w: bv32, n: nat): (data: seq<bv8>)
    ensures |data| == n
    decreases n
  {
    if n == 0 then [] else [(w & 0xff) as bv8] + LittleEndian(Byte1(w), n - 1)
  }

  /** w has no byte at position n or above. */
  predicate FitsBytes(w: bv32, n: nat)
    decreases n
  {
    if n == 0 then w == 0 else FitsBytes(Byte1(w), n - 1)
  }

  /** The low byte of w enters the division, the other three move down. */
  lemma FirstByte(r: bv32, w: bv32)
    ensures ShiftN(Xor(r, w), 8) == Xor(ShiftN(Xor(r, (w & 0xff) as bv8 as bv32), 8), Byte1(w))
  {
    hide Xor, ShiftN, Byte1;
    SplitByte(w);
    FirstByteSplit(r, w & 0xff, w & 0xffff_ff00);
  }

  lemma SplitByte(w: bv32)
    ensures w == Xor(w & 0xff, w & 0xffff_ff00) && (w & 0xffff_ff00) & 0xff == 0
    ensures Byte1(w & 0xffff_ff00) == Byte1(w) && (w & 0xff) as bv8 as bv32 == w & 0xff
  {}

  lemma FirstByteSplit(r: bv32, l: bv32, h: bv32)
    requires h & 0xff == 0
    ensures ShiftN(Xor(r, Xor(l, h)), 8) == Xor(ShiftN(Xor(r, l), 8), Byte1(h))
  {
    hide Xor, ShiftN, Byte1;
    XorAssoc(r, l, h);
    ShiftUpper(Xor(r, l), h);
  }

  /** Byte by byte or all at once: n bytes of w fed to r. */
  lemma {:induction false} FeedBytes(r: bv32, w: bv32, n: nat)
    requires FitsBytes(w, n)
    ensures FeedBits(r, BitsOf(LittleEndian(w, n))) == ShiftN(Xor(r, w), 8 * n)
    decreases n
  {
    hide Xor, ShiftN, Byte1, FeedBits, BitsOf;
    if n == 0 {
      FeedNothing(r, []);
      XorZero(r);
      ShiftZero(r);
    } else {
      FeedByte(r, LittleEndian(w, n));
      var s := ShiftN(Xor(r, (w & 0xff) as bv8 as bv32), 8);
      assert LittleEndian(w, n)[1..] == LittleEndian(Byte1(w), n - 1);
      FeedBytes(s, Byte1(w), n - 1);
      FirstByte(r, w);
      ShiftNAdd(Xor(r, w), 8, 8 * (n - 1));
    }
  }

  lemma FourBytes(w: bv32)
    ensures FitsBytes(w, 4)
  {
    hide Byte1;
    assert FitsBytes(w, 4) == FitsBytes(Byte1(w), 3);
    assert FitsBytes(Byte1(w), 3) == FitsBytes(Byte1(Byte1(w)), 2);
    assert FitsBytes(Byte1(Byte1(w)), 2) == FitsBytes(Byte1(Byte1(Byte1(w))), 1);
    ByteFacts(w);
  }

  // Eight steps from a constant, by the table.
  lemma EightFrom(r: bv32)
    ensures ShiftN(r, 8) == TableStep(r, 0)
  {
    hide Xor, ShiftN, TableStep;
    TableStepIsDivision(r, 0);
    XorZero(r);
  }

  lemma OnesShifted()
    ensures TableStep(0xffff_ffff, 0) == 0x2dfd1072
    ensures TableStep(0x2dfd1072, 0) == 0xbe26ed00
    ensures TableStep(0xbe26ed00, 0) == 0x00be26ed
    ensures TableStep(0x00be26ed, 0) == 0xdebb20e3
  {}

  lemma Ones32()
    ensures ShiftN(0xffff_ffff, 32) == 0xdebb20e3
  {
    hide ShiftN, TableStep;
    OnesShifted();
    EightFrom(0xffff_ffff);
    EightFrom(0x2dfd1072);
    EightFrom(0xbe26ed00);
    EightFrom(0x00be26ed);
    ShiftNAdd(0xffff_ffff, 8, 24);
    ShiftNAdd(0x2dfd1072, 8, 16);
    ShiftNAdd(0xbe26ed00, 8, 8);
  }

  /** Any message followed by its checksum, little-endian, leaves the same residue. */
  lemma ResidueConstant(data: seq<bv8>)
    ensures FeedBits(CrcInit(), BitsOf(data + LittleEndian(Checksum(data), 4))) == 0xdebb20e3
  {
    hide Xor, ShiftN, LittleEndian, FeedBits, BitsOf;
    var r := FeedBits(CrcInit(), BitsOf(data));
    UpdateComposes(CrcInit(), data, LittleEndian(Checksum(data), 4));
    FourBytes(Checksum(data));
    FeedBytes(r, Checksum(data), 4);
    XorTwice(0xffff_ffff, r);
    Ones32();
  }

  // ---- bursts of errors ---------------------------------------------------

  /** Different streams of at most 32 bits drive one register apart. */
  lemma ShortBurst(r: bv32, u: seq<bool>, v: seq<bool>)
    requires |u| == |v| <= 32 && u != v
    ensures FeedBits(r, u) != FeedBits(r, v)
  {
    hide Xor, ShiftN, FeedBits, Low, Half, Push;
    var n, a, b := |u|, WordOf(u), WordOf(v);
    WordOfBits(u);
    WordOfBits(v);
    FeedWord(r, a, n);
    FeedWord(r, b, n);
    if ShiftN(Xor(r, a), n) == ShiftN(Xor(r, b), n) {
      ShiftNInjective(Xor(r, a), Xor(r, b), n);
      XorTwice(a, r);
      XorTwice(b, r);
    }
  }

  /** A common suffix never brings two different registers together. */
  lemma SuffixKeepsApart(a: bv32, b: bv32, s: seq<bool>)
    requires a != b
    ensures FeedBits(a, s) != FeedBits(b, s)
  {
    hide FeedBits, UnfeedBits;
    FeedBitsBijective(a, s);
    FeedBitsBijective(b, s);
  }

  lemma BurstOfBits(r: bv32, x: seq<bool>, y: seq<bool>, o: nat)
    requires |x| == |y| && x != y
    requires forall k | 0 <= k < |x| :: x[k] != y[k] ==> o <= k < o + 32
    ensures FeedBits(r, x) != FeedBits(r, y)
  {
    hide FeedBits;
    var lo := if o < |x| then o else |x|;
    var hi := if o + 32 < |x| then o + 32 else |x|;
    assert x[..lo] == y[..lo] && x[hi..] == y[hi..];
    assert x == x[..lo] + x[lo..hi] + x[hi..] && y == y[..lo] + y[lo..hi] + y[hi..];
    var q := FeedBits(r, x[..lo]);
    FeedBitsConcat(r, x[..lo], x[lo..hi]);
    FeedBitsConcat(r, y[..lo], y[lo..hi]);
    FeedBitsConcat(r, x[..lo] + x[lo..hi], x[hi..]);
    FeedBitsConcat(r, y[..lo] + y[lo..hi], y[hi..]);
    ShortBurst(q, x[lo..hi], y[lo..hi]);
    SuffixKeepsApart(FeedBits(q, x[lo..hi]), FeedBits(q, y[lo..hi]), x[hi..]);
  }

  lemma WidenInjective(d: bv8, e: bv8)
    requires d as bv32 == e as bv32
    ensures d == e
  {}

  lemma {:induction false} BitsOfInjective(x: seq<bv8>, y: seq<bv8>)
    requires BitsOf(x) == BitsOf(y)
    ensures x == y
  {
    hide WordBits, Fits;
    if x != [] {
      var d, e := x[0] as bv32, y[0] as bv32;
      assert WordBits(d, 8) == BitsOf(x)[..8] && WordBits(e, 8) == BitsOf(y)[..8];
      assert BitsOf(x[1..]) == BitsOf(x)[8..] && BitsOf(y[1..]) == BitsOf(y)[8..];
      FitsByte(x[0]);
      FitsByte(y[0]);
      WordOfWordBits(d, 8);
      WordOfWordBits(e, 8);
      WidenInjective(x[0], y[0]);
      BitsOfInjective(x[1..], y[1..]);
    }
  }

  /** Two messages of one length that differ, and only within 32 consecutive bit
      positions from o, wherever that is, have different checksums. */
  lemma BurstDetected(x: seq<bv8>, y: seq<bv8>, o: nat)
    requires |x| == |y| && x != y
    requires forall k | 0 <= k < 8 * |x| :: BitsOf(x)[k] != BitsOf(y)[k] ==> o <= k < o + 32
    ensures Checksum(x) != Checksum(y)
  {
    hide Xor, FeedBits, BitsOf;
    if BitsOf(x) == BitsOf(y) {
      BitsOfInjective(x, y);
    }
    BurstOfBits(CrcInit(), BitsOf(x), BitsOf(y), o);
    XorTwice(FeedBits(CrcInit(), BitsOf(x)), 0xffff_ffff);
    XorTwice(FeedBits(CrcInit(), BitsOf(y)), 0xffff_ffff);
  }

  /** The generator itself, x^32 first, as five bytes: 33 bits wide. */
  const GENERATOR_BYTES: seq<bv8> := [0x41, 0x06, 0x71, 0xdb, 0x01]

  lemma GeneratorShifted()
    ensures TableStep(0xdb710641, 0) == 0x01000000
    ensures TableStep(0x01000000, 0) == 0x00010000
    ensures TableStep(0x00010000, 0) == 0x00000100
    ensures TableStep(0x00000100, 0) == 0x00000001
  {}

  lemma GeneratorLittleEndian()
    ensures GENERATOR_BYTES == LittleEndian(0xdb710641, 4) + [1]
  {
    var a: bv32 := 0xdb710641;
    var b, c, d := Byte1(a), Byte1(Byte1(a)), Byte1(Byte1(Byte1(a)));
    assert LittleEndian(d, 1) == [0xdb] + LittleEndian(Byte1(d), 0);
    assert LittleEndian(c, 2) == [0x71] + LittleEndian(d, 1);
    assert LittleEndian(b, 3) == [0x06] + LittleEndian(c, 2);
    assert LittleEndian(a, 4) == [0x41] + LittleEndian(b, 3);
  }

  lemma GeneratorVanishes()
    ensures FeedBits(0, BitsOf(GENERATOR_BYTES)) == 0
  {
    hide Xor, ShiftN, TableStep, LittleEndian, FeedBits, BitsOf;
    var w: bv32 := 0xdb710641;
    GeneratorLittleEndian();
    UpdateComposes(0, LittleEndian(w, 4), [1]);
    FourBytes(w);
    FeedBytes(0, w, 4);
    XorZero(w);
    GeneratorShifted();
    EightFrom(0xdb710641);
    EightFrom(0x01000000);
    EightFrom(0x00010000);
    EightFrom(0x00000100);
    ShiftNAdd(w, 8, 24);
    ShiftNAdd(0x01000000, 8, 16);
    ShiftNAdd(0x00010000, 8, 8);
    FeedByte(1, [1]);
    assert [1 as bv8][1..] == [];
    FeedNothing(ShiftN(Xor(1, 1), 8), []);
    XorZero(1);
    ZeroStays(8);
  }

  /** The bound of 32 is tight: a burst of 33 bits, the generator's own pattern,
      is missed wherever it falls on a byte boundary. */
  lemma GeneratorBurstMissed(p: seq<bv8>, b: seq<bv8>, s: seq<bv8>)
    requires |b| == 5
    ensures XorData(b, GENERATOR_BYTES) != b
    ensures forall k | 33 <= k < 40 :: BitsOf(XorData(b, GENERATOR_BYTES))[k] == BitsOf(b)[k]
    ensures Checksum(p + XorData(b, GENERATOR_BYTES) + s) == Checksum(p + b + s)
  {
    hide Xor, FeedBits, BitsOf, XorData;
    var c := XorData(b, GENERATOR_BYTES);
    var r := FeedBits(CrcInit(), BitsOf(p));
    UpdateComposes(CrcInit(), p, b);
    UpdateComposes(CrcInit(), p, c);
    UpdateComposes(CrcInit(), p + b, s);
    UpdateComposes(CrcInit(), p + c, s);
    UpdateAffine(r, 0, b, GENERATOR_BYTES);
    GeneratorVanishes();
    XorZero(r);
    XorZero(FeedBits(r, BitsOf(b)));
    FirstByteChanges(b);
    LastByteChanges(b);
  }

  /** Of the last byte only the first bit changes. */
  lemma LastByteChanges(b: seq<bv8>)
    requires |b| == 5
    ensures forall k | 33 <= k < 40 :: BitsOf(XorData(b, GENERATOR_BYTES))[k] == BitsOf(b)[k]
  {
    var c := XorData(b, GENERATOR_BYTES);
    XorDataAt(b, GENERATOR_BYTES, 4);
    OtherBits(b[4]);
    BitsOfLast(b);
    BitsOfLast(c);
  }

  lemma OtherBits(d: bv8)
    ensures WordBits(XorByte(d, 0x01) as bv32, 8)[1..] == WordBits(d as bv32, 8)[1..]
  {
    assert Half(XorByte(d, 0x01) as bv32) == Half(d as bv32);
    HalvesAgree(XorByte(d, 0x01) as bv32, d as bv32);
  }

  lemma HalvesAgree(v: bv32, w: bv32)
    requires Half(v) == Half(w)
    ensures WordBits(v, 8)[1..] == WordBits(w, 8)[1..]
  {
    hide Half;
    assert WordBits(v, 8) == [Low(v)] + WordBits(Half(v), 7);
    assert WordBits(w, 8) == [Low(w)] + WordBits(Half(w), 7);
  }

  lemma BitsOfLast(b: seq<bv8>)
    requires |b| == 5
    ensures forall k | 33 <= k < 40 :: BitsOf(b)[k] == WordBits(b[4] as bv32, 8)[1..][k - 33]
  {
    hide WordBits;
    assert b == b[..4] + [b[4]] && [b[4]][1..] == [];
    BitsOfConcat(b[..4], [b[4]]);
    assert BitsOf([b[4]]) == WordBits(b[4] as bv32, 8) + BitsOf([]);
    assert BitsOf(b)[32..] == WordBits(b[4] as bv32, 8);
    forall k | 33 <= k < 40 ensures BitsOf(b)[k] == WordBits(b[4] as bv32, 8)[1..][k - 33] {
      assert BitsOf(b)[k] == BitsOf(b)[32..][k - 32];
    }
  }

  lemma FirstByteChanges(b: seq<bv8>)
    requires |b| == 5
    ensures XorData(b, GENERATOR_BYTES) != b
  {
    assert XorData(b, GENERATOR_BYTES)[0] == XorByte(b[0], 0x41);
    assert XorByte(b[0], 0x41) != b[0];
  }
}
