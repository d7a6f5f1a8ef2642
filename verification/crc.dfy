// libdaylite/src/crc.cpp and crc.h: the table-driven CRC-32, proved equal to the
// bit-at-a-time division, and what that makes it good for.

module Crc {
  import opened CrcRegister
  import opened CrcTable

  function CrcInit(): bv32 { 0xffff_ffff }

  function CrcFinalize(crc: bv32): bv32 { Xor(crc, 0xffff_ffff) }

  /** The checksum of a message: init, update, finalize. */
  function Checksum(data: seq<bv8>): bv32 {
    CrcFinalize(FeedBits(CrcInit(), BitsOf(data)))
  }

  // ---- the table-driven update -------------------------------------------

  /** Eight bits of the division, all at once. */
  lemma FeedByte(r: bv32, data: seq<bv8>)
    requires data != []
    ensures FeedBits(r, BitsOf(data)) == FeedBits(ShiftN(Xor(r, data[0] as bv32), 8), BitsOf(data[1..]))
  {
    hide Xor, ShiftN, FeedBits, Fits, WordBits;
    FeedBitsConcat(r, WordBits(data[0] as bv32, 8), BitsOf(data[1..]));
    FitsByte(data[0]);
    FeedWord(r, data[0] as bv32, 8);
  }

  /** The loop body of the source: one table lookup per byte d. */
  function TableStep(crc: bv32, d: bv32): bv32 {
    Xor(TableAt((Xor(crc, d) & 0xff) as int), crc >> 8) & 0xffff_ffff
  }

  lemma ByteMovesOut(crc: bv32, d: bv32)
    requires d < 256
    ensures crc >> 8 == Byte1(Xor(crc, d))
  {}

  lemma TableStepParts(crc: bv32, d: bv32)
    ensures var i := Xor(crc, d) & 0xff;
            i < 256 && TableStep(crc, d) == Xor(TableAt(i as int), crc >> 8)
  {
    hide Xor, TableAt;
    AllBits(Xor(TableAt((Xor(crc, d) & 0xff) as int), crc >> 8));
  }

  lemma AllBits(r: bv32)
    ensures r & 0xffff_ffff == r
  {}

  /** One lookup does what eight steps of the division do. */
  lemma TableStepIsDivision(crc: bv32, d: bv32)
    requires d < 256
    ensures TableStep(crc, d) == ShiftN(Xor(crc, d), 8)
  {
    hide ShiftN, Byte1, Xor, TableStep;
    TableStepParts(crc, d);
    ByteMovesOut(crc, d);
    ShiftByte(Xor(crc, d));
    TableIsDivision(Xor(crc, d) & 0xff);
  }

  /** crc_update: the table-driven loop is the bit-at-a-time division. */
  method CrcUpdate(crc0: bv32, data: seq<bv8>) returns (crc: bv32)
    ensures crc == FeedBits(crc0, BitsOf(data))
  {
    crc := crc0;
    var dataLen: nat, next: nat := |data|, 0;
    while dataLen > 0
      invariant next + dataLen == |data|
      invariant FeedBits(crc, BitsOf(data[next..])) == FeedBits(crc0, BitsOf(data))
    {
      FeedNextByte(crc, data, next);
      crc := TableStep(crc, data[next] as bv32);
      dataLen, next := dataLen - 1, next + 1;
    }
    FeedNothing(crc, data[next..]);
  }

  lemma FeedNextByte(r: bv32, data: seq<bv8>, i: nat)
    requires i < |data|
    ensures FeedBits(TableStep(r, data[i] as bv32), BitsOf(data[i + 1..])) == FeedBits(r, BitsOf(data[i..]))
  {
    hide TableStep, ShiftN, FeedBits, Xor;
    FeedByte(r, data[i..]);
    TableStepIsDivision(r, data[i] as bv32);
    assert data[i..][1..] == data[i + 1..];
  }

  lemma FeedNothing(r: bv32, data: seq<bv8>)
    requires data == []
    ensures FeedBits(r, BitsOf(data)) == r
  {}
}
