// The 256-entry table of libdaylite/src/crc.cpp: entry b is the register after
// dividing b by the generator for eight steps.

module CrcTable {
  import opened CrcRegister

  /** The table of the source, sixteen entries to a row. */
  const ROWS: seq<seq<bv32>> := [
    [0x00000000, 0x77073096, 0xee0e612c, 0x990951ba, 0x076dc419, 0x706af48f, 0xe963a535, 0x9e6495a3,
     0x0edb8832, 0x79dcb8a4, 0xe0d5e91e, 0x97d2d988, 0x09b64c2b, 0x7eb17cbd, 0xe7b82d07, 0x90bf1d91],
    [0x1db71064, 0x6ab020f2, 0xf3b97148, 0x84be41de, 0x1adad47d, 0x6ddde4eb, 0xf4d4b551, 0x83d385c7,
     0x136c9856, 0x646ba8c0, 0xfd62f97a, 0x8a65c9ec, 0x14015c4f, 0x63066cd9, 0xfa0f3d63, 0x8d080df5],
    [0x3b6e20c8, 0x4c69105e, 0xd56041e4, 0xa2677172, 0x3c03e4d1, 0x4b04d447, 0xd20d85fd, 0xa50ab56b,
     0x35b5a8fa, 0x42b2986c, 0xdbbbc9d6, 0xacbcf940, 0x32d86ce3, 0x45df5c75, 0xdcd60dcf, 0xabd13d59],
    [0x26d930ac, 0x51de003a, 0xc8d75180, 0xbfd06116, 0x21b4f4b5, 0x56b3c423, 0xcfba9599, 0xb8bda50f,
     0x2802b89e, 0x5f058808, 0xc60cd9b2, 0xb10be924, 0x2f6f7c87, 0x58684c11, 0xc1611dab, 0xb6662d3d],
    [0x76dc4190, 0x01db7106, 0x98d220bc, 0xefd5102a, 0x71b18589, 0x06b6b51f, 0x9fbfe4a5, 0xe8b8d433,
     0x7807c9a2, 0x0f00f934, 0x9609a88e, 0xe10e9818, 0x7f6a0dbb, 0x086d3d2d, 0x91646c97, 0xe6635c01],
    [0x6b6b51f4, 0x1c6c6162, 0x856530d8, 0xf262004e, 0x6c0695ed, 0x1b01a57b, 0x8208f4c1, 0xf50fc457,
     0x65b0d9c6, 0x12b7e950, 0x8bbeb8ea, 0xfcb9887c, 0x62dd1ddf, 0x15da2d49, 0x8cd37cf3, 0xfbd44c65],
    [0x4db26158, 0x3ab551ce, 0xa3bc0074, 0xd4bb30e2, 0x4adfa541, 0x3dd895d7, 0xa4d1c46d, 0xd3d6f4fb,
     0x4369e96a, 0x346ed9fc, 0xad678846, 0xda60b8d0, 0x44042d73, 0x33031de5, 0xaa0a4c5f, 0xdd0d7cc9],
    [0x5005713c, 0x270241aa, 0xbe0b1010, 0xc90c2086, 0x5768b525, 0x206f85b3, 0xb966d409, 0xce61e49f,
     0x5edef90e, 0x29d9c998, 0xb0d09822, 0xc7d7a8b4, 0x59b33d17, 0x2eb40d81, 0xb7bd5c3b, 0xc0ba6cad],
    [0xedb88320, 0x9abfb3b6, 0x03b6e20c, 0x74b1d29a, 0xead54739, 0x9dd277af, 0x04db2615, 0x73dc1683,
     0xe3630b12, 0x94643b84, 0x0d6d6a3e, 0x7a6a5aa8, 0xe40ecf0b, 0x9309ff9d, 0x0a00ae27, 0x7d079eb1],
    [0xf00f9344, 0x8708a3d2, 0x1e01f268, 0x6906c2fe, 0xf762575d, 0x806567cb, 0x196c3671, 0x6e6b06e7,
     0xfed41b76, 0x89d32be0, 0x10da7a5a, 0x67dd4acc, 0xf9b9df6f, 0x8ebeeff9, 0x17b7be43, 0x60b08ed5],
    [0xd6d6a3e8, 0xa1d1937e, 0x38d8c2c4, 0x4fdff252, 0xd1bb67f1, 0xa6bc5767, 0x3fb506dd, 0x48b2364b,
     0xd80d2bda, 0xaf0a1b4c, 0x36034af6, 0x41047a60, 0xdf60efc3, 0xa867df55, 0x316e8eef, 0x4669be79],
    [0xcb61b38c, 0xbc66831a, 0x256fd2a0, 0x5268e236, 0xcc0c7795, 0xbb0b4703, 0x220216b9, 0x5505262f,
     0xc5ba3bbe, 0xb2bd0b28, 0x2bb45a92, 0x5cb36a04, 0xc2d7ffa7, 0xb5d0cf31, 0x2cd99e8b, 0x5bdeae1d],
    [0x9b64c2b0, 0xec63f226, 0x756aa39c, 0x026d930a, 0x9c0906a9, 0xeb0e363f, 0x72076785, 0x05005713,
     0x95bf4a82, 0xe2b87a14, 0x7bb12bae, 0x0cb61b38, 0x92d28e9b, 0xe5d5be0d, 0x7cdcefb7, 0x0bdbdf21],
    [0x86d3d2d4, 0xf1d4e242, 0x68ddb3f8, 0x1fda836e, 0x81be16cd, 0xf6b9265b, 0x6fb077e1, 0x18b74777,
     0x88085ae6, 0xff0f6a70, 0x66063bca, 0x11010b5c, 0x8f659eff, 0xf862ae69, 0x616bffd3, 0x166ccf45],
    [0xa00ae278, 0xd70dd2ee, 0x4e048354, 0x3903b3c2, 0xa7672661, 0xd06016f7, 0x4969474d, 0x3e6e77db,
     0xaed16a4a, 0xd9d65adc, 0x40df0b66, 0x37d83bf0, 0xa9bcae53, 0xdebb9ec5, 0x47b2cf7f, 0x30b5ffe9],
    [0xbdbdf21c, 0xcabac28a, 0x53b39330, 0x24b4a3a6, 0xbad03605, 0xcdd70693, 0x54de5729, 0x23d967bf,
     0xb3667a2e, 0xc4614ab8, 0x5d681b02, 0x2a6f2b94, 0xb40bbe37, 0xc30c8ea1, 0x5a05df1b, 0x2d02ef8d]
  ]

  lemma TableShape()
    ensures |ROWS| == 16 && forall k | 0 <= k < 16 :: |ROWS[k]| == 16
  {}

  function Entry(row: nat, column: nat): bv32
    requires row < 16 && column < 16
  {
    TableShape();
    ROWS[row][column]
  }

  /** crc_table[i] */
  function TableAt(i: nat): bv32
    requires i < 256
  {
    Entry(i / 16, i % 16)
  }

  // ---- the table is additive ---------------------------------------------

  lemma Sixteen(c: nat)
    requires c < 16
    ensures || c == 0 || c == 1 || c == 2 || c == 3 || c == 4 || c == 5 || c == 6 || c == 7
            || c == 8 || c == 9 || c == 10 || c == 11 || c == 12 || c == 13 || c == 14 || c == 15
  {}

  lemma UpperRows(k: nat, c: nat)
    requires k < 8 && c < 16
    ensures Entry(k, c) == Xor(Entry(k, 0), Entry(0, c))
  {
    TableShape();
    var z := ROWS[0];
    Sixteen(k);
    var r := ROWS[k];
    Sixteen(c);
  }

  lemma LowerRows(k: nat, c: nat)
    requires 8 <= k < 16 && c < 16
    ensures Entry(k, c) == Xor(Entry(k, 0), Entry(0, c))
  {
    TableShape();
    var z := ROWS[0];
    Sixteen(k);
    var r := ROWS[k];
    Sixteen(c);
  }

  /** The sum of the four words that the bits of the nibble n select. */
  function Select(n: bv32, e1: bv32, e2: bv32, e4: bv32, e8: bv32): bv32 {
    Xor(Xor(if n & 1 == 0 then 0 else e1, if n & 2 == 0 then 0 else e2),
        Xor(if n & 4 == 0 then 0 else e4, if n & 8 == 0 then 0 else e8))
  }

  lemma FirstRow(n: bv32)
    requires n < 16
    ensures Entry(0, n as int) == Select(n, 0x77073096, 0xee0e612c, 0x076dc419, 0x0edb8832)
  {
    TableShape();
    var z := ROWS[0];
    Sixteen(n as int);
  }

  lemma Heads(n: bv32)
    requires n < 16
    ensures Entry(n as int, 0) == Select(n, 0x1db71064, 0x3b6e20c8, 0x76dc4190, 0xedb88320)
  {
    TableShape();
    Sixteen(n as int);
    var r := ROWS[n as int];
  }

  // ---- and so is the division --------------------------------------------

  /** Powers of the generator: the register after 1 to 8 steps from 1. */
  lemma Powers()
    ensures Shift(1) == 0xedb88320 && Shift(0xedb88320) == 0x76dc4190
    ensures Shift(0x76dc4190) == 0x3b6e20c8 && Shift(0x3b6e20c8) == 0x1db71064
    ensures Shift(0x1db71064) == 0x0edb8832 && Shift(0x0edb8832) == 0x076dc419
    ensures Shift(0x076dc419) == 0xee0e612c && Shift(0xee0e612c) == 0x77073096
  {}

  lemma Doubles()
    ensures Shift(2) == 1 && Shift(4) == 2 && Shift(8) == 4 && Shift(16) == 8
    ensures Shift(32) == 16 && Shift(64) == 32 && Shift(128) == 64
  {}

  lemma ZeroStays(n: nat)
    ensures ShiftN(0, n) == 0
    decreases n
  {
    if n > 0 {
      assert Shift(0) == 0;
      ZeroStays(n - 1);
    }
  }

  lemma Basis()
    ensures ShiftN(1, 8) == 0x77073096 && ShiftN(2, 8) == 0xee0e612c
    ensures ShiftN(4, 8) == 0x076dc419 && ShiftN(8, 8) == 0x0edb8832
    ensures ShiftN(16, 8) == 0x1db71064 && ShiftN(32, 8) == 0x3b6e20c8
    ensures ShiftN(64, 8) == 0x76dc4190 && ShiftN(128, 8) == 0xedb88320
  {
    hide Shift;
    Powers();
    Doubles();
    assert ShiftN(1, 1) == 0xedb88320;
    forall n: nat | n < 8 ensures ShiftN(1, n + 1) == Shift(ShiftN(1, n)) {
      ShiftNAdd(1, n, 1);
      assert ShiftN(ShiftN(1, n), 1) == ShiftN(Shift(ShiftN(1, n)), 0);
    }
    assert ShiftN(1, 2) == 0x76dc4190 && ShiftN(1, 3) == 0x3b6e20c8 && ShiftN(1, 4) == 0x1db71064;
    assert ShiftN(1, 5) == 0x0edb8832 && ShiftN(1, 6) == 0x076dc419 && ShiftN(1, 7) == 0xee0e612c;
    assert ShiftN(2, 8) == ShiftN(1, 7) && ShiftN(4, 8) == ShiftN(2, 7) && ShiftN(2, 7) == ShiftN(1, 6);
    assert ShiftN(8, 8) == ShiftN(4, 7) && ShiftN(4, 7) == ShiftN(2, 6) && ShiftN(2, 6) == ShiftN(1, 5);
  }

  lemma NibbleBits(n: bv32)
    requires n < 16
    ensures n == Xor(Xor(n & 1, n & 2), Xor(n & 4, n & 8))
    ensures n << 4 == Xor(Xor((n & 1) << 4, (n & 2) << 4), Xor((n & 4) << 4, (n & 8) << 4))
  {}

  lemma NibbleChoices(n: bv32)
    ensures (n & 1 == 0 || n & 1 == 1) && (n & 2 == 0 || n & 2 == 2)
    ensures (n & 4 == 0 || n & 4 == 4) && (n & 8 == 0 || n & 8 == 8)
  {}

  lemma ShiftNSum(a: bv32, b: bv32, c: bv32, d: bv32, n: nat)
    ensures ShiftN(Xor(Xor(a, b), Xor(c, d)), n)
         == Xor(Xor(ShiftN(a, n), ShiftN(b, n)), Xor(ShiftN(c, n), ShiftN(d, n)))
  {
    hide Xor, ShiftN;
    ShiftNXor(Xor(a, b), Xor(c, d), n);
    ShiftNXor(a, b, n);
    ShiftNXor(c, d, n);
  }

  lemma LowNibble(n: bv32)
    requires n < 16
    ensures ShiftN(n, 8) == Entry(0, n as int)
  {
    hide Xor, ShiftN, Entry;
    NibbleBits(n);
    NibbleChoices(n);
    ShiftNSum(n & 1, n & 2, n & 4, n & 8, 8);
    Basis();
    ZeroStays(8);
    FirstRow(n);
  }

  lemma HighNibble(n: bv32)
    requires n < 16
    ensures ShiftN(n << 4, 8) == Entry(n as int, 0)
  {
    hide Xor, ShiftN, Entry;
    NibbleBits(n);
    NibbleChoices(n);
    ShiftNSum((n & 1) << 4, (n & 2) << 4, (n & 4) << 4, (n & 8) << 4, 8);
    Basis();
    ZeroStays(8);
    Heads(n);
  }

  lemma ByteNibbles(b: bv32)
    requires b < 256
    ensures b >> 4 < 16 && b & 0xf < 16 && b == Xor((b >> 4) << 4, b & 0xf)
    ensures b as int / 16 == (b >> 4) as int && b as int % 16 == (b & 0xf) as int
  {}

  /** Entry b of the table is b after eight steps of the division. */
  lemma TableIsDivision(b: bv32)
    requires b < 256
    ensures TableAt(b as int) == ShiftN(b, 8)
  {
    hide Xor, ShiftN, Entry;
    var h, l := b >> 4, b & 0xf;
    ByteNibbles(b);
    ShiftNXor(h << 4, l, 8);
    HighNibble(h);
    LowNibble(l);
    if h < 8 {
      UpperRows(h as int, l as int);
    } else {
      LowerRows(h as int, l as int);
    }
  }

  lemma ClearByteHalves(h: bv32)
    requires h & 0xff == 0
    ensures !Low(h) && !Low(Half(h)) && !Low(Half(Half(h))) && !Low(Half(Half(Half(h))))
    ensures var g := Half(Half(Half(Half(h))));
            !Low(g) && !Low(Half(g)) && !Low(Half(Half(g))) && !Low(Half(Half(Half(g))))
  {}

  lemma ShiftFour(h: bv32, n: nat)
    requires !Low(h) && !Low(Half(h)) && !Low(Half(Half(h))) && !Low(Half(Half(Half(h))))
    ensures ShiftN(h, n + 4) == ShiftN(Half(Half(Half(Half(h)))), n)
  {
    hide Low, Half;
    assert ShiftN(h, n + 4) == ShiftN(Half(h), n + 3);
    assert ShiftN(Half(h), n + 3) == ShiftN(Half(Half(h)), n + 2);
    assert ShiftN(Half(Half(h)), n + 2) == ShiftN(Half(Half(Half(h))), n + 1);
  }

  /** Eight steps: the low byte is divided, the other three move down. */
  lemma ShiftByte(r: bv32)
    ensures ShiftN(r, 8) == Xor(ShiftN(r & 0xff, 8), Byte1(r))
  {
    var h := r & 0xffff_ff00;
    assert r == Xor(r & 0xff, h) && h & 0xff == 0 && Byte1(h) == Byte1(r);
    ShiftUpper(r & 0xff, h);
  }

  lemma ShiftUpper(l: bv32, h: bv32)
    requires h & 0xff == 0
    ensures ShiftN(Xor(l, h), 8) == Xor(ShiftN(l, 8), Byte1(h))
  {
    hide Xor, Low, Half, Byte1, ShiftN;
    ShiftNXor(l, h, 8);
    ClearByteHalves(h);
    ShiftFour(h, 4);
    ShiftFour(Half(Half(Half(Half(h)))), 0);
    Byte1Halves(h);
    assert ShiftN(Byte1(h), 0) == Byte1(h) by {
      ShiftZero(Byte1(h));
    }
  }

  lemma ShiftZero(r: bv32)
    ensures ShiftN(r, 0) == r
  {}
}
