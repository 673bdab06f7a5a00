/** Bytes of the .xz format given in numbers: the digits of its integers, the index of no blocks, and the block header
    that nearly every file has. */
module XzAnswers {

  import Crc
  import opened RangeCoder
  import opened Words
  import opened XzBlockHeader
  import opened XzIndex
  import opened XzVarInt

  lemma DivPower(v: nat, p: nat)
    requires p > 0
    ensures v / 128 / p == v / (128 * p)
  {
    var q, r := v / (128 * p), v % (128 * p);
    assert v == 128 * (p * q) + r;
    ModUnique(v / 128, p, q, r / 128);
  }

  // Main result: an integer is written as its digits to the base 128, the lowest first, each but the last with
  // 128 added, and as few of them as it has.
  lemma {:induction false} VarIntDigits(v: nat, i: nat)
    requires i < |VarInt(v)|
    ensures VarInt(v)[i] == v / Power(i) % 128 + if i + 1 < |VarInt(v)| then 128 else 0
    ensures v < Power(|VarInt(v)|) && (|VarInt(v)| > 1 ==> v >= Power(|VarInt(v)| - 1))
    decreases v
  {
    if v >= 128 {
      var rest := VarInt(v / 128);
      VarIntDigits(v / 128, if i > 0 then i - 1 else 0);
      if i > 0 { DivPower(v, Power(i - 1)); }
    }
  }

  lemma ZeroSteps()
    ensures Crc.ByteStep(0xFFFF_FFFF, 0x00) == 0x2DFD_1072
    ensures Crc.ByteStep(0x2DFD_1072, 0x00) == 0xBE26_ED00
    ensures Crc.ByteStep(0xBE26_ED00, 0x00) == 0x00BE_26ED
    ensures Crc.ByteStep(0x00BE_26ED, 0x00) == 0xDEBB_20E3
  {
    Crc.EightSteps(0xFFFF_FFFF);
    Crc.EightSteps(0x2DFD_1072);
    Crc.EightSteps(0xBE26_ED00);
    Crc.EightSteps(0x00BE_26ED);
    hide Crc.Bits;
  }

  lemma ZeroSerial(d: seq<bv8>)
    requires d == [0, 0, 0, 0]
    ensures Crc.Serial(0xFFFF_FFFF, d) == 0xDEBB_20E3
  {
    hide Crc.Serial, Crc.ByteStep;
    var c: bv32 := 0xFFFF_FFFF;
    Crc.SerialNone(c, d);
    Crc.SerialNext(c, d, 0);
    Crc.SerialNext(c, d, 1);
    Crc.SerialNext(c, d, 2);
    Crc.SerialNext(c, d, 3);
    ZeroSteps();
    assert d[..4] == d;
  }

  lemma HeaderSteps()
    ensures Crc.ByteStep(0xFFFF_FFFF, 0x02) == 0xC3F3_715E
    ensures Crc.ByteStep(0xC3F3_715E, 0x00) == 0x8C10_8F82
    ensures Crc.ByteStep(0x8C10_8F82, 0x21) == 0x4F53_E2DD
    ensures Crc.ByteStep(0x4F53_E2DD, 0x01) == 0x8F2A_CD1D
  {
    Crc.EightSteps(0xFFFF_FFFD);
    Crc.EightSteps(0xC3F3_715E);
    Crc.EightSteps(0x8C10_8FA3);
    Crc.EightSteps(0x4F53_E2DC);
    hide Crc.Bits;
  }

  lemma HeaderStepsFour()
    ensures Crc.ByteStep(0x8F2A_CD1D, 0x16) == 0x975D_F345
    ensures Crc.ByteStep(0x975D_F345, 0x00) == 0x0621_E8EC
    ensures Crc.ByteStep(0x0621_E8EC, 0x00) == 0xA9BA_8FBB
    ensures Crc.ByteStep(0xA9BA_8FBB, 0x00) == 0x5C1A_D08B
  {
    Crc.EightSteps(0x8F2A_CD0B);
    Crc.EightSteps(0x975D_F345);
    Crc.EightSteps(0x0621_E8EC);
    Crc.EightSteps(0xA9BA_8FBB);
    hide Crc.Bits;
  }

  lemma HeaderSerial(d: seq<bv8>)
    requires d == [0x2, 0, 0x21, 0x1, 0x16, 0, 0, 0]
    ensures Crc.Serial(0xFFFF_FFFF, d) == 0x5C1A_D08B
  {
    hide Crc.Serial, Crc.ByteStep;
    var c: bv32 := 0xFFFF_FFFF;
    Crc.SerialNone(c, d);
    Crc.SerialNext(c, d, 0);
    Crc.SerialNext(c, d, 1);
    Crc.SerialNext(c, d, 2);
    Crc.SerialNext(c, d, 3);
    Crc.SerialNext(c, d, 4);
    Crc.SerialNext(c, d, 5);
    Crc.SerialNext(c, d, 6);
    Crc.SerialNext(c, d, 7);
    HeaderSteps();
    HeaderStepsFour();
    assert d[..8] == d;
  }

  lemma ZeroDigest()
    ensures CrcBytes([0, 0, 0, 0]) == [0x1C, 0xDF, 0x44, 0x21]
  {
    hide Crc.Serial;
    var s: seq<Byte> := [0, 0, 0, 0];
    ZeroSerial(Bvs(s));
  }

  // Main result: the index of no blocks.
  lemma EmptyIndex()
    ensures Index([]) == [0, 0, 0, 0, 0x1C, 0xDF, 0x44, 0x21]
  {
    hide CrcBytes;
    assert Body([]) == [0, 0];
    assert Padded(Body([])) == [0, 0, 0, 0];
    ZeroDigest();
  }

  // One block, and the sizes in the order the format says.
  lemma OneRecord(r: Record)
    ensures var s := [0, 1] + VarInt(r.totalSize) + VarInt(r.unpackSize);
      var padded := s + Zeros((4 - |s| % 4) % 4);
      Index([r]) == padded + CrcBytes(padded)
  {
    hide CrcBytes, VarInt;
    var bs := [r];
    assert bs[1..] == [] && Records(bs) == One(r) + Records(bs[1..]) == One(r);
    assert VarInt(1) == [1] by { OneDigit(1); }
    assert Body(bs) == [0] + [1] + (VarInt(r.totalSize) + VarInt(r.unpackSize));
    assert Body([r]) == [0, 1] + VarInt(r.totalSize) + VarInt(r.unpackSize);
  }

  lemma OneDigit(v: nat)
    requires v < 128
    ensures VarInt(v) == [v]
  {}

  lemma HeaderDigest()
    ensures CrcBytes([2, 0, 0x21, 1, 0x16, 0, 0, 0]) == [0x74, 0x2F, 0xE5, 0xA3]
  {
    hide Crc.Serial;
    var s: seq<Byte> := [2, 0, 0x21, 1, 0x16, 0, 0, 0];
    HeaderSerial(Bvs(s));
  }

  // Main result: the shortest header of a block with the LZMA2 filter, its one byte of properties, and no sizes.
  lemma Lzma2Header(h: seq<Byte>)
    requires Sized(h) && |h| <= 12 && IsHeader(h, Block(0, None, None, [Filter(0x21, [0x16])]))
    ensures h == [2, 0, 0x21, 1, 0x16, 0, 0, 0, 0x74, 0x2F, 0xE5, 0xA3]
  {
    hide CrcBytes, VarInt;
    var f := Filter(0x21, [0x16]);
    var b := Block(0, None, None, [f]);
    OneDigit(0x21);
    OneDigit(1);
    assert [f][1..] == [];
    assert Content(b) == [0, 0x21, 1, 0x16];
    HeaderBytes(h, b);
    HeaderDigest();
    assert h == h[..8] + h[8..];
  }

  lemma HeaderBytes(h: seq<Byte>, b: Block)
    requires Sized(h) && |h| <= 12 && IsHeader(h, b) && Content(b) == [0, 0x21, 1, 0x16]
    ensures |h| == 12 && h[..8] == [2, 0, 0x21, 1, 0x16, 0, 0, 0] && h[8..] == CrcBytes(h[..8])
  {
    hide CrcBytes, Content;
    var size := HeaderSize(h);
    var content, s := Content(b), h[1..size];
    assert size == 8 && |s| == 7;
    assert s[..4] == content;
    assert s[4] == s[4..][0] && s[5] == s[4..][1] && s[6] == s[4..][2];
    assert h[1] == s[0] && h[2] == s[1] && h[3] == s[2] && h[4] == s[3];
    assert h[5] == s[4] && h[6] == s[5] && h[7] == s[6];
  }

  // What any header says: bits 6 and 7 of the second byte whether there are sizes, the packed one first, its lowest
  // two bits one less than the number of filters; after the fields zeros, and the checksum of all before it.
  lemma HeaderFields(h: seq<Byte>, b: Block, f: Filter)
    requires Sized(h) && IsHeader(h, b) && WellFormed(b) && b.filters == [f]
    ensures var n: nat, flags: nat := h[0], h[1];
      && |h| == 4 * n + 4 && flags == b.flags && flags % 4 == 0
      && (flags / 64 % 2 == 1 <==> b.packSize.Some?) && (flags >= 128 <==> b.unpackSize.Some?)
    ensures var fields := (if b.packSize.Some? then VarInt(b.packSize.value) else []) +
        (if b.unpackSize.Some? then VarInt(b.unpackSize.value) else []) +
        VarInt(f.id) + VarInt(|f.props|) + f.props;
      && 2 + |fields| <= |h| - 4 && h[2..2 + |fields|] == fields
      && (forall i :: 2 + |fields| <= i < |h| - 4 ==> h[i] == 0) && h[|h| - 4..] == CrcBytes(h[..|h| - 4])
  {
    hide CrcBytes, VarInt;
    var one := b.filters;
    assert one[1..] == [] && FiltersBytes(one) == FilterBytes(f) + FiltersBytes(one[1..]) == FilterBytes(f);
    var fields := SizeBytes(b.packSize) + SizeBytes(b.unpackSize) + VarInt(f.id) + VarInt(|f.props|) + f.props;
    assert Content(b) == [b.flags] + fields;
    FieldsThere(h, [b.flags], fields);
  }

  lemma FieldsThere(h: seq<Byte>, first: seq<Byte>, fields: seq<Byte>)
    requires |h| >= 5 && |first| == 1 && first + fields <= h[1..|h| - 4]
    requires AllZero(h[1..|h| - 4][|first + fields|..])
    ensures h[1] == first[0] && 2 + |fields| <= |h| - 4 && h[2..2 + |fields|] == fields
    ensures forall i :: 2 + |fields| <= i < |h| - 4 ==> h[i] == 0
  {
    var s := h[1..|h| - 4];
    assert s[..|fields| + 1] == first + fields;
    assert h[1] == s[0] == s[..|fields| + 1][0];
    forall j | 0 <= j < |fields|
      ensures h[2..2 + |fields|][j] == fields[j]
    {
      assert h[j + 2] == s[j + 1] == s[..|fields| + 1][j + 1] == (first + fields)[j + 1];
    }
    forall i | 2 + |fields| <= i < |h| - 4
      ensures h[i] == 0
    {
      assert h[i] == s[i - 1] == s[|first + fields|..][i - 1 - |first + fields|];
    }
  }
}
