/** CRC-32: the table of four bytes at a time, and what the checksum is good for. */
module Crc {

  const POLY: bv32 := 0xEDB8_8320

  const INIT_VAL: bv32 := 0xFFFF_FFFF

  // ----- Words: the operations by name, and the laws they are used by --------------------------

  function Xor(x: bv32, y: bv32): bv32 { x ^ y }

  function Half(x: bv32): bv32 { x >> 1 }

  predicate Odd(x: bv32) { x & 1 == 1 }

  // Without the low byte, in place and moved down.
  function Upper(x: bv32): bv32 { x & 0xFFFF_FF00 }

  function Down(x: bv32): bv32 { x >> 8 }

  function Low(x: bv32): bv32 { x & 0xFF }

  lemma HalfXor(x: bv32, y: bv32)
    ensures Half(Xor(x, y)) == Xor(Half(x), Half(y))
  {}

  lemma OddXor(x: bv32, y: bv32)
    ensures Odd(Xor(x, y)) <==> Odd(x) != Odd(y)
  {}

  lemma XorAssoc(p: bv32, x: bv32, y: bv32)
    ensures Xor(Xor(p, x), y) == Xor(p, Xor(x, y))
  {}

  lemma XorSelf(x: bv32)
    ensures Xor(x, x) == 0 && Xor(0, x) == x == Xor(x, 0)
  {}

  lemma XorTwice(p: bv32, x: bv32, y: bv32)
    ensures Xor(Xor(p, x), Xor(p, y)) == Xor(x, y)
  {
    hide Xor;
    XorComm(p, x);
    XorAssoc(x, p, Xor(p, y));
    XorAssoc(p, p, y);
    XorSelf(p);
    XorSelf(y);
  }

  // The same number is added to both.
  lemma XorCancels(p: bv32, x: bv32, y: bv32)
    requires Xor(p, x) == Xor(p, y)
    ensures x == y
  {
    hide Xor;
    XorTwice(p, x, y);
    XorSelf(Xor(p, x));
    XorAssoc(x, y, y);
    XorSelf(y);
    XorSelf(x);
  }

  lemma XorComm(x: bv32, y: bv32)
    ensures Xor(x, y) == Xor(y, x)
  {}

  lemma SplitLow(v: bv32)
    ensures v == Xor(Low(v), Upper(v)) && Low(Upper(v)) == 0
  {}

  lemma HighSame(c: bv32, b: bv32)
    requires b < 0x100
    ensures Down(Upper(Xor(c, b))) == Down(c)
  {}

  // ----- The definition, bit by bit, as in section 8 of RFC 1952 -------------------------------

  function BitStep(r: bv32): bv32 {
    if Odd(r) then Xor(POLY, Half(r)) else Half(r)
  }

  function Bits(r: bv32, n: nat): bv32
    decreases n
  {
    if n == 0 then r else Bits(BitStep(r), n - 1)
  }

  function ByteStep(c: bv32, b: bv8): bv32 {
    Bits(Xor(c, b as bv32), 8)
  }

  function Serial(c: bv32, data: seq<bv8>): bv32 {
    if data == [] then c else ByteStep(Serial(c, data[..|data| - 1]), data[|data| - 1])
  }

  // ----- A bit step is linear, and loses nothing -----------------------------------------------

  lemma BitLinear(x: bv32, y: bv32)
    ensures BitStep(Xor(x, y)) == Xor(BitStep(x), BitStep(y))
  {
    hide Xor, Half, Odd;
    var a, b := Half(x), Half(y);
    HalfXor(x, y);
    OddXor(x, y);
    XorTwice(POLY, a, b);
    XorAssoc(POLY, a, b);
    XorAssoc(POLY, b, a);
    XorComm(a, b);
    XorComm(a, Xor(POLY, b));
  }

  lemma {:induction false} BitsLinear(x: bv32, y: bv32, n: nat)
    ensures Bits(Xor(x, y), n) == Xor(Bits(x, n), Bits(y, n))
    decreases n
  {
    hide BitStep, Xor;
    if n > 0 {
      BitLinear(x, y);
      BitsLinear(BitStep(x), BitStep(y), n - 1);
    }
  }

  lemma {:induction false} BitsAdd(x: bv32, m: nat, n: nat)
    ensures Bits(Bits(x, m), n) == Bits(x, m + n)
    decreases m
  {
    hide BitStep;
    if m > 0 { BitsAdd(BitStep(x), m - 1, n); }
  }

  // The top bit tells what the last bit was.
  lemma BitInjective(x: bv32, y: bv32)
    requires BitStep(x) == BitStep(y)
    ensures x == y
  {}

  lemma {:induction false} BitsInjective(x: bv32, y: bv32, n: nat)
    requires Bits(x, n) == Bits(y, n)
    ensures x == y
    decreases n
  {
    hide BitStep;
    if n > 0 {
      BitsInjective(BitStep(x), BitStep(y), n - 1);
      BitInjective(x, y);
    }
  }

  // ----- Zero bits are just shifted out --------------------------------------------------------

  lemma {:induction false} ZerosOut(x: bv32, n: nat)
    requires n <= 8 && Low(x) == 0
    ensures Bits(x, n) == Shifted(x, n) && (n < 8 ==> !Odd(Shifted(x, n)))
  {
    hide BitStep, Half, Odd, Low;
    ShiftedEven(x, n);
    if n > 0 {
      ZerosOut(x, n - 1);
      BitsAdd(x, n - 1, 1);
      EvenStep(Shifted(x, n - 1));
    }
  }

  function Shifted(x: bv32, n: nat): bv32 {
    if n == 0 then x else Half(Shifted(x, n - 1))
  }

  lemma EvenStep(x: bv32)
    requires !Odd(x)
    ensures Bits(x, 1) == Half(x)
  {}

  lemma ShiftedEven(x: bv32, n: nat)
    requires n <= 8 && Low(x) == 0
    ensures n < 8 ==> !Odd(Shifted(x, n))
    ensures n == 8 ==> Shifted(x, n) == Down(x)
  {
    var s1 := x >> 1;
    assert Shifted(x, 0) == x && Shifted(x, 1) == x >> 1 && Shifted(x, 2) == x >> 2 && Shifted(x, 3) == x >> 3;
    assert Shifted(x, 4) == x >> 4 && Shifted(x, 5) == x >> 5 && Shifted(x, 6) == x >> 6 && Shifted(x, 7) == x >> 7;
    assert Shifted(x, 8) == x >> 8;
  }

  // One byte by the table: only the low byte of the sum is looked up.
  lemma ByteByTable(c: bv32, b: bv8)
    ensures ByteStep(c, b) == Xor(Bits(Low(Xor(c, b as bv32)), 8), Down(c))
  {
    hide BitStep, Bits, Xor, Low, Upper, Down;
    var v := Xor(c, b as bv32);
    SplitLow(v);
    BitsLinear(Low(v), Upper(v), 8);
    ZerosOut(Upper(v), 8);
    ShiftedEven(Upper(v), 8);
    HighSame(c, b as bv32);
  }

  // ----- Several bytes at once -----------------------------------------------------------------

  function Up(x: bv32): bv32 { x << 8 }

  lemma UpDown(x: bv32)
    requires x < 0x100_0000
    ensures Low(Up(x)) == 0 && Down(Up(x)) == x
  {}

  lemma UpOut(x: bv32, n: nat)
    requires x < 0x100_0000
    ensures Bits(Up(x), 8 + n) == Bits(x, n)
  {
    hide BitStep, Bits, Up, Down, Low;
    UpDown(x);
    ZerosOut(Up(x), 8);
    ShiftedEven(Up(x), 8);
    BitsAdd(Up(x), 8, n);
  }

  function Byte1(v: bv32): bv32 { (v >> 8) & 0xFF }

  function Byte2(v: bv32): bv32 { (v >> 16) & 0xFF }

  function Byte3(v: bv32): bv32 { v >> 24 }

  lemma BytesBelow(v: bv32)
    ensures Low(v) < 0x100 && Byte1(v) < 0x100 && Byte2(v) < 0x100 && Byte3(v) < 0x100
  {}

  // A word in four bytes.
  function Joined(b0: bv32, b1: bv32, b2: bv32, b3: bv32): bv32 {
    Xor(Xor(b0, Up(b1)), Xor(Up(Up(b2)), Up(Up(Up(b3)))))
  }

  lemma SplitWord(v: bv32)
    ensures v == Joined(Low(v), Byte1(v), Byte2(v), Byte3(v))
  {
    assert v == ((v & 0xFF) ^ (((v >> 8) & 0xFF) << 8)) ^
                (((((v >> 16) & 0xFF) << 8) << 8) ^ ((((v >> 24) << 8) << 8) << 8));
  }

  lemma JoinedBytes(b0: bv32, b1: bv32, b2: bv32, b3: bv32)
    requires b0 < 0x100 && b1 < 0x100 && b2 < 0x100 && b3 < 0x100
    ensures var v := Joined(b0, b1, b2, b3); Low(v) == b0 && Byte1(v) == b1 && Byte2(v) == b2 && Byte3(v) == b3
  {}

  lemma UpBelow(x: bv32)
    ensures x < 0x100 ==> Up(x) < 0x1_0000
    ensures x < 0x1_0000 ==> Up(x) < 0x100_0000
  {}

  // Four bytes are done when the table of each has taken them out.
  lemma WordByTables(b0: bv32, b1: bv32, b2: bv32, b3: bv32)
    requires b0 < 0x100 && b1 < 0x100 && b2 < 0x100 && b3 < 0x100
    ensures Bits(Joined(b0, b1, b2, b3), 32) ==
            Xor(Xor(Bits(b0, 32), Bits(b1, 24)), Xor(Bits(b2, 16), Bits(b3, 8)))
  {
    hide BitStep, Bits, Xor, Up;
    var u1, u2, u3 := Up(b1), Up(Up(b2)), Up(Up(Up(b3)));
    BitsLinear(Xor(b0, u1), Xor(u2, u3), 32);
    BitsLinear(b0, u1, 32);
    BitsLinear(u2, u3, 32);
    UpBelow(b2);
    UpBelow(b3);
    UpBelow(Up(b3));
    UpOut(b1, 24);
    UpOut(Up(b2), 24);
    UpOut(b2, 16);
    UpOut(Up(Up(b3)), 24);
    UpOut(Up(b3), 16);
    UpOut(b3, 8);
  }

  // What is added after n bits can be added before, that much higher.
  lemma AddedBefore(c: bv32, x: bv32, y: bv32, n: nat)
    requires Bits(y, n) == x
    ensures Xor(Bits(c, n), x) == Bits(Xor(c, y), n)
  {
    hide Bits, Xor;
    BitsLinear(c, y, n);
  }

  lemma FourBytes(c: bv32, d0: bv8, d1: bv8, d2: bv8, d3: bv8)
    ensures ByteStep(ByteStep(ByteStep(ByteStep(c, d0), d1), d2), d3) ==
            Bits(Xor(c, Joined(d0 as bv32, d1 as bv32, d2 as bv32, d3 as bv32)), 32)
  {
    hide BitStep, Bits, Xor, Up;
    var b0, b1, b2, b3 := d0 as bv32, d1 as bv32, d2 as bv32, d3 as bv32;
    var u1, u2, u3 := Up(b1), Up(Up(b2)), Up(Up(Up(b3)));
    BytesSmall(d0, d1, d2, d3);
    UpBelow(b2);
    UpBelow(b3);
    UpBelow(Up(b3));
    var c0 := Xor(c, b0);
    var c1 := Xor(c0, u1);
    var c2 := Xor(c1, u2);
    NoBits(b1);
    NoBits(b2);
    NoBits(b3);
    UpOut(b1, 0);
    AddedBefore(c0, b1, u1, 8);
    BitsAdd(c1, 8, 8);
    UpOut(Up(b2), 8);
    UpOut(b2, 0);
    AddedBefore(c1, b2, u2, 16);
    BitsAdd(c2, 16, 8);
    UpOut(Up(Up(b3)), 16);
    UpOut(Up(b3), 8);
    UpOut(b3, 0);
    AddedBefore(c2, b3, u3, 24);
    BitsAdd(Xor(c2, u3), 24, 8);
    XorAssoc(c, b0, u1);
    XorAssoc(Xor(c, Xor(b0, u1)), u2, u3);
    XorAssoc(c, Xor(b0, u1), Xor(u2, u3));
  }

  lemma BytesSmall(d0: bv8, d1: bv8, d2: bv8, d3: bv8)
    ensures (d0 as bv32) < 0x100 && (d1 as bv32) < 0x100 && (d2 as bv32) < 0x100 && (d3 as bv32) < 0x100
  {}

  lemma NoBits(x: bv32)
    ensures Bits(x, 0) == x
  {}

  // ----- The tables ----------------------------------------------------------------------------

  const NUM_TABLES: nat := 8

  // A word below 256 as an index, and back.
  function Index(v: bv32): (i: nat)
    requires v < 0x100
    ensures i < 256
  {
    v as int
  }

  function Number(i: nat): bv32
    requires i < 256
  {
    i as bv32
  }

  lemma IndexNumber(v: bv32)
    requires v < 0x100
    ensures Number(Index(v)) == v
  {}

  function Entry(n: nat): bv32 {
    Bits(Number(n % 256), 8 * (n / 256 + 1))
  }

  predicate IsTable(table: seq<bv32>) {
    |table| == 256 * NUM_TABLES && forall n :: 0 <= n < |table| ==> table[n] == Entry(n)
  }

  lemma EntryAt(k: nat, i: nat)
    requires i < 256
    ensures Entry(256 * k + i) == Bits(Number(i), 8 * (k + 1))
  {
    hide Number, Bits;
    assert (256 * k + i) % 256 == i && (256 * k + i) / 256 == k;
  }

  lemma LookUp(table: seq<bv32>, k: nat, v: bv32)
    requires IsTable(table) && k < NUM_TABLES && v < 0x100
    ensures table[256 * k + Index(v)] == Bits(v, 8 * (k + 1))
  {
    hide Bits, Index, Number, Entry;
    IndexNumber(v);
    EntryAt(k, Index(v));
  }

  // A bit step by a mask: all ones if the lowest bit is set.
  function MaskStep(r: bv32): bv32 {
    (r >> 1) ^ (POLY & !((r & 1) - 1))
  }

  lemma MaskStepIs(r: bv32)
    ensures MaskStep(r) == BitStep(r)
  {}

  method CrcGenerateTable() returns (table: array<bv32>)
    ensures fresh(table) && IsTable(table[..])
  {
    hide Bits, BitStep, MaskStep, Index, Number, Entry, Xor, Low, Down;
    table := new bv32[256 * NUM_TABLES];
    var i: nat := 0;
    while i < 256
      invariant i <= 256 && forall n :: 0 <= n < i ==> table[n] == Entry(n)
    {
      var r := Number(i);
      var j := 0;
      NoBits(r);
      while j < 8
        invariant 0 <= j <= 8 && r == Bits(Number(i), j)
        invariant forall n :: 0 <= n < i ==> table[n] == Entry(n)
      {
        MaskStepIs(r);
        OneMore(Number(i), j);
        r := MaskStep(r);
        j := j + 1;
      }
      FirstEntry(i);
      table[i] := r;
      i := i + 1;
    }
    while i < 256 * NUM_TABLES
      invariant 256 <= i <= 256 * NUM_TABLES && forall n :: 0 <= n < i ==> table[n] == Entry(n)
    {
      var r := table[i - 256];
      LowSmall(r);
      NextEntry(i, r);
      table[i] := Xor(table[Index(Low(r))], Down(r));
      i := i + 1;
    }
  }

  lemma FirstEntry(i: nat)
    requires i < 256
    ensures Entry(i) == Bits(Number(i), 8)
  {}

  lemma OneMore(x: bv32, n: nat)
    ensures Bits(x, n + 1) == BitStep(Bits(x, n))
  {
    hide BitStep;
    BitsAdd(x, n, 1);
    assert Bits(Bits(x, n), 1) == BitStep(Bits(x, n));
  }

  lemma LowSmall(r: bv32)
    ensures Low(r) < 0x100
  {}

  lemma NextEntry(i: nat, r: bv32)
    requires i >= 256 && r == Entry(i - 256) && Low(r) < 0x100
    ensures Xor(Entry(Index(Low(r))), Down(r)) == Entry(i)
  {
    hide Bits, BitStep, Index, Number, Xor, Low, Down;
    IndexNumber(Low(r));
    EntryAt(0, Index(Low(r)));
    ByteByTable(r, 0);
    ZeroByte(r);
    BitsAdd(Number(i % 256), 8 * (i / 256), 8);
  }

  lemma ZeroByte(r: bv32)
    ensures Xor(r, (0 as bv8) as bv32) == r && ByteStep(r, 0) == Bits(r, 8)
  {
    hide Bits;
  }

  // ----- The loops -----------------------------------------------------------------------------

  // One byte: CRC_UPDATE_BYTE_2.
  method UpdateByte(table: array<bv32>, v: bv32, b: bv8) returns (r: bv32)
    requires IsTable(table[..])
    ensures r == ByteStep(v, b)
  {
    hide Bits, BitStep, Index, Entry, Xor, Low, Down;
    var x := Low(Xor(v, b as bv32));
    LowSmall(Xor(v, b as bv32));
    LookUp(table[..], 0, x);
    ByteByTable(v, b);
    r := Xor(table[Index(x)], Down(v));
  }

  // Four bytes as a word, the lowest first.
  function WordAt(data: seq<bv8>, i: nat): bv32
    requires i + 4 <= |data|
  {
    Joined(data[i] as bv32, data[i + 1] as bv32, data[i + 2] as bv32, data[i + 3] as bv32)
  }

  method UpdateWord(table: array<bv32>, v: bv32, w: bv32) returns (r: bv32)
    requires IsTable(table[..])
    ensures r == Bits(Xor(v, w), 32)
  {
    hide Bits, BitStep, Index, Entry, Xor, Low, Byte1, Byte2, Byte3, Joined, IsTable;
    var x := Xor(v, w);
    BytesBelow(x);
    TableLength(table[..]);
    LookUp(table[..], 3, Low(x));
    LookUp(table[..], 2, Byte1(x));
    LookUp(table[..], 1, Byte2(x));
    LookUp(table[..], 0, Byte3(x));
    SplitWord(x);
    WordByTables(Low(x), Byte1(x), Byte2(x), Byte3(x));
    r := Xor(Xor(table[0x300 + Index(Low(x))], table[0x200 + Index(Byte1(x))]),
             Xor(table[0x100 + Index(Byte2(x))], table[Index(Byte3(x))]));
  }

  lemma TableLength(table: seq<bv32>)
    requires IsTable(table)
    ensures |table| == 0x800
  {}

  lemma SerialNext(c: bv32, data: seq<bv8>, i: nat)
    requires i < |data|
    ensures Serial(c, data[..i + 1]) == ByteStep(Serial(c, data[..i]), data[i])
  {
    assert data[..i + 1][..i] == data[..i];
  }

  lemma SerialWord(c: bv32, data: seq<bv8>, i: nat)
    requires i + 4 <= |data|
    ensures Serial(c, data[..i + 4]) == Bits(Xor(Serial(c, data[..i]), WordAt(data, i)), 32)
  {
    hide ByteStep, Serial, Bits, Xor, Joined;
    SerialNext(c, data, i);
    SerialNext(c, data, i + 1);
    SerialNext(c, data, i + 2);
    SerialNext(c, data, i + 3);
    FourBytes(Serial(c, data[..i]), data[i], data[i + 1], data[i + 2], data[i + 3]);
  }

  // Main result: for all data, at any address, with any value to begin with, the loops by bytes and by words
  // compute what the definition does bit by bit.
  method CrcUpdateT4(v: bv32, data: seq<bv8>, at: nat, table: array<bv32>) returns (r: bv32)
    requires IsTable(table[..])
    ensures r == Serial(v, data)
  {
    hide ByteStep, Serial, Bits, Xor, WordAt, IsTable;
    r := v;
    var i: nat := 0;
    SerialNone(v, data);
    while i < |data| && (at + i) % 4 != 0
      invariant i <= |data| && r == Serial(v, data[..i])
    {
      SerialNext(v, data, i);
      r := UpdateByte(table, r, data[i]);
      i := i + 1;
    }
    while |data| - i >= 4
      invariant i <= |data| && r == Serial(v, data[..i])
    {
      SerialWord(v, data, i);
      r := UpdateWord(table, r, WordAt(data, i));
      i := i + 4;
    }
    while i < |data|
      invariant i <= |data| && r == Serial(v, data[..i])
    {
      SerialNext(v, data, i);
      r := UpdateByte(table, r, data[i]);
      i := i + 1;
    }
    assert data[..i] == data;
  }

  method CrcUpdateT1(v: bv32, data: seq<bv8>, table: array<bv32>) returns (r: bv32)
    requires IsTable(table[..])
    ensures r == Serial(v, data)
  {
    hide ByteStep, Serial, Bits, IsTable;
    r := v;
    var i: nat := 0;
    SerialNone(v, data);
    while i < |data|
      invariant i <= |data| && r == Serial(v, data[..i])
    {
      SerialNext(v, data, i);
      r := UpdateByte(table, r, data[i]);
      i := i + 1;
    }
    assert data[..i] == data;
  }

  lemma SerialNone(c: bv32, data: seq<bv8>)
    ensures Serial(c, data[..0]) == c
  {}

  function Crc32(data: seq<bv8>): bv32 {
    Xor(Serial(INIT_VAL, data), INIT_VAL)
  }

  method CrcCalc(data: seq<bv8>, at: nat, table: array<bv32>) returns (r: bv32)
    requires IsTable(table[..])
    ensures r == Crc32(data)
  {
    r := CrcUpdateT4(INIT_VAL, data, at, table);
    r := Xor(r, INIT_VAL);
  }

  // ----- What it is good for -------------------------------------------------------------------

  lemma {:induction false} SerialConcat(c: bv32, x: seq<bv8>, y: seq<bv8>)
    ensures Serial(c, x + y) == Serial(Serial(c, x), y)
    decreases |y|
  {
    hide ByteStep;
    if y == [] {
      assert x + y == x;
    } else {
      var m := |y| - 1;
      SerialConcat(c, x, y[..m]);
      assert (x + y)[..|x| + m] == x + y[..m];
    }
  }

  lemma StepInjective(c: bv32, d: bv32, b: bv8)
    requires ByteStep(c, b) == ByteStep(d, b)
    ensures c == d
  {
    hide Bits, Xor;
    var x := b as bv32;
    BitsInjective(Xor(c, x), Xor(d, x), 8);
    XorComm(c, x);
    XorComm(d, x);
    XorCancels(x, c, d);
  }

  // What has gone apart stays apart.
  lemma {:induction false} SerialInjective(c: bv32, d: bv32, data: seq<bv8>)
    requires Serial(c, data) == Serial(d, data)
    ensures c == d
    decreases |data|
  {
    hide ByteStep;
    if data != [] {
      var m := |data| - 1;
      StepInjective(Serial(c, data[..m]), Serial(d, data[..m]), data[m]);
      SerialInjective(c, d, data[..m]);
    }
  }

  lemma WordsDiffer(c: bv32, x: seq<bv8>, y: seq<bv8>)
    requires |x| == |y| == 4 && Serial(c, x) == Serial(c, y)
    ensures x == y
  {
    hide ByteStep, Serial, Bits, Xor, Joined, Low, Byte1, Byte2, Byte3;
    SerialWord(c, x, 0);
    SerialWord(c, y, 0);
    SerialNone(c, x);
    SerialNone(c, y);
    assert x[..4] == x && y[..4] == y;
    BitsInjective(Xor(c, WordAt(x, 0)), Xor(c, WordAt(y, 0)), 32);
    XorCancels(c, WordAt(x, 0), WordAt(y, 0));
    BytesOf(x);
    BytesOf(y);
    forall i | 0 <= i < 4
      ensures x[i] == y[i]
    {
      Same(x[i], y[i]);
    }
  }

  lemma BytesOf(x: seq<bv8>)
    requires |x| == 4
    ensures var w := WordAt(x, 0);
      Low(w) == x[0] as bv32 && Byte1(w) == x[1] as bv32 && Byte2(w) == x[2] as bv32 && Byte3(w) == x[3] as bv32
  {
    hide Low, Byte1, Byte2, Byte3, Joined;
    BytesSmall(x[0], x[1], x[2], x[3]);
    JoinedBytes(x[0] as bv32, x[1] as bv32, x[2] as bv32, x[3] as bv32);
  }

  lemma Same(a: bv8, b: bv8)
    ensures a as bv32 == b as bv32 ==> a == b
  {}

  lemma Unpadded(x: seq<bv8>, y: seq<bv8>, z: seq<bv8>)
    requires |x| == |y| && x + z == y + z
    ensures x == y
  {
    assert x == (x + z)[..|x|] && y == (y + z)[..|x|];
  }

  // Main result: two messages that differ only within four bytes in a row never have the same checksum.
  lemma BurstDetected(a: seq<bv8>, x: seq<bv8>, y: seq<bv8>, z: seq<bv8>)
    requires |x| == |y| <= 4 && x != y
    ensures Crc32(a + x + z) != Crc32(a + y + z)
  {
    hide ByteStep, Serial, Xor;
    if Crc32(a + x + z) == Crc32(a + y + z) {
      var c := Serial(INIT_VAL, a);
      XorComm(Serial(INIT_VAL, a + x + z), INIT_VAL);
      XorComm(Serial(INIT_VAL, a + y + z), INIT_VAL);
      XorCancels(INIT_VAL, Serial(INIT_VAL, a + x + z), Serial(INIT_VAL, a + y + z));
      SerialConcat(INIT_VAL, a + x, z);
      SerialConcat(INIT_VAL, a + y, z);
      SerialInjective(Serial(INIT_VAL, a + x), Serial(INIT_VAL, a + y), z);
      SerialConcat(INIT_VAL, a, x);
      SerialConcat(INIT_VAL, a, y);
      var zeros := seq(4 - |x|, _ => 0 as bv8);
      SerialConcat(c, x, zeros);
      SerialConcat(c, y, zeros);
      WordsDiffer(c, x + zeros, y + zeros);
      Unpadded(x, y, zeros);
    }
  }

  // ----- The checksum everyone checks first ------------------------------------------------------

  lemma EightSteps(x: bv32)
    ensures Bits(x, 8) ==
      BitStep(BitStep(BitStep(BitStep(BitStep(BitStep(BitStep(BitStep(x))))))))
  {
    hide BitStep;
    assert Bits(x, 8) == Bits(BitStep(BitStep(BitStep(BitStep(x)))), 4);
  }

  lemma DigitStepsOne()
    ensures ByteStep(0xFFFF_FFFF, 0x31) == 0x7C23_1048
    ensures ByteStep(0x7C23_1048, 0x32) == 0xB0AC_BB32
    ensures ByteStep(0xB0AC_BB32, 0x33) == 0x77B7_9C2D
  {
    EightSteps(0xFFFF_FFCE);
    EightSteps(0x7C23_107A);
    EightSteps(0xB0AC_BB01);
    hide Bits;
  }

  lemma DigitStepsFour()
    ensures ByteStep(0x77B7_9C2D, 0x34) == 0x641C_1F5C
    ensures ByteStep(0x641C_1F5C, 0x35) == 0x340A_C5E3
    ensures ByteStep(0x340A_C5E3, 0x36) == 0xF68D_2C9E
  {
    EightSteps(0x77B7_9C19);
    EightSteps(0x641C_1F69);
    EightSteps(0x340A_C5D5);
    hide Bits;
  }

  lemma DigitStepsSeven()
    ensures ByteStep(0xF68D_2C9E, 0x37) == 0xAFFC_9660
    ensures ByteStep(0xAFFC_9660, 0x38) == 0x651F_2550
    ensures ByteStep(0x651F_2550, 0x39) == 0x340B_C6D9
  {
    EightSteps(0xF68D_2CA9);
    EightSteps(0xAFFC_9658);
    EightSteps(0x651F_2569);
    hide Bits;
  }

  lemma SerialDigits(data: seq<bv8>)
    requires data == [0x31, 0x32, 0x33, 0x34, 0x35, 0x36, 0x37, 0x38, 0x39]
    ensures Serial(0xFFFF_FFFF, data) == 0x340B_C6D9
  {
    hide Serial, ByteStep;
    var c: bv32 := 0xFFFF_FFFF;
    SerialNone(c, data);
    SerialNext(c, data, 0);
    SerialNext(c, data, 1);
    SerialNext(c, data, 2);
    SerialNext(c, data, 3);
    SerialNext(c, data, 4);
    SerialNext(c, data, 5);
    SerialNext(c, data, 6);
    SerialNext(c, data, 7);
    SerialNext(c, data, 8);
    DigitStepsOne();
    DigitStepsFour();
    DigitStepsSeven();
    assert data[..9] == data;
  }

  // Main result: the checksum of the nine digits is the published one.
  lemma CheckValue(data: seq<bv8>)
    requires data == [0x31, 0x32, 0x33, 0x34, 0x35, 0x36, 0x37, 0x38, 0x39]
    ensures Crc32(data) == 0xCBF4_3926
  {
    hide Serial;
    SerialDigits(data);
  }
}
