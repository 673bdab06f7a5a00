/** The index of an .xz file (section 4 of the format): the sizes of all blocks, with a checksum. */
module XzIndex {

  import Crc
  import opened RangeCoder
  import opened Words
  import opened XzVarInt

  // ----- The checksum of bytes, as four bytes, the lowest first --------------------------------

  function ToBv(b: Byte): bv8 { b as bv8 }

  function Bvs(s: seq<Byte>): (r: seq<bv8>)
    ensures |r| == |s|
  {
    seq(|s|, i requires 0 <= i < |s| => ToBv(s[i]))
  }

  lemma BvsConcat(s: seq<Byte>, t: seq<Byte>)
    ensures Bvs(s + t) == Bvs(s) + Bvs(t)
  {}

  function Digest(c: bv32): (s: seq<Byte>)
    ensures |s| == 4
  {
    Crc.BytesBelow(c);
    [Crc.Index(Crc.Low(c)), Crc.Index(Crc.Byte1(c)), Crc.Index(Crc.Byte2(c)), Crc.Index(Crc.Byte3(c))]
  }

  function CrcBytes(s: seq<Byte>): (r: seq<Byte>)
    ensures |r| == 4
  {
    Digest(Crc.Crc32(Bvs(s)))
  }

  // ----- The form ------------------------------------------------------------------------------

  datatype Record = Record(totalSize: nat, unpackSize: nat)

  predicate InRange(r: Record) {
    0 < r.totalSize < LIMIT && r.unpackSize < LIMIT
  }

  predicate AllInRange(bs: seq<Record>) {
    |bs| < LIMIT && forall r :: r in bs ==> InRange(r)
  }

  function One(r: Record): seq<Byte> {
    VarInt(r.totalSize) + VarInt(r.unpackSize)
  }

  function Records(bs: seq<Record>): seq<Byte> {
    if bs == [] then [] else One(bs[0]) + Records(bs[1..])
  }

  function Zeros(n: nat): (s: seq<Byte>)
    ensures |s| == n && forall i :: 0 <= i < n ==> s[i] == 0
  {
    seq(n, _ => 0)
  }

  function Padded(s: seq<Byte>): (r: seq<Byte>)
    ensures |r| % 4 == 0 && s <= r
  {
    s + Zeros((4 - |s| % 4) % 4)
  }

  function Body(bs: seq<Record>): seq<Byte> {
    [0] + VarInt(|bs|) + Records(bs)
  }

  function Index(bs: seq<Record>): seq<Byte> {
    Padded(Body(bs)) + CrcBytes(Padded(Body(bs)))
  }

  // ----- Writing -------------------------------------------------------------------------------

  lemma {:induction false} RecordsSnoc(bs: seq<Record>, r: Record)
    ensures Records(bs + [r]) == Records(bs) + One(r)
    decreases |bs|
  {
    if bs == [] {
      assert bs + [r] == [r] && [r][1..] == [];
    } else {
      assert (bs + [r])[1..] == bs[1..] + [r];
      RecordsSnoc(bs[1..], r);
    }
  }

  // What has been written, with the checksum so far.
  class Output {
    var bytes: seq<Byte>
    var crc: bv32

    ghost predicate Valid()
      reads this
    {
      crc == Crc.Serial(Crc.INIT_VAL, Bvs(bytes))
    }

    constructor ()
      ensures Valid() && bytes == []
    {
      bytes, crc := [], Crc.INIT_VAL;
    }

    method WriteBytesAndCrc(s: seq<Byte>, table: array<bv32>)
      requires Valid() && Crc.IsTable(table[..])
      modifies this
      ensures Valid() && bytes == old(bytes) + s
    {
      BvsConcat(bytes, s);
      Crc.SerialConcat(Crc.INIT_VAL, Bvs(bytes), Bvs(s));
      crc := Crc.CrcUpdateT4(crc, Bvs(s), |bytes|, table);
      bytes := bytes + s;
    }
  }

  method WriteRecord(out: Output, r: Record, table: array<bv32>)
    requires out.Valid() && Crc.IsTable(table[..])
    modifies out
    ensures out.Valid() && out.bytes == old(out.bytes) + One(r)
  {
    hide VarInt, Crc.IsTable;
    var t := WriteVarInt(r.totalSize);
    var u := WriteVarInt(r.unpackSize);
    out.WriteBytesAndCrc(t + u, table);
  }

  lemma NextRecord(bs: seq<Record>, i: nat, before: seq<Byte>)
    requires i < |bs|
    ensures before + Records(bs[..i + 1]) == before + Records(bs[..i]) + One(bs[i])
  {
    hide Records, One;
    RecordsSnoc(bs[..i], bs[i]);
    assert bs[..i + 1] == bs[..i] + [bs[i]];
    assert before + (Records(bs[..i]) + One(bs[i])) == before + Records(bs[..i]) + One(bs[i]);
  }

  lemma NoRecords(before: seq<Byte>)
    ensures before + Records([]) == before
  {}

  method WriteRecords(out: Output, bs: seq<Record>, table: array<bv32>)
    requires out.Valid() && Crc.IsTable(table[..])
    modifies out
    ensures out.Valid() && out.bytes == old(out.bytes) + Records(bs)
  {
    hide Records, One, Crc.IsTable, Output.Valid;
    ghost var before := out.bytes;
    var i: nat := 0;
    NoRecords(before);
    assert bs[..0] == [];
    while i < |bs|
      invariant i <= |bs| && out.Valid() && out.bytes == before + Records(bs[..i])
    {
      NextRecord(bs, i, before);
      WriteRecord(out, bs[i], table);
      i := i + 1;
    }
    assert bs[..i] == bs;
  }

  method PadOut(out: Output, table: array<bv32>)
    requires out.Valid() && Crc.IsTable(table[..])
    modifies out
    ensures out.Valid() && out.bytes == Padded(old(out.bytes))
  {
    hide Crc.IsTable, Output.Valid;
    var pos := |out.bytes| % 4;
    if pos != 0 {
      out.WriteBytesAndCrc(Zeros(4 - pos), table);
    } else {
      assert out.bytes + Zeros(0) == out.bytes;
    }
  }

  lemma BodyIs(bs: seq<Record>)
    ensures [] + ([0] + VarInt(|bs|)) + Records(bs) == Body(bs)
  {
    hide VarInt, Records;
  }

  // The index part of Xz_WriteFooter.
  method WriteIndex(bs: seq<Record>, table: array<bv32>) returns (index: seq<Byte>)
    requires Crc.IsTable(table[..])
    ensures index == Index(bs)
  {
    hide VarInt, Records, Crc.IsTable, Digest, Output.Valid, Body, Padded, CrcBytes;
    var out := new Output();
    var v := WriteVarInt(|bs|);
    out.WriteBytesAndCrc([0] + v, table);
    WriteRecords(out, bs, table);
    BodyIs(bs);
    PadOut(out, table);
    CrcOfValid(out);
    index := out.bytes + Digest(Crc.Xor(out.crc, Crc.INIT_VAL));
  }

  lemma CrcOfValid(out: Output)
    requires out.Valid()
    ensures Digest(Crc.Xor(out.crc, Crc.INIT_VAL)) == CrcBytes(out.bytes)
  {
    hide Digest, Crc.Xor;
  }

  // ----- Reading -------------------------------------------------------------------------------

  function ReadOne(s: seq<Byte>): (r: Option<(Record, nat)>)
    ensures r.Some? ==> 1 <= r.value.1 <= |s|
  {
    match Read(s)
    case None => None
    case Some((t, n)) =>
      match Read(s[n..])
      case None => None
      case Some((u, m)) => if t == 0 then None else Some((Record(t, u), n + m))
  }

  lemma ReadOneExact(s: seq<Byte>, r: Record, n: nat)
    ensures ReadOne(s) == Some((r, n)) <==> InRange(r) && One(r) <= s && n == |One(r)|
  {
    hide Read, VarInt;
    var t := VarInt(r.totalSize);
    ReadExact(s, r.totalSize, |t|);
    if Read(s).Some? {
      var (v, k) := Read(s).value;
      ReadExact(s, v, k);
    }
    if t <= s {
      ReadExact(s[|t|..], r.unpackSize, |VarInt(r.unpackSize)|);
      Behind(s, t, VarInt(r.unpackSize));
      if Read(s[|t|..]).Some? {
        var (v, k) := Read(s[|t|..]).value;
        ReadExact(s[|t|..], v, k);
      }
    }
    Front(s, t, VarInt(r.unpackSize));
  }

  lemma Front(s: seq<Byte>, t: seq<Byte>, u: seq<Byte>)
    ensures t + u <= s ==> t <= s
  {
    if t + u <= s { assert s[..|t|] == (t + u)[..|t|]; }
  }

  lemma Behind(s: seq<Byte>, t: seq<Byte>, u: seq<Byte>)
    requires t <= s
    ensures t + u <= s <==> u <= s[|t|..]
  {
    if t + u <= s { assert s[|t|..][..|u|] == (t + u)[|t|..]; }
    if u <= s[|t|..] { assert s[..|t| + |u|] == s[..|t|] + s[|t|..][..|u|]; }
  }

  function ReadRecords(s: seq<Byte>, n: nat): (r: Option<(seq<Record>, nat)>)
    ensures r.Some? ==> r.value.1 <= |s|
    decreases n
  {
    if n == 0 then Some(([], 0)) else
      match ReadOne(s)
      case None => None
      case Some((r, k)) =>
        match ReadRecords(s[k..], n - 1)
        case None => None
        case Some((bs, m)) => Some(([r] + bs, k + m))
  }

  lemma {:induction false} ReadRecordsExact(s: seq<Byte>, n: nat, bs: seq<Record>, k: nat)
    ensures ReadRecords(s, n) == Some((bs, k)) <==>
            |bs| == n && (forall r :: r in bs ==> InRange(r)) && Records(bs) <= s && k == |Records(bs)|
    decreases n
  {
    hide ReadOne, One, InRange;
    if n > 0 {
      if ReadOne(s).Some? {
        var (r, m) := ReadOne(s).value;
        ReadOneExact(s, r, m);
        if ReadRecords(s[m..], n - 1).Some? {
          var (cs, j) := ReadRecords(s[m..], n - 1).value;
          ReadRecordsExact(s[m..], n - 1, cs, j);
          Behind(s, One(r), Records(cs));
          assert ([r] + cs)[1..] == cs;
        }
      }
      if |bs| == n {
        ReadOneExact(s, bs[0], |One(bs[0])|);
        Front(s, One(bs[0]), Records(bs[1..]));
        if One(bs[0]) <= s {
          Behind(s, One(bs[0]), Records(bs[1..]));
          var m := |One(bs[0])|;
          ReadRecordsExact(s[m..], n - 1, bs[1..], |Records(bs[1..])|);
          assert bs == [bs[0]] + bs[1..];
        }
      }
    }
  }

  // Zero bytes up to the next multiple of 4, which is the end.
  predicate Filled(buf: seq<Byte>, pos: nat, size: nat) {
    pos <= size <= |buf| && size == pos + (4 - pos % 4) % 4 && forall i :: pos <= i < size ==> buf[i] == 0
  }

  function ReadIndex(buf: seq<Byte>): Option<seq<Record>> {
    var size := |buf| - 4;
    if |buf| < 5 || buf[0] != 0 || CrcBytes(buf[..size]) != buf[size..] then None else
      match Read(buf[1..size])
      case None => None
      case Some((n, k)) =>
        if 2 * n > size then None else
          match ReadRecords(buf[1 + k..size], n)
          case None => None
          case Some((bs, m)) => if Filled(buf, 1 + k + m, size) then Some(bs) else None
  }

  lemma PaddedIs(s: seq<Byte>, t: seq<Byte>)
    ensures s <= t && |t| == |s| + (4 - |s| % 4) % 4 && (forall i :: |s| <= i < |t| ==> t[i] == 0) <==> t == Padded(s)
  {
    if s <= t && |t| == |s| + (4 - |s| % 4) % 4 && (forall i :: |s| <= i < |t| ==> t[i] == 0) {
      assert t == s + t[|s|..];
      assert t[|s|..] == Zeros((4 - |s| % 4) % 4);
    }
  }

  lemma ReadIndexGives(buf: seq<Byte>, bs: seq<Record>)
    requires ReadIndex(buf) == Some(bs)
    ensures AllInRange(bs) && buf == Index(bs)
  {
    hide Read, ReadRecords, CrcBytes, InRange, VarInt, Records, Padded;
    var size := |buf| - 4;
    var (n, k) := Read(buf[1..size]).value;
    var (cs, m) := ReadRecords(buf[1 + k..size], n).value;
    ReadExact(buf[1..size], n, k);
    ReadRecordsExact(buf[1 + k..size], n, bs, m);
    assert buf[1..size][k..] == buf[1 + k..size];
    Behind(buf[1..size], VarInt(n), Records(bs));
    var pos := 1 + k + m;
    assert buf[..size][0..1] == [0] && buf[..size][1..pos] == VarInt(n) + Records(bs);
    assert buf[..size][..pos] == Body(bs);
    PaddedIs(Body(bs), buf[..size]);
    assert buf == buf[..size] + buf[size..];
  }

  lemma {:induction false} RecordsLong(bs: seq<Record>)
    ensures |Records(bs)| >= 2 * |bs|
  {
    if bs != [] { RecordsLong(bs[1..]); }
  }

  lemma ReadIndexTakes(buf: seq<Byte>, bs: seq<Record>)
    requires AllInRange(bs) && buf == Index(bs)
    ensures ReadIndex(buf) == Some(bs)
  {
    hide Read, ReadRecords, CrcBytes, InRange, VarInt, Records, Padded;
    var size := |buf| - 4;
    var body := Body(bs);
    assert buf[..size] == Padded(body) && buf[size..] == CrcBytes(Padded(body));
    PaddedIs(body, buf[..size]);
    var k, m := |VarInt(|bs|)|, |Records(bs)|;
    assert body == [0] + (VarInt(|bs|) + Records(bs));
    assert buf[..size][0] == 0;
    assert buf[1..size][..k + m] == body[1..];
    Front(buf[1..size], VarInt(|bs|), Records(bs));
    Behind(buf[1..size], VarInt(|bs|), Records(bs));
    ReadExact(buf[1..size], |bs|, k);
    assert buf[1..size][k..] == buf[1 + k..size];
    RecordsLong(bs);
    ReadRecordsExact(buf[1 + k..size], |bs|, bs, m);
    forall i | 1 + k + m <= i < size
      ensures buf[i] == 0
    {
      assert buf[..size][i] == 0;
    }
  }

  // Main result: what is accepted as an index are exactly the bytes that are written for some sizes in range, and
  // those sizes are read.
  lemma ReadIndexExact(buf: seq<Byte>, bs: seq<Record>)
    ensures ReadIndex(buf) == Some(bs) <==> AllInRange(bs) && buf == Index(bs)
  {
    hide ReadIndex, Index, AllInRange;
    if ReadIndex(buf) == Some(bs) { ReadIndexGives(buf, bs); }
    if AllInRange(bs) && buf == Index(bs) { ReadIndexTakes(buf, bs); }
  }

  // Records read so far, of used bytes, before the rest.
  function After(bs: seq<Record>, used: nat, r: Option<(seq<Record>, nat)>): Option<(seq<Record>, nat)> {
    match r
    case None => None
    case Some((cs, m)) => Some((bs + cs, used + m))
  }

  lemma AfterStep(bs: seq<Record>, used: nat, s: seq<Byte>, n: nat)
    requires n > 0
    ensures After(bs, used, ReadRecords(s, n)) ==
            match ReadOne(s)
            case None => None
            case Some((r, k)) => After(bs + [r], used + k, ReadRecords(s[k..], n - 1))
  {
    if ReadOne(s).Some? {
      var (r, k) := ReadOne(s).value;
      if ReadRecords(s[k..], n - 1).Some? {
        var (cs, m) := ReadRecords(s[k..], n - 1).value;
        assert bs + ([r] + cs) == bs + [r] + cs;
      }
    }
  }

  lemma AfterEnd(bs: seq<Record>, used: nat, s: seq<Byte>)
    ensures After(bs, used, ReadRecords(s, 0)) == Some((bs, used))
  {
    assert bs + [] == bs;
  }

  method ReadBlock(s: seq<Byte>) returns (size: nat, r: Record)
    ensures if size == 0 then ReadOne(s) == None else ReadOne(s) == Some((r, size))
  {
    hide Read;
    r := Record(0, 0);
    var n, t := ReadVarInt(s);
    size := n;
    if size == 0 {
      return;
    }
    var m, u := ReadVarInt(s[n..]);
    r := Record(t, u);
    size := if m == 0 || t == 0 then 0 else n + m;
  }

  method ReadBlocks(s: seq<Byte>, numBlocks: nat) returns (ok: bool, blocks: seq<Record>, pos: nat)
    ensures ReadRecords(s, numBlocks) == if ok then Some((blocks, pos)) else None
  {
    hide ReadOne, ReadRecords, After;
    ok, blocks, pos := true, [], 0;
    var i: nat := 0;
    assert s[0..] == s;
    AfterStart(s, numBlocks);
    while i < numBlocks
      invariant i <= numBlocks && pos <= |s|
      invariant ReadRecords(s, numBlocks) == After(blocks, pos, ReadRecords(s[pos..], numBlocks - i))
    {
      AfterStep(blocks, pos, s[pos..], numBlocks - i);
      var size, r := ReadBlock(s[pos..]);
      if size == 0 {
        ok := false;
        return;
      }
      assert s[pos..][size..] == s[pos + size..];
      blocks, pos, i := blocks + [r], pos + size, i + 1;
    }
    AfterEnd(blocks, pos, s[pos..]);
  }

  lemma AfterStart(s: seq<Byte>, n: nat)
    ensures ReadRecords(s, n) == After([], 0, ReadRecords(s[0..], n))
  {
    assert s[0..] == s;
    if ReadRecords(s, n).Some? {
      var (cs, m) := ReadRecords(s, n).value;
      assert [] + cs == cs;
    }
  }

  method ReadIndex2(buf: seq<Byte>, table: array<bv32>) returns (ok: bool, blocks: seq<Record>)
    requires Crc.IsTable(table[..])
    ensures ok ==> AllInRange(blocks) && buf == Index(blocks)
    ensures !ok ==> forall bs :: AllInRange(bs) ==> buf != Index(bs)
  {
    hide Index, AllInRange, CrcBytes, ReadIndex, Read, ReadRecords;
    forall bs
      ensures ReadIndex(buf) == Some(bs) <==> AllInRange(bs) && buf == Index(bs)
    {
      ReadIndexExact(buf, bs);
    }
    ok, blocks := ReadIndexLoops(buf, table);
  }

  method ReadIndexLoops(buf: seq<Byte>, table: array<bv32>) returns (ok: bool, blocks: seq<Record>)
    requires Crc.IsTable(table[..])
    ensures ReadIndex(buf) == if ok then Some(blocks) else None
  {
    hide CrcBytes, Read, ReadRecords, Crc.IsTable, Crc.Crc32, Digest;
    ok, blocks := false, [];
    if |buf| < 5 || buf[0] != 0 {
      return;
    }
    var size: nat := |buf| - 4;
    var crc := Crc.CrcCalc(Bvs(buf[..size]), 0, table);
    DigestIs(buf[..size]);
    if Digest(crc) != buf[size..] {
      return;
    }
    var k, numBlocks := ReadVarInt(buf[1..size]);
    if k == 0 || 2 * numBlocks > size {
      return;
    }
    var start := 1 + k;
    var read, bs, used := ReadBlocks(buf[start..size], numBlocks);
    if !read {
      return;
    }
    var pos: nat := start + used;
    while pos % 4 != 0
      invariant start + used <= pos <= (start + used) + (4 - (start + used) % 4) % 4
      invariant forall i :: start + used <= i < pos ==> buf[i] == 0
      decreases (start + used) + (4 - (start + used) % 4) % 4 - pos
    {
      if buf[pos] != 0 {
        return;
      }
      pos := pos + 1;
    }
    if pos == size {
      ok, blocks := true, bs;
    }
  }

  lemma DigestIs(s: seq<Byte>)
    ensures CrcBytes(s) == Digest(Crc.Crc32(Bvs(s)))
  {}
}
