/** The header of a block of an .xz file (section 3.1 of the format): sizes if wanted, the filters, and a checksum. */
module XzBlockHeader {

  import Crc
  import opened RangeCoder
  import opened Words
  import opened XzIndex
  import opened XzVarInt

  const FILTER_PROPS_SIZE_MAX: nat := 20

  datatype Filter = Filter(id: nat, props: seq<Byte>)

  datatype Block = Block(flags: Byte, packSize: Option<nat>, unpackSize: Option<nat>, filters: seq<Filter>)

  predicate HasPackSize(flags: Byte) { flags / 64 % 2 == 1 }

  predicate HasUnpackSize(flags: Byte) { flags / 128 == 1 }

  function NumFilters(flags: Byte): nat { flags % 4 + 1 }

  predicate FilterOk(f: Filter) {
    f.id < LIMIT && |f.props| <= FILTER_PROPS_SIZE_MAX
  }

  predicate SizeOk(wanted: bool, size: Option<nat>) {
    if wanted then size.Some? && size.value < LIMIT else size.None?
  }

  predicate WellFormed(b: Block) {
    && SizeOk(HasPackSize(b.flags), b.packSize) && SizeOk(HasUnpackSize(b.flags), b.unpackSize)
    && |b.filters| == NumFilters(b.flags) && forall f :: f in b.filters ==> FilterOk(f)
  }

  // ----- The form ------------------------------------------------------------------------------

  function SizeBytes(size: Option<nat>): seq<Byte> {
    if size.None? then [] else VarInt(size.value)
  }

  function FilterBytes(f: Filter): seq<Byte> {
    VarInt(f.id) + (VarInt(|f.props|) + f.props)
  }

  function FiltersBytes(fs: seq<Filter>): seq<Byte> {
    if fs == [] then [] else FilterBytes(fs[0]) + FiltersBytes(fs[1..])
  }

  function Content(b: Block): seq<Byte> {
    [b.flags] + (SizeBytes(b.packSize) + (SizeBytes(b.unpackSize) + FiltersBytes(b.filters)))
  }

  // The first byte tells the size without the checksum, in words.
  predicate Sized(h: seq<Byte>) {
    h != [] && h[0] > 0 && |h| == HeaderSize(h) + 4
  }

  function HeaderSize(h: seq<Byte>): nat
    requires h != []
  {
    var words: nat := h[0];
    4 * words
  }

  predicate AllZero(s: seq<Byte>) {
    forall i :: 0 <= i < |s| ==> s[i] == 0
  }

  // Zeros fill what the content leaves.
  predicate IsHeader(h: seq<Byte>, b: Block)
    requires Sized(h)
  {
    var size := HeaderSize(h);
    && Content(b) <= h[1..size] && AllZero(h[1..size][|Content(b)|..])
    && CrcBytes(h[..size]) == h[size..]
  }

  // The limit on the packed size.
  predicate PackFits(b: Block, headerSize: nat) {
    b.packSize.Some? ==> b.packSize.value > 0 && b.packSize.value + headerSize < LIMIT
  }

  // ----- Reading -------------------------------------------------------------------------------

  function ReadSize(wanted: bool, s: seq<Byte>): (r: Option<(Option<nat>, nat)>)
    ensures r.Some? ==> r.value.1 <= |s|
  {
    if !wanted then Some((None, 0)) else
      match Read(s)
      case None => None
      case Some((v, n)) => Some((Some(v), n))
  }

  lemma ReadSizeExact(wanted: bool, s: seq<Byte>, size: Option<nat>, n: nat)
    ensures ReadSize(wanted, s) == Some((size, n)) <==>
            SizeOk(wanted, size) && SizeBytes(size) <= s && n == |SizeBytes(size)|
  {
    hide Read, VarInt;
    if size.Some? { ReadExact(s, size.value, n); }
  }

  function ReadFilter(s: seq<Byte>): (r: Option<(Filter, nat)>)
    ensures r.Some? ==> r.value.1 <= |s|
  {
    match Read(s)
    case None => None
    case Some((id, n)) =>
      match Read(s[n..])
      case None => None
      case Some((size, m)) =>
        if size > |s| - n - m || size > FILTER_PROPS_SIZE_MAX then None
        else Some((Filter(id, s[n + m..n + m + size]), n + m + size))
  }

  lemma ReadFilterGives(s: seq<Byte>, f: Filter, k: nat)
    requires ReadFilter(s) == Some((f, k))
    ensures FilterOk(f) && FilterBytes(f) <= s && k == |FilterBytes(f)|
  {
    hide Read, VarInt;
    var (id, n) := Read(s).value;
    var (size, m) := Read(s[n..]).value;
    ReadExact(s, id, n);
    ReadExact(s[n..], size, m);
    Behind(s, VarInt(id), VarInt(size) + f.props);
    Behind(s[n..], VarInt(size), f.props);
    assert s[n..][m..] == s[n + m..];
    assert s[n + m..][..size] == f.props;
  }

  lemma ReadFilterTakes(s: seq<Byte>, f: Filter)
    requires FilterOk(f) && FilterBytes(f) <= s
    ensures ReadFilter(s) == Some((f, |FilterBytes(f)|))
  {
    hide Read, VarInt;
    var n, m := |VarInt(f.id)|, |VarInt(|f.props|)|;
    Front(s, VarInt(f.id), VarInt(|f.props|) + f.props);
    Behind(s, VarInt(f.id), VarInt(|f.props|) + f.props);
    Front(s[n..], VarInt(|f.props|), f.props);
    Behind(s[n..], VarInt(|f.props|), f.props);
    ReadExact(s, f.id, n);
    ReadExact(s[n..], |f.props|, m);
    assert s[n..][m..] == s[n + m..] && f.props <= s[n + m..];
    assert s[n + m..n + m + |f.props|] == s[n + m..][..|f.props|] == f.props;
    assert |FilterBytes(f)| == n + m + |f.props|;
  }

  lemma ReadFilterExact(s: seq<Byte>, f: Filter, k: nat)
    ensures ReadFilter(s) == Some((f, k)) <==> FilterOk(f) && FilterBytes(f) <= s && k == |FilterBytes(f)|
  {
    hide ReadFilter, FilterOk, FilterBytes;
    if ReadFilter(s) == Some((f, k)) { ReadFilterGives(s, f, k); }
    if FilterOk(f) && FilterBytes(f) <= s { ReadFilterTakes(s, f); }
  }

  function ReadFilters(s: seq<Byte>, n: nat): (r: Option<(seq<Filter>, nat)>)
    ensures r.Some? ==> r.value.1 <= |s|
    decreases n
  {
    if n == 0 then Some(([], 0)) else
      match ReadFilter(s)
      case None => None
      case Some((f, k)) =>
        match ReadFilters(s[k..], n - 1)
        case None => None
        case Some((fs, m)) => Some(([f] + fs, k + m))
  }

  lemma {:induction false} ReadFiltersExact(s: seq<Byte>, n: nat, fs: seq<Filter>, k: nat)
    ensures ReadFilters(s, n) == Some((fs, k)) <==>
            |fs| == n && (forall f :: f in fs ==> FilterOk(f)) && FiltersBytes(fs) <= s && k == |FiltersBytes(fs)|
    decreases n
  {
    hide ReadFilter, FilterBytes, FilterOk;
    if n > 0 {
      if ReadFilter(s).Some? {
        var (f, m) := ReadFilter(s).value;
        ReadFilterExact(s, f, m);
        if ReadFilters(s[m..], n - 1).Some? {
          var (gs, j) := ReadFilters(s[m..], n - 1).value;
          ReadFiltersExact(s[m..], n - 1, gs, j);
          Behind(s, FilterBytes(f), FiltersBytes(gs));
          assert ([f] + gs)[1..] == gs;
        }
      }
      if |fs| == n {
        var m := |FilterBytes(fs[0])|;
        ReadFilterExact(s, fs[0], m);
        Front(s, FilterBytes(fs[0]), FiltersBytes(fs[1..]));
        if FilterBytes(fs[0]) <= s {
          Behind(s, FilterBytes(fs[0]), FiltersBytes(fs[1..]));
          ReadFiltersExact(s[m..], n - 1, fs[1..], |FiltersBytes(fs[1..])|);
          assert fs == [fs[0]] + fs[1..];
        }
      }
    }
  }

  // What is between the first byte and the checksum.
  function ReadContent(s: seq<Byte>, headerSize: nat): Option<Block> {
    if s == [] then None else
      var flags := s[0];
      match ReadSize(HasPackSize(flags), s[1..])
      case None => None
      case Some((packSize, n)) =>
        if packSize.Some? && (packSize.value == 0 || packSize.value + headerSize >= LIMIT) then None else
          match ReadSize(HasUnpackSize(flags), s[1 + n..])
          case None => None
          case Some((unpackSize, m)) =>
            match ReadFilters(s[1 + n + m..], NumFilters(flags))
            case None => None
            case Some((filters, k)) =>
              if AllZero(s[1 + n + m + k..]) then Some(Block(flags, packSize, unpackSize, filters)) else None
  }

  lemma ReadContentGives(s: seq<Byte>, headerSize: nat, b: Block)
    requires ReadContent(s, headerSize) == Some(b)
    ensures WellFormed(b) && PackFits(b, headerSize) && Content(b) <= s && AllZero(s[|Content(b)|..])
  {
    hide ReadSize, ReadFilters, SizeBytes, FiltersBytes, FilterOk, SizeOk, HasPackSize, HasUnpackSize, NumFilters;
    var (packSize, n) := ReadSize(HasPackSize(b.flags), s[1..]).value;
    var (unpackSize, m) := ReadSize(HasUnpackSize(b.flags), s[1 + n..]).value;
    var (filters, k) := ReadFilters(s[1 + n + m..], NumFilters(b.flags)).value;
    ReadSizeExact(HasPackSize(b.flags), s[1..], packSize, n);
    ReadSizeExact(HasUnpackSize(b.flags), s[1 + n..], unpackSize, m);
    ReadFiltersExact(s[1 + n + m..], NumFilters(b.flags), filters, k);
    var x, y, z := SizeBytes(packSize), SizeBytes(unpackSize), FiltersBytes(filters);
    assert s[1..][n..] == s[1 + n..] && s[1 + n..][m..] == s[1 + n + m..];
    Behind(s[1 + n..], y, z);
    Behind(s[1..], x, y + z);
    Behind(s, [b.flags], x + (y + z));
  }

  // Where the parts are.
  lemma Parts(s: seq<Byte>, a: Byte, x: seq<Byte>, y: seq<Byte>, z: seq<Byte>)
    requires [a] + (x + (y + z)) <= s
    ensures s != [] && s[0] == a && x <= s[1..] && y <= s[1 + |x|..] && z <= s[1 + |x| + |y|..]
    ensures s[1 + |x| + |y| + |z|..] == s[|[a] + (x + (y + z))|..]
  {
    Behind(s, [a], x + (y + z));
    Front(s, [a], x + (y + z));
    Front(s[1..], x, y + z);
    Behind(s[1..], x, y + z);
    assert s[1..][|x|..] == s[1 + |x|..];
    Front(s[1 + |x|..], y, z);
    Behind(s[1 + |x|..], y, z);
    assert s[1 + |x|..][|y|..] == s[1 + |x| + |y|..];
  }

  lemma PartsRead(s: seq<Byte>, b: Block)
    requires WellFormed(b) && Content(b) <= s
    ensures s != [] && s[0] == b.flags
    ensures var x, y, z := SizeBytes(b.packSize), SizeBytes(b.unpackSize), FiltersBytes(b.filters);
      && 1 + |x| + |y| + |z| == |Content(b)| <= |s|
      && ReadSize(HasPackSize(s[0]), s[1..]) == Some((b.packSize, |x|))
      && ReadSize(HasUnpackSize(s[0]), s[1 + |x|..]) == Some((b.unpackSize, |y|))
      && ReadFilters(s[1 + |x| + |y|..], NumFilters(s[0])) == Some((b.filters, |z|))
  {
    hide ReadSize, ReadFilters, SizeBytes, FiltersBytes, FilterOk, SizeOk, HasPackSize, HasUnpackSize, NumFilters;
    var x, y, z := SizeBytes(b.packSize), SizeBytes(b.unpackSize), FiltersBytes(b.filters);
    Parts(s, b.flags, x, y, z);
    ReadSizeExact(HasPackSize(b.flags), s[1..], b.packSize, |x|);
    ReadSizeExact(HasUnpackSize(b.flags), s[1 + |x|..], b.unpackSize, |y|);
    ReadFiltersExact(s[1 + |x| + |y|..], NumFilters(b.flags), b.filters, |z|);
  }

  lemma ReadContentTakes(s: seq<Byte>, headerSize: nat, b: Block)
    requires WellFormed(b) && PackFits(b, headerSize) && Content(b) <= s && AllZero(s[|Content(b)|..])
    ensures ReadContent(s, headerSize) == Some(b)
  {
    hide ReadSize, ReadFilters, SizeBytes, FiltersBytes, WellFormed, Content, HasPackSize, HasUnpackSize, NumFilters;
    PartsRead(s, b);
  }

  // The same bytes are those of one block only.
  lemma OneContent(s: seq<Byte>, b: Block, c: Block)
    requires WellFormed(b) && WellFormed(c) && Content(b) <= s && Content(c) <= s
    ensures b == c
  {
    hide ReadSize, ReadFilters, SizeBytes, FiltersBytes, WellFormed, Content, HasPackSize, HasUnpackSize, NumFilters;
    PartsRead(s, b);
    PartsRead(s, c);
  }

  function Parse(h: seq<Byte>): Option<Block>
    requires Sized(h)
  {
    var size := HeaderSize(h);
    if CrcBytes(h[..size]) != h[size..] then None else ReadContent(h[1..size], size)
  }

  // Main result: a block is read from a header exactly when the header is one of that block, its sizes are in
  // range, and its packed size leaves room for the header.
  lemma ParseExact(h: seq<Byte>, b: Block)
    requires Sized(h)
    ensures Parse(h) == Some(b) <==> WellFormed(b) && PackFits(b, HeaderSize(h)) && IsHeader(h, b)
  {
    hide ReadContent, Content, WellFormed, CrcBytes, PackFits;
    var size := HeaderSize(h);
    var s := h[1..size];
    if Parse(h) == Some(b) { ReadContentGives(s, size, b); }
    if WellFormed(b) && PackFits(b, size) && IsHeader(h, b) {
      ReadContentTakes(s, size, b);
    }
  }

  // ----- Writing -------------------------------------------------------------------------------

  lemma {:induction false} FiltersSnoc(fs: seq<Filter>, f: Filter)
    ensures FiltersBytes(fs + [f]) == FiltersBytes(fs) + FilterBytes(f)
    decreases |fs|
  {
    hide FilterBytes;
    if fs == [] {
      assert fs + [f] == [f] && [f][1..] == [];
    } else {
      assert (fs + [f])[1..] == fs[1..] + [f];
      FiltersSnoc(fs[1..], f);
    }
  }

  lemma {:induction false} FiltersShort(fs: seq<Filter>)
    requires forall f :: f in fs ==> FilterOk(f)
    ensures |FiltersBytes(fs)| <= (2 * MAX_SIZE + FILTER_PROPS_SIZE_MAX) * |fs|
  {
    hide FilterBytes, FilterOk;
    if fs != [] {
      FiltersShort(fs[1..]);
      assert FilterOk(fs[0]);
      FilterShort(fs[0]);
    }
  }

  lemma FilterShort(f: Filter)
    requires FilterOk(f)
    ensures |FilterBytes(f)| <= 2 * MAX_SIZE + FILTER_PROPS_SIZE_MAX
  {
    hide VarInt, Power;
    PowerLimit();
    VarIntShort(f.id, MAX_SIZE);
    VarIntShort(|f.props|, MAX_SIZE);
  }

  lemma ContentShort(b: Block)
    requires WellFormed(b)
    ensures 0 < |Content(b)| < 1000
  {
    hide VarInt;
    PowerLimit();
    FiltersShort(b.filters);
    if b.packSize.Some? { VarIntShort(b.packSize.value, MAX_SIZE); }
    if b.unpackSize.Some? { VarIntShort(b.unpackSize.value, MAX_SIZE); }
  }

  method WriteSize(size: Option<nat>) returns (s: seq<Byte>)
    ensures s == SizeBytes(size)
  {
    s := [];
    if size.Some? {
      s := WriteVarInt(size.value);
    }
  }

  method WriteFilters(fs: seq<Filter>) returns (s: seq<Byte>)
    ensures s == FiltersBytes(fs)
  {
    hide VarInt;
    s := [];
    var i: nat := 0;
    while i < |fs|
      invariant i <= |fs| && s == FiltersBytes(fs[..i])
    {
      var id := WriteVarInt(fs[i].id);
      var size := WriteVarInt(|fs[i].props|);
      FiltersSnoc(fs[..i], fs[i]);
      assert fs[..i + 1] == fs[..i] + [fs[i]];
      s := s + (id + (size + fs[i].props));
      i := i + 1;
    }
    assert fs[..i] == fs;
  }

  method WriteHeader(b: Block, table: array<bv32>) returns (h: seq<Byte>)
    requires WellFormed(b) && Crc.IsTable(table[..])
    ensures Sized(h) && IsHeader(h, b) && |h| < |Content(b)| + 9
  {
    hide SizeBytes, FiltersBytes, CrcBytes, Crc.IsTable, Crc.Crc32, Digest, FilterOk, SizeOk;
    ContentShort(b);
    var pack := WriteSize(b.packSize);
    var unpack := WriteSize(b.unpackSize);
    var filters := WriteFilters(b.filters);
    var content := [b.flags] + (pack + (unpack + filters));
    var zeros := Zeros((4 - (1 + |content|) % 4) % 4);
    var pos := 1 + |content| + |zeros|;
    var header: seq<Byte> := [pos / 4] + (content + zeros);
    var crc := Crc.CrcCalc(Bvs(header), 0, table);
    DigestIs(header);
    h := header + Digest(crc);
    assert h[..pos] == header && h[1..pos] == content + zeros;
    assert h[pos..] == Digest(crc);
  }

  // ----- Reading, with loops -------------------------------------------------------------------

  method ReadSizeField(wanted: bool, s: seq<Byte>) returns (ok: bool, size: Option<nat>, n: nat)
    ensures ReadSize(wanted, s) == if ok then Some((size, n)) else None
  {
    hide Read;
    ok, size, n := true, None, 0;
    if wanted {
      var v;
      n, v := ReadVarInt(s);
      ok, size := n != 0, Some(v);
    }
  }

  function Joined(fs: seq<Filter>, used: nat, r: Option<(seq<Filter>, nat)>): Option<(seq<Filter>, nat)> {
    match r
    case None => None
    case Some((gs, m)) => Some((fs + gs, used + m))
  }

  lemma JoinedStep(fs: seq<Filter>, used: nat, s: seq<Byte>, n: nat)
    requires n > 0
    ensures Joined(fs, used, ReadFilters(s, n)) ==
            match ReadFilter(s)
            case None => None
            case Some((f, k)) => Joined(fs + [f], used + k, ReadFilters(s[k..], n - 1))
  {
    hide ReadFilter;
    if ReadFilter(s).Some? {
      var (f, k) := ReadFilter(s).value;
      if ReadFilters(s[k..], n - 1).Some? {
        var (gs, m) := ReadFilters(s[k..], n - 1).value;
        assert fs + ([f] + gs) == fs + [f] + gs;
      }
    }
  }

  lemma JoinedEnds(fs: seq<Filter>, used: nat, s: seq<Byte>)
    ensures Joined(fs, used, ReadFilters(s, 0)) == Some((fs, used))
  {
    assert fs + [] == fs;
  }

  lemma JoinedStart(s: seq<Byte>, n: nat)
    ensures ReadFilters(s, n) == Joined([], 0, ReadFilters(s[0..], n))
  {
    assert s[0..] == s;
    if ReadFilters(s, n).Some? {
      var (gs, m) := ReadFilters(s, n).value;
      assert [] + gs == gs;
    }
  }

  method ReadFilterField(s: seq<Byte>) returns (ok: bool, f: Filter, k: nat)
    ensures ReadFilter(s) == if ok then Some((f, k)) else None
  {
    hide Read;
    ok, f, k := false, Filter(0, []), 0;
    var n, id := ReadVarInt(s);
    if n == 0 {
      return;
    }
    var m, size := ReadVarInt(s[n..]);
    if m == 0 || size > |s| - n - m || size > FILTER_PROPS_SIZE_MAX {
      return;
    }
    ok, f, k := true, Filter(id, s[n + m..n + m + size]), n + m + size;
  }

  method ReadFilterFields(s: seq<Byte>, numFilters: nat) returns (ok: bool, filters: seq<Filter>, pos: nat)
    ensures ReadFilters(s, numFilters) == if ok then Some((filters, pos)) else None
  {
    hide ReadFilter, ReadFilters, Joined;
    ok, filters, pos := true, [], 0;
    var i: nat := 0;
    JoinedStart(s, numFilters);
    while i < numFilters
      invariant i <= numFilters && pos <= |s|
      invariant ReadFilters(s, numFilters) == Joined(filters, pos, ReadFilters(s[pos..], numFilters - i))
    {
      JoinedStep(filters, pos, s[pos..], numFilters - i);
      var got, f, k := ReadFilterField(s[pos..]);
      if !got {
        ok := false;
        return;
      }
      assert s[pos..][k..] == s[pos + k..];
      filters, pos, i := filters + [f], pos + k, i + 1;
    }
    JoinedEnds(filters, pos, s[pos..]);
  }

  method ReadContentFields(s: seq<Byte>, headerSize: nat) returns (b: Option<Block>)
    ensures b == ReadContent(s, headerSize)
  {
    hide ReadSize, ReadFilters, HasPackSize, HasUnpackSize, NumFilters;
    b := None;
    if s == [] {
      return;
    }
    var flags := s[0];
    var ok1, packSize, n := ReadSizeField(HasPackSize(flags), s[1..]);
    if !ok1 || (packSize.Some? && (packSize.value == 0 || packSize.value + headerSize >= LIMIT)) {
      return;
    }
    var ok2, unpackSize, m := ReadSizeField(HasUnpackSize(flags), s[1 + n..]);
    if !ok2 {
      return;
    }
    var ok3, filters, k := ReadFilterFields(s[1 + n + m..], NumFilters(flags));
    if !ok3 {
      return;
    }
    var rest := s[1 + n + m + k..];
    var pos: nat := 0;
    while pos < |rest|
      invariant pos <= |rest| && forall i :: 0 <= i < pos ==> rest[i] == 0
    {
      if rest[pos] != 0 {
        return;
      }
      pos := pos + 1;
    }
    b := Some(Block(flags, packSize, unpackSize, filters));
  }

  // A first byte of 0 would be an index, so the caller has made sure that it is not.
  method ParseBlock(h: seq<Byte>, table: array<bv32>) returns (b: Option<Block>)
    requires Sized(h) && Crc.IsTable(table[..])
    ensures b == Parse(h)
  {
    hide ReadContent, CrcBytes, Crc.IsTable, Crc.Crc32, Digest;
    var size := HeaderSize(h);
    var crc := Crc.CrcCalc(Bvs(h[..size]), 0, table);
    DigestIs(h[..size]);
    if Digest(crc) != h[size..] {
      return None;
    }
    b := ReadContentFields(h[1..size], size);
  }

  // Main result: what is written for a block is read as that block, exactly when its packed size is in range.
  method WriteThenParse(b: Block, table: array<bv32>) returns (h: seq<Byte>, back: Option<Block>)
    requires WellFormed(b) && Crc.IsTable(table[..])
    ensures Sized(h) && (back == Some(b) <==> PackFits(b, HeaderSize(h)))
    ensures back.Some? ==> back == Some(b)
  {
    hide Parse, IsHeader, WellFormed, PackFits, Crc.IsTable;
    h := WriteHeader(b, table);
    back := ParseBlock(h, table);
    ParseExact(h, b);
    if back.Some? {
      ParseExact(h, back.value);
      OneBlock(h, b, back.value);
    }
  }

  // A header is that of one block only.
  lemma OneBlock(h: seq<Byte>, b: Block, c: Block)
    requires Sized(h) && WellFormed(b) && WellFormed(c) && IsHeader(h, b) && IsHeader(h, c)
    ensures b == c
  {
    hide WellFormed, Content;
    OneContent(h[1..HeaderSize(h)], b, c);
  }
}
