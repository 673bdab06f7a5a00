/** The chunks of LZMA2: what the encoder puts before each, and what the decoder makes of it. */
module Lzma2Chunks {

  import opened RangeCoder
  import opened Words

  const COPY_CHUNK_SIZE: nat := 0x1_0000
  const PACK_SIZE_MAX: nat := 0x1_0000
  const UNPACK_SIZE_MAX: nat := 0x20_0000

  const LCLP_MAX: nat := 4

  // A chunk of plain data, or one of LZMA data. Mode 1 resets the state, mode 2 brings new properties as well,
  // mode 3 resets the dictionary as well.
  datatype Chunk =
    | Copy(reset: bool, data: seq<Byte>)
    | Lzma(mode: nat, props: Option<Byte>, unpackSize: nat, packed: seq<Byte>)

  function Join(c: Chunk, r: Option<seq<Chunk>>): Option<seq<Chunk>> {
    match r
    case None => None
    case Some(cs) => Some([c] + cs)
  }

  // ----- The decoder ---------------------------------------------------------------------------

  datatype Phase = Control | Unpack0 | Unpack1 | Pack0 | Pack1 | Prop | Data | Finished | Error

  datatype ChunkDec = ChunkDec(state: Phase, control: Byte, unpackSize: nat, packSize: nat, prop: Byte,
                     needInitDic: bool, needInitState: bool, needInitProp: bool)

  const DEC_INIT := ChunkDec(Control, 0, 0, 0, 0, true, true, true)

  predicate IsCopy(control: Byte) { control < 128 }

  function Mode(control: Byte): nat { control / 32 % 4 }

  predicate ValidProp(b: Byte) {
    b < 9 * 5 * 5 && b % 9 + b / 9 % 5 <= LCLP_MAX
  }

  // One byte of a header.
  function NextState(d: ChunkDec, b: Byte): ChunkDec {
    match d.state
    case Control =>
      if b == 0 then d.(control := b, state := Finished)
      else if IsCopy(b) then
        if b > 2 then d.(control := b, state := Error) else d.(control := b, unpackSize := 0, state := Unpack0)
      else d.(control := b, unpackSize := b % 32 * 0x1_0000, state := Unpack0)
    case Unpack0 => d.(unpackSize := d.unpackSize + b * 0x100, state := Unpack1)
    case Unpack1 => d.(unpackSize := d.unpackSize + b + 1, state := if IsCopy(d.control) then Data else Pack0)
    case Pack0 => d.(packSize := b * 0x100, state := Pack1)
    case Pack1 =>
      d.(packSize := d.packSize + b + 1,
         state := if Mode(d.control) >= 2 then Prop else if d.needInitProp then Error else Data)
    case Prop => if ValidProp(b) then d.(prop := b, needInitProp := false, state := Data) else d.(state := Error)
    case _ => d.(state := Error)
  }

  // The checks at the beginning of the data.
  function Begun(d: ChunkDec): ChunkDec {
    if IsCopy(d.control) then
      if d.control == 1 then d.(needInitProp := true, needInitState := true, needInitDic := false)
      else if d.needInitDic then d.(state := Error)
      else d
    else
      var mode := Mode(d.control);
      if (mode != 3 && d.needInitDic) || (mode == 0 && d.needInitState) then d.(state := Error)
      else d.(needInitDic := false, needInitState := false)
  }

  function DataSize(d: ChunkDec): nat {
    if IsCopy(d.control) then d.unpackSize else d.packSize
  }

  function ChunkOf(d: ChunkDec, data: seq<Byte>): Chunk {
    if IsCopy(d.control) then Copy(d.control == 1, data)
    else Lzma(Mode(d.control), if Mode(d.control) >= 2 then Some(d.prop) else None, d.unpackSize, data)
  }

  // The chunks up to the end mark, if nothing is refused.
  function Decode(d: ChunkDec, s: seq<Byte>): Option<seq<Chunk>>
    decreases |s|
  {
    match d.state
    case Finished => if s == [] then Some([]) else None
    case Error => None
    case Data =>
      var e, n := Begun(d), DataSize(d);
      if e.state == Error || n == 0 || n > |s| then None
      else Join(ChunkOf(d, s[..n]), Decode(e.(state := Control), s[n..]))
    case _ => if s == [] then None else Decode(NextState(d, s[0]), s[1..])
  }

  // ----- The encoder ---------------------------------------------------------------------------

  datatype ChunkEnc = ChunkEnc(srcPos: nat, props: Byte, needInitState: bool, needInitProp: bool)

  // What the LZMA encoder made of the next part of the data. ok: it found room for it.
  datatype Coded = Coded(ok: bool, packed: seq<Byte>, data: seq<Byte>)

  predicate ValidCoded(c: Coded) {
    1 <= |c.data| <= UNPACK_SIZE_MAX && 1 <= |c.packed|
  }

  predicate UseCopyBlock(c: Coded) {
    c.ok ==> |c.packed| + 2 >= |c.data| || |c.packed| > PACK_SIZE_MAX
  }

  function InitEnc(props: Byte): ChunkEnc {
    ChunkEnc(0, props, true, true)
  }

  function CopyHeader(reset: bool, u: nat): seq<Byte>
    requires 1 <= u <= COPY_CHUNK_SIZE
  {
    [if reset then 1 else 2, (u - 1) / 0x100, (u - 1) % 0x100]
  }

  // Plain data in chunks of up to 2^16 bytes.
  function CopyChunks(srcPos: nat, data: seq<Byte>): seq<Chunk>
    decreases |data|
  {
    if data == [] then [] else
      var u := if |data| < COPY_CHUNK_SIZE then |data| else COPY_CHUNK_SIZE;
      [Copy(srcPos == 0, data[..u])] + CopyChunks(srcPos + u, data[u..])
  }

  function LzmaMode(e: ChunkEnc): nat {
    if e.srcPos == 0 then 3 else if e.needInitState then (if e.needInitProp then 2 else 1) else 0
  }

  function Chunks(e: ChunkEnc, c: Coded): seq<Chunk> {
    if UseCopyBlock(c) then CopyChunks(e.srcPos, c.data)
    else [Lzma(LzmaMode(e), if e.needInitProp then Some(e.props) else None, |c.data|, c.packed)]
  }

  function NextEnc(e: ChunkEnc, c: Coded): ChunkEnc {
    if UseCopyBlock(c) then e.(srcPos := e.srcPos + |c.data|)
    else ChunkEnc(e.srcPos + |c.data|, e.props, false, false)
  }

  // The bytes of a chunk.
  predicate Fits(c: Chunk) {
    match c
    case Copy(_, data) => 1 <= |data| <= COPY_CHUNK_SIZE
    case Lzma(mode, props, unpackSize, packed) =>
      mode < 4 && 1 <= unpackSize <= UNPACK_SIZE_MAX && 1 <= |packed| <= PACK_SIZE_MAX
  }

  function Bytes(c: Chunk): seq<Byte>
    requires Fits(c)
  {
    match c
    case Copy(reset, data) => CopyHeader(reset, |data|) + data
    case Lzma(mode, props, unpackSize, packed) =>
      var u, pm := unpackSize - 1, |packed| - 1;
      [0x80 + mode * 32 + u / 0x1_0000, u / 0x100 % 0x100, u % 0x100, pm / 0x100, pm % 0x100] +
      (if props.Some? then [props.value] else []) + packed
  }

  function AllBytes(cs: seq<Chunk>): seq<Byte>
    requires forall c :: c in cs ==> Fits(c)
  {
    if cs == [] then [] else Bytes(cs[0]) + AllBytes(cs[1..])
  }

  // ----- One chunk is read back ----------------------------------------------------------------

  // The decoder does not wait for anything that the encoder does not bring.
  predicate Agree(e: ChunkEnc, d: ChunkDec) {
    && d.state == Control && (d.needInitDic ==> e.srcPos == 0) && (d.needInitState ==> e.needInitState)
    && (d.needInitProp ==> e.needInitProp) && (e.needInitProp ==> e.needInitState)
    && (e.srcPos == 0 ==> e.needInitProp)
  }

  lemma CopyRead(e: ChunkEnc, d: ChunkDec, data: seq<Byte>, rest: seq<Byte>) returns (d': ChunkDec)
    requires Agree(e, d) && 1 <= |data| <= COPY_CHUNK_SIZE
    ensures Agree(e.(srcPos := e.srcPos + |data|), d')
    ensures var c := Copy(e.srcPos == 0, data);
      Decode(d, Bytes(c) + rest) == Join(c, Decode(d', rest))
  {
    hide Decode, Join;
    var c := Copy(e.srcPos == 0, data);
    var s := Bytes(c) + rest;
    var d1 := NextState(d, s[0]);
    var d2 := NextState(d1, s[1]);
    var d3 := NextState(d2, s[2]);
    assert s[1..][1..] == s[2..] && s[2..][1..] == s[3..];
    DecodeByte(d, s);
    DecodeByte(d1, s[1..]);
    DecodeByte(d2, s[2..]);
    DecodeData(d3, s[3..]);
    assert s[3..] == data + rest && (data + rest)[..|data|] == data && (data + rest)[|data|..] == rest;
    d' := Begun(d3).(state := Control);
  }

  lemma LzmaHeaderRead(d: ChunkDec, c: Chunk, rest: seq<Byte>) returns (d3: ChunkDec)
    requires d.state == Control && c.Lzma? && Fits(c)
    ensures d3 == ChunkDec(Pack0, 0x80 + c.mode * 32 + (c.unpackSize - 1) / 0x1_0000, c.unpackSize, d.packSize, d.prop,
                           d.needInitDic, d.needInitState, d.needInitProp)
    ensures Mode(d3.control) == c.mode && !IsCopy(d3.control)
    ensures |Bytes(c)| >= 5 && Decode(d, Bytes(c) + rest) == Decode(d3, (Bytes(c) + rest)[3..])
  {
    var s := Bytes(c) + rest;
    var d1 := NextState(d, s[0]);
    var d2 := NextState(d1, s[1]);
    d3 := NextState(d2, s[2]);
    assert s[1..][1..] == s[2..] && s[2..][1..] == s[3..];
    assert Decode(d, s) == Decode(d1, s[1..]) == Decode(d2, s[2..]) == Decode(d3, s[3..]);
    ControlParts(c.mode, (c.unpackSize - 1) / 0x1_0000);
    SizeParts(c.unpackSize - 1);
  }

  lemma ControlParts(mode: nat, high: nat)
    requires mode < 4 && high < 32
    ensures var b := 0x80 + mode * 32 + high; 0x80 <= b < 0x100 && b % 32 == high && b / 32 % 4 == mode
  {}

  lemma SizeParts(u: nat)
    requires u < UNPACK_SIZE_MAX
    ensures u / 0x1_0000 < 32 && u / 0x1_0000 * 0x1_0000 + u / 0x100 % 0x100 * 0x100 + u % 0x100 == u
  {
    assert u / 0x100 / 0x100 == u / 0x1_0000;
  }

  lemma LzmaSizeRead(d: ChunkDec, c: Chunk, rest: seq<Byte>) returns (d5: ChunkDec)
    requires c.Lzma? && Fits(c) && d.state == Pack0
    ensures d5 == d.(packSize := |c.packed|,
                     state := if Mode(d.control) >= 2 then Prop else if d.needInitProp then Error else Data)
    ensures |Bytes(c)| >= 5 && Decode(d, (Bytes(c) + rest)[3..]) == Decode(d5, (Bytes(c) + rest)[5..])
  {
    var s := Bytes(c) + rest;
    var d4 := NextState(d, s[3]);
    d5 := NextState(d4, s[4]);
    assert s[3..][0] == s[3] && s[3..][1..] == s[4..] && s[4..][0] == s[4] && s[4..][1..] == s[5..];
    assert Decode(d, s[3..]) == Decode(d4, s[4..]) == Decode(d5, s[5..]);
  }

  lemma LzmaDataRead(d: ChunkDec, c: Chunk, rest: seq<Byte>)
    requires c.Lzma? && Fits(c) && d.state == Data && !IsCopy(d.control) && d.packSize == |c.packed|
    requires Begun(d).state != Error
    ensures Decode(d, c.packed + rest) ==
            Join(ChunkOf(d, c.packed), Decode(Begun(d).(state := Control), rest))
  {
    assert (c.packed + rest)[..|c.packed|] == c.packed && (c.packed + rest)[|c.packed|..] == rest;
  }

  // What follows the sizes: the properties if there are new ones, and the data.
  lemma PropRead(d: ChunkDec, k: Chunk, rest: seq<Byte>)
    requires k.Lzma? && Fits(k) && d.state == Prop && k.props.Some? && ValidProp(k.props.value)
    ensures |Bytes(k)| >= 5
    ensures Decode(d, (Bytes(k) + rest)[5..]) ==
            Decode(d.(prop := k.props.value, needInitProp := false, state := Data), k.packed + rest)
  {
    var s := (Bytes(k) + rest)[5..];
    assert s[0] == k.props.value && s[1..] == k.packed + rest;
    assert Decode(d, s) == Decode(NextState(d, s[0]), s[1..]);
  }

  lemma LzmaRestRead(d: ChunkDec, k: Chunk, rest: seq<Byte>) returns (d': ChunkDec)
    requires k.Lzma? && Fits(k) && !IsCopy(d.control) && Mode(d.control) == k.mode && d.packSize == |k.packed|
    requires d.unpackSize == k.unpackSize && (k.props.Some? <==> k.mode >= 2)
    requires k.props.Some? ==> ValidProp(k.props.value)
    requires d.state == if k.mode >= 2 then Prop else Data
    requires (d.needInitDic ==> k.mode == 3) && (d.needInitState ==> k.mode > 0)
    ensures d'.state == Control && !d'.needInitDic && !d'.needInitState
    ensures d'.needInitProp == (d.needInitProp && k.props.None?)
    ensures |Bytes(k)| >= 5 && Decode(d, (Bytes(k) + rest)[5..]) == Join(k, Decode(d', rest))
  {
    hide Decode, ValidProp, Mode, IsCopy;
    var d6 := d;
    if k.props.Some? {
      PropRead(d, k, rest);
      d6 := d.(prop := k.props.value, needInitProp := false, state := Data);
    } else {
      assert (Bytes(k) + rest)[5..] == k.packed + rest;
    }
    LzmaDataRead(d6, k, rest);
    d' := Begun(d6).(state := Control);
  }

  lemma LzmaRead(e: ChunkEnc, d: ChunkDec, c: Coded, rest: seq<Byte>) returns (d': ChunkDec)
    requires Agree(e, d) && ValidCoded(c) && !UseCopyBlock(c) && ValidProp(e.props)
    ensures Agree(NextEnc(e, c), d') && Fits(Chunks(e, c)[0])
    ensures Decode(d, Bytes(Chunks(e, c)[0]) + rest) == Join(Chunks(e, c)[0], Decode(d', rest))
  {
    hide Decode, Bytes, ValidProp, IsCopy, Mode;
    var k := Chunks(e, c)[0];
    var d3 := LzmaHeaderRead(d, k, rest);
    var d5 := LzmaSizeRead(d3, k, rest);
    d' := LzmaRestRead(d5, k, rest);
  }

  // ----- All of them are -----------------------------------------------------------------------

  lemma {:induction false} CopyChunksFit(srcPos: nat, data: seq<Byte>)
    ensures forall c :: c in CopyChunks(srcPos, data) ==> Fits(c)
    decreases |data|
  {
    if data != [] {
      var u := if |data| < COPY_CHUNK_SIZE then |data| else COPY_CHUNK_SIZE;
      CopyChunksFit(srcPos + u, data[u..]);
    }
  }

  lemma ChunksFit(e: ChunkEnc, c: Coded)
    requires ValidCoded(c)
    ensures forall k :: k in Chunks(e, c) ==> Fits(k)
  {
    CopyChunksFit(e.srcPos, c.data);
  }

  // Several chunks before what is decoded behind them.
  function JoinAll(cs: seq<Chunk>, r: Option<seq<Chunk>>): Option<seq<Chunk>> {
    match r
    case None => None
    case Some(ds) => Some(cs + ds)
  }

  lemma JoinAllFirst(c: Chunk, cs: seq<Chunk>, r: Option<seq<Chunk>>)
    ensures JoinAll([c] + cs, r) == Join(c, JoinAll(cs, r))
  {
    if r.Some? { assert [c] + cs + r.value == [c] + (cs + r.value); }
  }

  lemma {:induction false} CopyChunksRead(e: ChunkEnc, d: ChunkDec, data: seq<Byte>, rest: seq<Byte>)
      returns (d': ChunkDec)
    requires Agree(e, d)
    ensures Agree(e.(srcPos := e.srcPos + |data|), d') && forall c :: c in CopyChunks(e.srcPos, data) ==> Fits(c)
    ensures Decode(d, AllBytes(CopyChunks(e.srcPos, data)) + rest) ==
            JoinAll(CopyChunks(e.srcPos, data), Decode(d', rest))
    decreases |data|
  {
    hide Decode, Bytes;
    CopyChunksFit(e.srcPos, data);
    var cs := CopyChunks(e.srcPos, data);
    if data == [] {
      d' := d;
      assert AllBytes(cs) + rest == rest;
      JoinNothing(Decode(d, rest));
    } else {
      var u := if |data| < COPY_CHUNK_SIZE then |data| else COPY_CHUNK_SIZE;
      var c, more := cs[0], cs[1..];
      assert more == CopyChunks(e.srcPos + u, data[u..]);
      assert AllBytes(cs) + rest == Bytes(c) + (AllBytes(more) + rest);
      var d1 := CopyRead(e, d, data[..u], AllBytes(more) + rest);
      d' := CopyChunksRead(e.(srcPos := e.srcPos + u), d1, data[u..], rest);
      JoinAllFirst(c, more, Decode(d', rest));
      assert cs == [c] + more;
    }
  }

  lemma JoinNothing(r: Option<seq<Chunk>>)
    ensures JoinAll([], r) == r
  {
    if r.Some? { assert [] + r.value == r.value; }
  }

  lemma PartRead(e: ChunkEnc, d: ChunkDec, c: Coded, rest: seq<Byte>) returns (d': ChunkDec)
    requires Agree(e, d) && ValidCoded(c) && ValidProp(e.props)
    ensures Agree(NextEnc(e, c), d') && forall k :: k in Chunks(e, c) ==> Fits(k)
    ensures Decode(d, AllBytes(Chunks(e, c)) + rest) == JoinAll(Chunks(e, c), Decode(d', rest))
  {
    hide Decode, Bytes, Agree;
    ChunksFit(e, c);
    if UseCopyBlock(c) {
      d' := CopyChunksRead(e, d, c.data, rest);
    } else {
      var k := Chunks(e, c)[0];
      d' := LzmaRead(e, d, c, rest);
      assert Chunks(e, c)[1..] == [] && AllBytes([]) == [];
      assert AllBytes(Chunks(e, c)) == Bytes(k) + [];
      assert Bytes(k) + [] + rest == Bytes(k) + rest;
      JoinAllFirst(k, [], Decode(d', rest));
      JoinNothing(Decode(d', rest));
      assert [k] + [] == [k];
    }
  }

  // A block begins anew, with its own properties; a part is the next stretch of its data.
  datatype Item = Block(props: Byte) | Part(coded: Coded)

  predicate ValidItem(i: Item) {
    match i
    case Block(props) => ValidProp(props)
    case Part(c) => ValidCoded(c)
  }

  function Encode(e: ChunkEnc, items: seq<Item>): seq<Chunk>
    decreases |items|
  {
    if items == [] then [] else
      match items[0]
      case Block(props) => Encode(InitEnc(props), items[1..])
      case Part(c) => Chunks(e, c) + Encode(NextEnc(e, c), items[1..])
  }

  lemma {:induction false} EncodeFits(e: ChunkEnc, items: seq<Item>)
    requires forall i :: i in items ==> ValidItem(i)
    ensures forall c :: c in Encode(e, items) ==> Fits(c)
    decreases |items|
  {
    if items != [] {
      match items[0]
      case Block(props) => EncodeFits(InitEnc(props), items[1..]);
      case Part(c) =>
        assert ValidItem(items[0]);
        ChunksFit(e, c);
        EncodeFits(NextEnc(e, c), items[1..]);
    }
  }

  lemma {:induction false} AllBytesConcat(a: seq<Chunk>, b: seq<Chunk>)
    requires forall c :: c in a ==> Fits(c)
    requires forall c :: c in b ==> Fits(c)
    ensures AllBytes(a + b) == AllBytes(a) + AllBytes(b)
    decreases |a|
  {
    hide Bytes;
    if a == [] {
      assert a + b == b;
    } else {
      assert (a + b)[1..] == a[1..] + b;
      AllBytesConcat(a[1..], b);
    }
  }

  lemma AgreeStays(e: ChunkEnc, d: ChunkDec)
    requires Agree(e, d)
    ensures d.state == Control
  {}

  lemma AgreeAnew(props: Byte, d: ChunkDec)
    requires d.state == Control
    ensures Agree(InitEnc(props), d)
  {}

  lemma PropsStay(e: ChunkEnc, c: Coded)
    ensures NextEnc(e, c).props == e.props
  {}

  lemma EndRead(d: ChunkDec)
    requires d.state == Control
    ensures Decode(d, [0]) == Some([])
  {
    assert Decode(d, [0]) == Decode(NextState(d, 0), []);
  }

  lemma {:induction false} ItemsRead(e: ChunkEnc, d: ChunkDec, items: seq<Item>)
    requires Agree(e, d) && ValidProp(e.props) && forall i :: i in items ==> ValidItem(i)
    ensures forall c :: c in Encode(e, items) ==> Fits(c)
    ensures Decode(d, AllBytes(Encode(e, items)) + [0]) == Some(Encode(e, items))
    decreases |items|
  {
    hide Bytes, Fits, Decode, Agree, Chunks, NextEnc, ValidProp, ValidCoded;
    EncodeFits(e, items);
    AgreeStays(e, d);
    if items == [] {
      assert [] + [0] == [0];
      EndRead(d);
    } else {
      assert ValidItem(items[0]);
      match items[0]
      case Block(props) =>
        AgreeAnew(props, d);
        ItemsRead(InitEnc(props), d, items[1..]);
      case Part(c) =>
        PropsStay(e, c);
        var more := Encode(NextEnc(e, c), items[1..]);
        EncodeFits(NextEnc(e, c), items[1..]);
        var d1 := PartRead(e, d, c, AllBytes(more) + [0]);
        ItemsRead(NextEnc(e, c), d1, items[1..]);
        AllBytesConcat(Chunks(e, c), more);
        assert AllBytes(Chunks(e, c)) + AllBytes(more) + [0] == AllBytes(Chunks(e, c)) + (AllBytes(more) + [0]);
    }
  }

  // Main result: for every sequence of blocks and parts, coded or copied, the decoder reads from the bytes
  // written, with the end mark behind them, exactly the chunks that were written, and refuses none.
  lemma StreamRead(props: Byte, items: seq<Item>)
    requires ValidProp(props) && forall i :: i in items ==> ValidItem(i)
    ensures forall c :: c in Encode(InitEnc(props), items) ==> Fits(c)
    ensures Decode(DEC_INIT, AllBytes(Encode(InitEnc(props), items)) + [0]) == Some(Encode(InitEnc(props), items))
  {
    ItemsRead(InitEnc(props), DEC_INIT, items);
  }

  // And copied data are the data.
  function DataOf(cs: seq<Chunk>): seq<Byte> {
    if cs == [] then [] else (if cs[0].Copy? then cs[0].data else []) + DataOf(cs[1..])
  }

  lemma {:induction false} CopiedData(srcPos: nat, data: seq<Byte>)
    ensures DataOf(CopyChunks(srcPos, data)) == data
    decreases |data|
  {
    if data != [] {
      var u := if |data| < COPY_CHUNK_SIZE then |data| else COPY_CHUNK_SIZE;
      CopiedData(srcPos + u, data[u..]);
      FirstData(Copy(srcPos == 0, data[..u]), CopyChunks(srcPos + u, data[u..]));
    }
  }

  lemma FirstData(c: Chunk, cs: seq<Chunk>)
    requires c.Copy?
    ensures DataOf([c] + cs) == c.data + DataOf(cs)
  {
    assert ([c] + cs)[1..] == cs;
  }

  // ----- The objects ---------------------------------------------------------------------------

  class Lzma2EncInt {
    var srcPos: nat
    var props: Byte
    var needInitState: bool
    var needInitProp: bool

    ghost function S(): ChunkEnc
      reads this
    {
      ChunkEnc(srcPos, props, needInitState, needInitProp)
    }

    constructor (props: Byte)
      ensures S() == InitEnc(props)
    {
      this.props := props;
      srcPos, needInitState, needInitProp := 0, true, true;
    }

    // The next part of the data. LZMA2_CHUNK_SIZE_COMPRESSED_MAX bytes are enough for any chunk.
    method EncodeSubblock(c: Coded) returns (out: seq<Byte>)
      requires ValidCoded(c)
      modifies this
      ensures S() == NextEnc(old(S()), c)
      ensures forall k :: k in Chunks(old(S()), c) ==> Fits(k)
      ensures out == AllBytes(Chunks(old(S()), c))
    {
      hide Bytes;
      ChunksFit(S(), c);
      if UseCopyBlock(c) {
        out := CopyBlock(c.data);
        return;
      }
      var u, pm := |c.data| - 1, |c.packed| - 1;
      var mode := if srcPos == 0 then 3 else if needInitState then (if needInitProp then 2 else 1) else 0;
      ghost var k := Chunks(S(), c)[0];
      OneLzma(k);
      ControlParts(mode, u / 0x1_0000);
      out := [0x80 + mode * 32 + u / 0x1_0000, u / 0x100 % 0x100, u % 0x100, pm / 0x100, pm % 0x100];
      if needInitProp {
        out := out + [props];
      } else {
        assert out + [] == out;
      }
      out := out + c.packed;
      needInitProp, needInitState := false, false;
      srcPos := srcPos + |c.data|;
    }

    method CopyBlock(data: seq<Byte>) returns (out: seq<Byte>)
      modifies this`srcPos
      ensures S() == old(S()).(srcPos := old(srcPos) + |data|)
      ensures forall k :: k in CopyChunks(old(srcPos), data) ==> Fits(k)
      ensures out == AllBytes(CopyChunks(old(srcPos), data))
    {
      hide Bytes, AllBytes, CopyChunks, Fits, CopyHeader;
      CopyChunksFit(srcPos, data);
      out := [];
      var pos: nat := 0;
      assert data[0..] == data && [] + AllBytes(CopyChunks(srcPos, data)) == AllBytes(CopyChunks(srcPos, data));
      while pos < |data|
        invariant pos <= |data| && srcPos == old(srcPos) + pos
        invariant S() == old(S()).(srcPos := srcPos)
        invariant forall k :: k in CopyChunks(srcPos, data[pos..]) ==> Fits(k)
        invariant out + AllBytes(CopyChunks(srcPos, data[pos..])) == AllBytes(CopyChunks(old(srcPos), data))
      {
        var u: nat := if |data| - pos < COPY_CHUNK_SIZE then |data| - pos else COPY_CHUNK_SIZE;
        var header := CopyHeader(srcPos == 0, u);
        NextCopy(out, srcPos, data[pos..], u);
        assert data[pos..][..u] == data[pos..pos + u] && data[pos..][u..] == data[pos + u..];
        out := out + (header + data[pos..pos + u]);
        pos, srcPos := pos + u, srcPos + u;
      }
      assert data[pos..] == [] && out + [] == out;
      NoCopies(srcPos);
    }
  }

  lemma OneLzma(k: Chunk)
    requires k.Lzma? && Fits(k)
    ensures AllBytes([k]) == Bytes(k)
    ensures Bytes(k) == [0x80 + k.mode * 32 + (k.unpackSize - 1) / 0x1_0000, (k.unpackSize - 1) / 0x100 % 0x100,
                         (k.unpackSize - 1) % 0x100, (|k.packed| - 1) / 0x100, (|k.packed| - 1) % 0x100] +
                        (if k.props.Some? then [k.props.value] else []) + k.packed
  {
    assert [k][1..] == [] && Bytes(k) + [] == Bytes(k);
  }

  lemma NoCopies(srcPos: nat)
    ensures CopyChunks(srcPos, []) == [] && AllBytes([]) == []
  {}

  lemma NextCopy(out: seq<Byte>, srcPos: nat, data: seq<Byte>, u: nat)
    requires data != [] && u == if |data| < COPY_CHUNK_SIZE then |data| else COPY_CHUNK_SIZE
    requires forall k :: k in CopyChunks(srcPos, data) ==> Fits(k)
    ensures forall k :: k in CopyChunks(srcPos + u, data[u..]) ==> Fits(k)
    ensures out + AllBytes(CopyChunks(srcPos, data)) ==
            out + (CopyHeader(srcPos == 0, u) + data[..u]) + AllBytes(CopyChunks(srcPos + u, data[u..]))
  {
    CopyChunksFit(srcPos + u, data[u..]);
    var c, more := Copy(srcPos == 0, data[..u]), CopyChunks(srcPos + u, data[u..]);
    assert CopyChunks(srcPos, data) == [c] + more && ([c] + more)[1..] == more;
    assert Bytes(c) == CopyHeader(srcPos == 0, u) + data[..u];
  }

  lemma DecodeByte(d: ChunkDec, s: seq<Byte>)
    requires d.state != Finished && d.state != Error && d.state != Data && s != []
    ensures Decode(d, s) == Decode(NextState(d, s[0]), s[1..])
  {}

  lemma DecodeData(d: ChunkDec, s: seq<Byte>)
    requires d.state == Data
    ensures var e, n := Begun(d), DataSize(d);
      Decode(d, s) == if e.state == Error || n == 0 || n > |s| then None
                      else Join(ChunkOf(d, s[..n]), Decode(e.(state := Control), s[n..]))
  {}

  lemma DecodeEnd(d: ChunkDec, s: seq<Byte>)
    requires d.state == Finished || d.state == Error || s == []
    ensures Decode(d, s) == if d.state == Finished && s == [] then Some([]) else None
  {}

  lemma JoinNone(cs: seq<Chunk>)
    ensures JoinAll(cs, None) == None && JoinAll(cs, Some([])) == Some(cs)
  {
    assert cs + [] == cs;
  }

  class Lzma2Dec {
    var state: Phase
    var control: Byte
    var unpackSize: nat
    var packSize: nat
    var prop: Byte
    var needInitDic: bool
    var needInitState: bool
    var needInitProp: bool

    function S(): ChunkDec
      reads this
    {
      ChunkDec(state, control, unpackSize, packSize, prop, needInitDic, needInitState, needInitProp)
    }

    constructor ()
      ensures S() == DEC_INIT
    {
      state, control, unpackSize, packSize, prop := Control, 0, 0, 0, 0;
      needInitDic, needInitState, needInitProp := true, true, true;
    }

    method UpdateState(b: Byte)
      modifies this
      ensures S() == NextState(old(S()), b)
    {
      match state
      case Control =>
        control := b;
        if b == 0 {
          state := Finished;
        } else if IsCopy(b) {
          if b > 2 {
            state := Error;
          } else {
            unpackSize, state := 0, Unpack0;
          }
        } else {
          var low: nat := b % 32;
          unpackSize, state := low * 0x1_0000, Unpack0;
        }
      case Unpack0 =>
        var high: nat := b;
        unpackSize, state := unpackSize + high * 0x100, Unpack1;
      case Unpack1 =>
        unpackSize := unpackSize + b + 1;
        state := if IsCopy(control) then Data else Pack0;
      case Pack0 =>
        var high: nat := b;
        packSize, state := high * 0x100, Pack1;
      case Pack1 =>
        packSize := packSize + b + 1;
        state := if Mode(control) >= 2 then Prop else if needInitProp then Error else Data;
      case Prop =>
        if ValidProp(b) {
          prop, needInitProp, state := b, false, Data;
        } else {
          state := Error;
        }
      case _ => state := Error;
    }

    // The checks before the data of a chunk.
    method BeginData()
      requires state == Data
      modifies this
      ensures S() == Begun(old(S()))
    {
      if IsCopy(control) {
        if control == 1 {
          needInitProp, needInitState := true, true;
        } else if needInitDic {
          state := Error;
          return;
        }
        needInitDic := false;
      } else {
        var mode := Mode(control);
        if (mode != 3 && needInitDic) || (mode == 0 && needInitState) {
          state := Error;
          return;
        }
        needInitDic, needInitState := false, false;
      }
    }

    method DecodeChunks(s: seq<Byte>) returns (ok: bool, chunks: seq<Chunk>)
      requires S() == DEC_INIT
      modifies this
      ensures Decode(DEC_INIT, s) == if ok then Some(chunks) else None
    {
      hide NextState, Begun, ChunkOf, Decode, DataSize, Join, JoinAll;
      ok, chunks := false, [];
      var pos: nat := 0;
      assert s[0..] == s;
      JoinNothing(Decode(S(), s));
      while state != Finished && state != Error && pos < |s|
        invariant pos <= |s| && Decode(DEC_INIT, s) == JoinAll(chunks, Decode(S(), s[pos..]))
        decreases |s| - pos
      {
        if state == Data {
          var n := DataSize(S());
          ghost var d, cs := S(), chunks;
          var c := ChunkOf(S(), if n <= |s| - pos then s[pos..pos + n] else []);
          BeginData();
          DecodeData(d, s[pos..]);
          if state == Error || n == 0 || n > |s| - pos {
            JoinNone(chunks);
            return;
          }
          assert s[pos..][..n] == s[pos..pos + n] && s[pos..][n..] == s[pos + n..];
          state := Control;
          JoinLater(cs, c, Decode(S(), s[pos + n..]));
          chunks, pos := chunks + [c], pos + n;
        } else {
          assert s[pos..][0] == s[pos] && s[pos..][1..] == s[pos + 1..];
          DecodeByte(S(), s[pos..]);
          UpdateState(s[pos]);
          pos := pos + 1;
        }
      }
      DecodeEnd(S(), s[pos..]);
      JoinNone(chunks);
      if state == Finished && pos == |s| {
        ok := true;
      }
    }
  }

  lemma JoinLater(cs: seq<Chunk>, c: Chunk, r: Option<seq<Chunk>>)
    ensures JoinAll(cs, Join(c, r)) == JoinAll(cs + [c], r)
  {
    if r.Some? { assert cs + ([c] + r.value) == cs + [c] + r.value; }
  }

  // ----- Both together -------------------------------------------------------------------------

  lemma EncodeBlock(e: ChunkEnc, items: seq<Item>)
    requires items != [] && items[0].Block?
    ensures Encode(e, items) == Encode(InitEnc(items[0].props), items[1..])
  {}

  lemma EncodePart(e: ChunkEnc, items: seq<Item>, c: Coded)
    requires items != [] && items[0] == Part(c) && forall i :: i in items ==> ValidItem(i)
    ensures ValidCoded(c) && forall k :: k in Encode(e, items) ==> Fits(k)
    ensures forall k :: k in Chunks(e, c) ==> Fits(k)
    ensures forall k :: k in Encode(NextEnc(e, c), items[1..]) ==> Fits(k)
    ensures AllBytes(Encode(e, items)) == AllBytes(Chunks(e, c)) + AllBytes(Encode(NextEnc(e, c), items[1..]))
  {
    hide Bytes, Chunks, NextEnc, Fits;
    EncodeFits(e, items);
    assert ValidItem(items[0]);
    ChunksFit(e, c);
    EncodeFits(NextEnc(e, c), items[1..]);
    AllBytesConcat(Chunks(e, c), Encode(NextEnc(e, c), items[1..]));
  }

  // The stream of some blocks and their parts, with the end mark.
  method WriteStream(props: Byte, items: seq<Item>) returns (s: seq<Byte>)
    requires ValidProp(props) && forall i :: i in items ==> ValidItem(i)
    ensures forall c :: c in Encode(InitEnc(props), items) ==> Fits(c)
    ensures s == AllBytes(Encode(InitEnc(props), items)) + [0]
  {
    hide Bytes, Chunks, NextEnc, Fits, Encode, AllBytes, InitEnc, ValidItem, ValidCoded;
    EncodeFits(InitEnc(props), items);
    ghost var all := AllBytes(Encode(InitEnc(props), items));
    var enc := new Lzma2EncInt(props);
    s := [];
    var i: nat := 0;
    assert items[0..] == items && [] + all == all;
    while i < |items|
      invariant i <= |items| && fresh(enc)
      invariant forall c :: c in Encode(enc.S(), items[i..]) ==> Fits(c)
      invariant s + AllBytes(Encode(enc.S(), items[i..])) == all
    {
      assert items[i..][1..] == items[i + 1..] && items[i..][0] == items[i];
      match items[i] {
        case Block(p) =>
          EncodeBlock(enc.S(), items[i..]);
          enc := new Lzma2EncInt(p);
        case Part(c) =>
          EncodePart(enc.S(), items[i..], c);
          ghost var more := AllBytes(Encode(NextEnc(enc.S(), c), items[i + 1..]));
          var out := enc.EncodeSubblock(c);
          assert s + (out + more) == s + out + more;
          s := s + out;
      }
      i := i + 1;
    }
    EncodeNone(enc.S());
    assert items[i..] == [] && s + [] == s;
    s := s + [0];
  }

  lemma EncodeNone(e: ChunkEnc)
    ensures Encode(e, []) == [] && AllBytes([]) == []
  {}

  // Main result: one object writes, the other reads: the same chunks, all of them, none refused.
  method WriteThenRead(props: Byte, items: seq<Item>) returns (ok: bool, chunks: seq<Chunk>)
    requires ValidProp(props) && forall i :: i in items ==> ValidItem(i)
    ensures ok && chunks == Encode(InitEnc(props), items)
  {
    hide Encode, AllBytes, Decode, Fits, ValidItem;
    var s := WriteStream(props, items);
    StreamRead(props, items);
    var dec := new Lzma2Dec();
    ok, chunks := dec.DecodeChunks(s);
  }
}
