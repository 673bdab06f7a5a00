/** What an LZMA2 stream is, whoever wrote it: the decoder takes exactly the legal sequences of chunks. */
module Lzma2Format {

  import opened RangeCoder
  import opened Words
  import opened Lzma2Chunks

  // ----- The bytes of a chunk --------------------------------------------------------------------

  // Main result: the layout. Sizes are one more than the numbers stored, the highest byte first; of an LZMA
  // chunk's first byte, bit 7 is set, two bits are the mode and five the top of the size.
  lemma Layout(c: Chunk)
    requires Fits(c)
    ensures |Bytes(c)| >= 3
    ensures var s, b0: nat, b1: nat, b2: nat := Bytes(c), Bytes(c)[0], Bytes(c)[1], Bytes(c)[2];
      match c
      case Copy(reset, data) => b0 == (if reset then 1 else 2) && |data| == 256 * b1 + b2 + 1 && s[3..] == data
      case Lzma(mode, props, unpackSize, packed) =>
        && |s| >= 5 && b0 == 128 + 32 * mode + b0 % 32 && unpackSize == 65536 * (b0 % 32) + 256 * b1 + b2 + 1
        && var b3: nat, b4: nat := s[3], s[4];
        |packed| == 256 * b3 + b4 + 1 && s[5..] == (if props.Some? then [props.value] else []) + packed
  {
    if c.Lzma? {
      var u := c.unpackSize - 1;
      SizeParts(u);
      ControlParts(c.mode, u / 0x1_0000);
    }
  }

  // ----- Legal sequences ---------------------------------------------------------------------------

  // Which chunks may follow when the dictionary, the state or the properties are still to be set: the first
  // chunk resets the dictionary; after plain data that did, LZMA data bring properties and a new state.
  predicate Legal(dic: bool, state: bool, prop: bool, cs: seq<Chunk>)
    decreases |cs|
  {
    cs == [] ||
    (Fits(cs[0]) &&
     match cs[0]
     case Copy(reset, _) =>
       if reset then Legal(false, true, true, cs[1..]) else !dic && Legal(dic, state, prop, cs[1..])
     case Lzma(mode, props, _, _) =>
       && (dic ==> mode == 3) && (state ==> mode >= 1) && (prop ==> mode >= 2) && (props.Some? <==> mode >= 2)
       && (props.Some? ==> props.value < 225 && props.value % 9 + props.value / 9 % 5 <= 4)
       && Legal(false, false, false, cs[1..]))
  }

  lemma {:induction false} LegalFits(dic: bool, state: bool, prop: bool, cs: seq<Chunk>)
    requires Legal(dic, state, prop, cs)
    ensures forall c :: c in cs ==> Fits(c)
    decreases |cs|
  {
    hide Fits;
    if cs != [] {
      var c, rest := cs[0], cs[1..];
      assert cs == [c] + rest;
      if c.Lzma? { LegalFits(false, false, false, rest); }
      else if c.reset { LegalFits(false, true, true, rest); }
      else { LegalFits(dic, state, prop, rest); }
    }
  }

  // ----- Every legal sequence is taken -----------------------------------------------------------

  lemma CopyTaken(d: ChunkDec, c: Chunk, rest: seq<Byte>) returns (d': ChunkDec)
    requires d.state == Control && c.Copy? && Fits(c) && (d.needInitDic ==> c.reset)
    ensures d'.state == Control && !d'.needInitDic
    ensures d'.needInitState == (c.reset || d.needInitState) && d'.needInitProp == (c.reset || d.needInitProp)
    ensures Decode(d, Bytes(c) + rest) == Join(c, Decode(d', rest))
  {
    hide Decode, Join;
    var data, s := c.data, Bytes(c) + rest;
    var d1 := NextState(d, s[0]);
    var d2 := NextState(d1, s[1]);
    var d3 := NextState(d2, s[2]);
    assert s[1..][1..] == s[2..] && s[2..][1..] == s[3..];
    DecodeByte(d, s);
    DecodeByte(d1, s[1..]);
    DecodeByte(d2, s[2..]);
    DecodeData(d3, s[3..]);
    assert s[3..] == data + rest && (data + rest)[..|data|] == data && (data + rest)[|data|..] == rest;
    d' := Begun(d3).(state := Control);
  }

  lemma LzmaTaken(d: ChunkDec, c: Chunk, rest: seq<Byte>) returns (d': ChunkDec)
    requires d.state == Control && c.Lzma? && Fits(c) && (c.props.Some? <==> c.mode >= 2)
    requires c.props.Some? ==> ValidProp(c.props.value)
    requires (d.needInitDic ==> c.mode == 3) && (d.needInitState ==> c.mode >= 1) && (d.needInitProp ==> c.mode >= 2)
    ensures d'.state == Control && !d'.needInitDic && !d'.needInitState && !d'.needInitProp
    ensures Decode(d, Bytes(c) + rest) == Join(c, Decode(d', rest))
  {
    hide Decode, Bytes, ValidProp, IsCopy, Mode;
    var d3 := LzmaHeaderRead(d, c, rest);
    var d5 := LzmaSizeRead(d3, c, rest);
    d' := LzmaRestRead(d5, c, rest);
  }

  lemma {:induction false} LegalTaken(d: ChunkDec, cs: seq<Chunk>)
    requires d.state == Control && Legal(d.needInitDic, d.needInitState, d.needInitProp, cs)
    ensures forall c :: c in cs ==> Fits(c)
    ensures Decode(d, AllBytes(cs) + [0]) == Some(cs)
    decreases |cs|
  {
    hide Decode, Bytes, Fits;
    LegalFits(d.needInitDic, d.needInitState, d.needInitProp, cs);
    if cs == [] {
      assert AllBytes(cs) + [0] == [0];
      EndRead(d);
    } else {
      var c, rest := cs[0], cs[1..];
      assert cs == [c] + rest;
      var more := AllBytes(rest) + [0];
      assert AllBytes(cs) + [0] == Bytes(c) + more;
      var d';
      if c.Copy? { d' := CopyTaken(d, c, more); } else { d' := LzmaTaken(d, c, more); }
      LegalTaken(d', rest);
    }
  }

  // ----- Nothing else is ---------------------------------------------------------------------------

  lemma TwoBytes(a: Byte, b: Byte)
    ensures (256 * a + b) / 256 == a && (256 * a + b) % 256 == b
  {}

  // A copied chunk that the decoder has taken was there, byte by byte.
  lemma CopyGiven(d: ChunkDec, s: seq<Byte>, cs: seq<Chunk>) returns (d': ChunkDec, n: nat)
    requires d.state == Control && Decode(d, s) == Some(cs) && s != [] && 0 < s[0] < 128
    ensures n <= |s| && d'.state == Control && cs != [] && cs[0].Copy? && Fits(cs[0]) && s[..n] == Bytes(cs[0])
    ensures n > 0 && Decode(d', s[n..]) == Some(cs[1..]) && (d.needInitDic ==> cs[0].reset) && !d'.needInitDic
    ensures d'.needInitState == (cs[0].reset || d.needInitState) && d'.needInitProp == (cs[0].reset || d.needInitProp)
  {
    hide Decode;
    DecodeByte(d, s);
    var d1 := NextState(d, s[0]);
    if d1.state == Error || s[1..] == [] { DecodeEnd(d1, s[1..]); }
    DecodeByte(d1, s[1..]);
    var d2 := NextState(d1, s[1]);
    assert s[1..][1..] == s[2..];
    if s[2..] == [] { DecodeEnd(d2, s[2..]); }
    DecodeByte(d2, s[2..]);
    var d3 := NextState(d2, s[2]);
    assert s[2..][1..] == s[3..];
    DecodeData(d3, s[3..]);
    var u := DataSize(d3);
    TwoBytes(s[1], s[2]);
    d', n := Begun(d3).(state := Control), 3 + u;
    var data := s[3..][..u];
    assert s[3..][u..] == s[n..];
    var c := Copy(s[0] == 1, data);
    assert cs == [c] + cs[1..] && cs[0] == c;
    assert s[..n] == [s[0], s[1], s[2]] + data;
  }

  // Bytes of a header are there if anything has been decoded.
  lemma NextGiven(d: ChunkDec, s: seq<Byte>, cs: seq<Chunk>)
    requires Decode(d, s) == Some(cs) && d.state != Finished && d.state != Error && d.state != Data
    ensures s != [] && NextState(d, s[0]).state != Error && Decode(NextState(d, s[0]), s[1..]) == Some(cs)
  {
    hide Decode, NextState;
    if s != [] {
      DecodeByte(d, s);
      if NextState(d, s[0]).state == Error { DecodeEnd(NextState(d, s[0]), s[1..]); }
    } else {
      DecodeEnd(d, s);
    }
  }

  // The five bytes of sizes.
  lemma SizesGiven(d: ChunkDec, s: seq<Byte>, cs: seq<Chunk>) returns (d5: ChunkDec)
    requires d.state == Control && Decode(d, s) == Some(cs) && s != [] && s[0] >= 128
    ensures |s| >= 5 && Decode(d5, s[5..]) == Some(cs)
    ensures var u: nat, a: nat, b: nat := s[0] % 32, s[1], s[2]; d5.unpackSize == u * 0x1_0000 + a * 0x100 + b + 1
    ensures var a: nat, b: nat := s[3], s[4]; d5.packSize == a * 0x100 + b + 1
    ensures d5.control == s[0] && d5.needInitDic == d.needInitDic && d5.needInitState == d.needInitState
    ensures d5.needInitProp == d.needInitProp && d5.state == (if Mode(s[0]) >= 2 then Prop else Data)
    ensures Mode(s[0]) < 2 ==> !d.needInitProp
  {
    hide Decode, Mode;
    NextGiven(d, s, cs);
    var d1 := NextState(d, s[0]);
    NextGiven(d1, s[1..], cs);
    var d2 := NextState(d1, s[1]);
    assert s[1..][1..] == s[2..];
    NextGiven(d2, s[2..], cs);
    var d3 := NextState(d2, s[2]);
    assert s[2..][1..] == s[3..];
    NextGiven(d3, s[3..], cs);
    var d4 := NextState(d3, s[3]);
    assert s[3..][1..] == s[4..];
    NextGiven(d4, s[4..], cs);
    d5 := NextState(d4, s[4]);
    assert s[4..][1..] == s[5..];
  }

  lemma DataGiven(d: ChunkDec, s: seq<Byte>, cs: seq<Chunk>) returns (d': ChunkDec)
    requires d.state == Data && d.control >= 128 && d.packSize > 0 && Decode(d, s) == Some(cs)
    ensures d.packSize <= |s| && cs != [] && Decode(d', s[d.packSize..]) == Some(cs[1..]) && d'.state == Control
    ensures cs[0] == Lzma(Mode(d.control), if Mode(d.control) >= 2 then Some(d.prop) else None, d.unpackSize,
                          s[..d.packSize])
    ensures (d.needInitDic ==> Mode(d.control) == 3) && (d.needInitState ==> Mode(d.control) >= 1)
    ensures !d'.needInitDic && !d'.needInitState && d'.needInitProp == d.needInitProp
  {
    hide Decode, Mode;
    DecodeData(d, s);
    d' := Begun(d).(state := Control);
  }

  lemma LzmaGiven(d: ChunkDec, s: seq<Byte>, cs: seq<Chunk>) returns (d': ChunkDec, n: nat)
    requires d.state == Control && Decode(d, s) == Some(cs) && s != [] && s[0] >= 128
    ensures 0 < n <= |s| && d'.state == Control && cs != [] && cs[0].Lzma? && Fits(cs[0]) && s[..n] == Bytes(cs[0])
    ensures Decode(d', s[n..]) == Some(cs[1..]) && !d'.needInitDic && !d'.needInitState && !d'.needInitProp
    ensures (d.needInitDic ==> cs[0].mode == 3) && (d.needInitState ==> cs[0].mode >= 1)
    ensures (d.needInitProp ==> cs[0].mode >= 2) && (cs[0].props.Some? <==> cs[0].mode >= 2)
    ensures cs[0].props.Some? ==> ValidProp(cs[0].props.value)
  {
    hide Decode, Mode, ValidProp;
    var d5 := SizesGiven(d, s, cs);
    var d6, k := d5, 5;
    if Mode(s[0]) >= 2 {
      NextGiven(d5, s[5..], cs);
      d6, k := NextState(d5, s[5]), 6;
      assert s[5..][1..] == s[6..];
    }
    d' := DataGiven(d6, s[k..], cs);
    n := k + d6.packSize;
    assert s[k..][d6.packSize..] == s[n..];
    HeaderBack(s, d5.unpackSize, d6.packSize);
    var c := cs[0];
    assert s[..n] == s[..5] + s[5..k] + s[k..][..d6.packSize];
    assert s[5..k] == if c.props.Some? then [c.props.value] else [];
    BytesBack(s, c);
  }

  lemma HeaderBack(s: seq<Byte>, unpackSize: nat, packSize: nat)
    requires |s| >= 5 && s[0] >= 128
    requires var u: nat, a: nat, b: nat := s[0] % 32, s[1], s[2]; unpackSize == u * 0x1_0000 + a * 0x100 + b + 1
    requires var a: nat, b: nat := s[3], s[4]; packSize == a * 0x100 + b + 1
    ensures 1 <= unpackSize <= UNPACK_SIZE_MAX && 1 <= packSize <= PACK_SIZE_MAX && Mode(s[0]) < 4
    ensures var u, pm := unpackSize - 1, packSize - 1;
      && s[0] == 0x80 + Mode(s[0]) * 32 + u / 0x1_0000 && s[1] == u / 0x100 % 0x100 && s[2] == u % 0x100
      && s[3] == pm / 0x100 && s[4] == pm % 0x100
  {}

  lemma BytesBack(s: seq<Byte>, c: Chunk)
    requires |s| >= 5 && c.Lzma? && Fits(c)
    requires var u, pm := c.unpackSize - 1, |c.packed| - 1;
      && s[0] == 0x80 + c.mode * 32 + u / 0x1_0000 && s[1] == u / 0x100 % 0x100 && s[2] == u % 0x100
      && s[3] == pm / 0x100 && s[4] == pm % 0x100
    ensures Bytes(c) == s[..5] + (if c.props.Some? then [c.props.value] else []) + c.packed
  {
    SizeParts(c.unpackSize - 1);
  }

  lemma {:induction false} TakenLegal(d: ChunkDec, s: seq<Byte>, cs: seq<Chunk>)
    requires d.state == Control && Decode(d, s) == Some(cs)
    ensures Legal(d.needInitDic, d.needInitState, d.needInitProp, cs)
    ensures (forall c :: c in cs ==> Fits(c)) && s == AllBytes(cs) + [0]
    decreases |s|
  {
    hide Decode, Bytes, Fits;
    NextGiven(d, s, cs);
    if s[0] == 0 {
      DecodeEnd(NextState(d, 0), s[1..]);
      assert s == [s[0]] + s[1..] == [0];
    } else {
      var d', n;
      if s[0] < 128 { d', n := CopyGiven(d, s, cs); } else { d', n := LzmaGiven(d, s, cs); }
      TakenLegal(d', s[n..], cs[1..]);
      assert cs == [cs[0]] + cs[1..];
      LegalFits(d.needInitDic, d.needInitState, d.needInitProp, cs);
      assert s == s[..n] + s[n..];
    }
  }

  // Main result: a stream decodes to a sequence of chunks exactly when the sequence is legal from the beginning
  // and the stream is its bytes and the end mark.
  lemma StreamExact(s: seq<Byte>, cs: seq<Chunk>)
    ensures Decode(DEC_INIT, s) == Some(cs) <==>
      Legal(true, true, true, cs) && (forall c :: c in cs ==> Fits(c)) && s == AllBytes(cs) + [0]
  {
    hide Decode, Bytes, Fits, Legal;
    if Decode(DEC_INIT, s) == Some(cs) {
      TakenLegal(DEC_INIT, s, cs);
    }
    if Legal(true, true, true, cs) {
      LegalTaken(DEC_INIT, cs);
    }
  }

  // ----- What the encoder chooses ------------------------------------------------------------------

  // Copied data are cut every 2^16 bytes; the first chunk of all resets the dictionary.
  lemma {:induction false} CopyPieces(srcPos: nat, data: seq<Byte>, i: nat)
    requires i < |CopyChunks(srcPos, data)|
    ensures 65536 * i < |data| <= 65536 * |CopyChunks(srcPos, data)| < |data| + 65536
    ensures var c, end := CopyChunks(srcPos, data)[i], 65536 * (i + 1);
      c == Copy(srcPos + i == 0, data[65536 * i..if end < |data| then end else |data|])
    decreases |data|
  {
    var u := if |data| < COPY_CHUNK_SIZE then |data| else COPY_CHUNK_SIZE;
    var rest := CopyChunks(srcPos + u, data[u..]);
    assert CopyChunks(srcPos, data) == [Copy(srcPos == 0, data[..u])] + rest;
    if |data| > COPY_CHUNK_SIZE {
      assert rest != [];
      CopyPieces(srcPos + u, data[u..], if i > 0 then i - 1 else 0);
      if i > 0 {
        var lo, end: nat := 65536 * (i - 1), if 65536 * i < |data| - u then 65536 * i else |data| - u;
        assert data[u..][lo..end] == data[u + lo..u + end];
      }
    } else {
      assert data[u..] == [] && rest == [];
      assert data[0..|data|] == data[..u];
    }
  }

  // Main result: LZMA data are sent when they were made, save more than two bytes and fit a chunk; then they
  // bring what is still to be set. Else the data are copied, and what was to be set still is.
  lemma EncoderChooses(e: ChunkEnc, c: Coded)
    requires ValidCoded(c)
    ensures c.ok && |c.packed| + 2 < |c.data| && |c.packed| <= 65536 ==>
      && Chunks(e, c) == [Lzma(if e.srcPos == 0 then 3 else if !e.needInitState then 0
                               else if e.needInitProp then 2 else 1,
                               if e.needInitProp then Some(e.props) else None, |c.data|, c.packed)]
      && NextEnc(e, c) == ChunkEnc(e.srcPos + |c.data|, e.props, false, false)
    ensures !(c.ok && |c.packed| + 2 < |c.data| && |c.packed| <= 65536) ==>
      && NextEnc(e, c) == e.(srcPos := e.srcPos + |c.data|)
      && forall i: nat :: i < |Chunks(e, c)| ==> Piece(Chunks(e, c)[i], e.srcPos == 0, c.data, i)
  {
    if UseCopyBlock(c) {
      forall i: nat | i < |CopyChunks(e.srcPos, c.data)|
        ensures Piece(Chunks(e, c)[i], e.srcPos == 0, c.data, i)
      {
        CopyPieces(e.srcPos, c.data, i);
      }
    }
  }

  // Chunk i of copied data.
  predicate Piece(c: Chunk, first: bool, data: seq<Byte>, i: nat) {
    && c.Copy? && c.reset == (first && i == 0) && 65536 * i < |data|
    && c.data == data[65536 * i..if 65536 * (i + 1) < |data| then 65536 * (i + 1) else |data|]
  }
}
