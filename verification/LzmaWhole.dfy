// Encoder and decoder together: what one writes, the other reads back, however the stream
// between them is cut.

module LzmaWhole {
  import opened RangeCoder
  import opened LzmaModel
  import opened LzmaStream
  import opened LzmaEncoder
  import opened LzmaDecoder
  import opened Words

  // Cuts a stream into pieces of the given sizes, as far as it goes, and a last one with the rest.
  function Cut(s: seq<Byte>, sizes: seq<nat>): seq<seq<Byte>>
    decreases |sizes|
  {
    if sizes == [] then [s]
    else
      var n := if sizes[0] < |s| then sizes[0] else |s|;
      [s[..n]] + Cut(s[n..], sizes[1..])
  }

  lemma {:induction false} CutConcat(s: seq<Byte>, sizes: seq<nat>)
    ensures Concat(Cut(s, sizes)) == s
    decreases |sizes|
  {
    var pieces := Cut(s, sizes);
    if sizes == [] {
      assert pieces[..0] == [];
    } else {
      var n := if sizes[0] < |s| then sizes[0] else |s|;
      CutConcat(s[n..], sizes[1..]);
      var none: seq<Byte> := [];
      var first: seq<seq<Byte>> := [s[..n]];
      ConcatSplit(none, pieces, 1);
      assert pieces[1..] == Cut(s[n..], sizes[1..]) && pieces[..1] == first;
      assert first[..0] == [];
      assert Concat(first) == s[..n];
      assert none + Concat(pieces) == Concat(pieces) && none + s[..n] == s[..n];
    }
  }

  lemma HeldWhole(dic: seq<Byte>, dicPos: nat, hist: seq<Byte>)
    requires Holds(dic, dicPos, hist) && |hist| == dicPos
    ensures dic[..dicPos] == hist
  {
    forall i | 0 <= i < dicPos
      ensures dic[i] == hist[i]
    {
      assert dic[Slot(dicPos, |dic|, dicPos - i)] == hist[|hist| - (dicPos - i)];
    }
  }

  // A stream that is not starved, decoded piece by piece into a buffer that has room for it.
  method DecodeCut(p: Props, limit: nat, out: seq<Byte>, sizes: seq<nat>) returns (back: seq<Byte>, status: Status)
    requires ValidProps(p) && |out| >= 5 && out[0] == 0
    requires var r := Run(p, limit, out, St(DecStart(out, FreshProbs(NumProbs(p))), LZ_START, 0, false));
      r.Stopped? && (r.s.done ==> r.s.d.code == 0)
    ensures var r := Run(p, limit, out, St(DecStart(out, FreshProbs(NumProbs(p))), LZ_START, 0, false));
      && back == r.s.z.hist
      && status == if r.s.done then FinishedWithMark
                   else if r.s.rem == 0 && r.s.d.code == 0 then MaybeFinishedWithoutMark else NotFinished
  {
    hide Run, Holds, NumProbs, DecStart, FreshProbs;
    var dec := new LzmaDec(p, limit + 1);
    var pieces := Cut(out, sizes);
    CutConcat(out, sizes);
    var ok;
    ok, status := dec.DecodeInPieces(limit, pieces);
    ghost var none: seq<Byte> := [];
    assert none + Concat(pieces) == out;
    HeldWhole(dec.dic[..], dec.dicPos, dec.hist);
    back := dec.dic[..dec.dicPos];
  }

  // Main result: encode, cut the stream anywhere, decode piece by piece. The data comes back,
  // every byte of the stream is used, and the end is recognised.
  method EncodeThenDecode(p: Props, logBits: nat, data: seq<Byte>, choices: seq<Choice>, mark: bool,
                          sizes: seq<nat>) returns (back: seq<Byte>, status: Status)
    requires ValidProps(p) && LogBits(logBits)
    requires data != [] ==> ValidChoices(choices, data, 1)
    requires forall c :: c in choices ==> Near(c, logBits)
    requires ParseOf(p, LZ_START, Parse(choices, data), data)
    ensures back == data
    ensures status == if mark then FinishedWithMark else MaybeFinishedWithoutMark
  {
    hide Run, ParseOf, ValidChoices, NumProbs, DecStart, FreshProbs;
    var out := LzmaEncode(p, logBits, data, choices, mark);
    back, status := DecodeCut(p, if mark then |data| + 1 else |data|, out, sizes);
  }

  // A place inside a match the optimiser chose: some of its bytes come before, some after.
  predicate Inside(choices: seq<Choice>, pos: nat, limit: nat) {
    choices != [] &&
      (pos < limit < pos + choices[0].len || Inside(choices[1..], pos + choices[0].len, limit))
  }

  lemma {:induction false} InsideCut(choices: seq<Choice>, data: seq<Byte>, pos: nat, limit: nat)
    requires ValidChoices(choices, data, pos)
    ensures Inside(choices, pos, limit) <==> CutOff(Symbols(choices, data, pos), pos, limit) > 0
    decreases |choices|
  {
    if choices != [] {
      var end := pos + choices[0].len;
      InsideCut(choices[1..], data, end, limit);
      assert Symbols(choices, data, pos)[1..] == Symbols(choices[1..], data, end);
      if limit <= end {
        BeforeAll(choices[1..], end, limit);
      }
    }
  }

  lemma {:induction false} BeforeAll(choices: seq<Choice>, pos: nat, limit: nat)
    requires limit <= pos
    ensures !Inside(choices, pos, limit)
    decreases |choices|
  {
    if choices != [] {
      BeforeAll(choices[1..], pos + choices[0].len, limit);
    }
  }

  // Main result: decoding up to a limit anywhere in the data gives the data up to there, and a limit
  // inside a match is always reported as not finished.
  method EncodeThenDecodeSome(p: Props, logBits: nat, data: seq<Byte>, choices: seq<Choice>, mark: bool,
                              limit: nat, sizes: seq<nat>) returns (back: seq<Byte>, status: Status)
    requires ValidProps(p) && LogBits(logBits) && limit <= |data|
    requires data != [] ==> ValidChoices(choices, data, 1)
    requires forall c :: c in choices ==> Near(c, logBits)
    requires ParseOf(p, LZ_START, Parse(choices, data), data)
    ensures back == data[..limit]
    ensures data != [] && Inside(choices, 1, limit) ==> status == NotFinished
    ensures status == NotFinished || status == MaybeFinishedWithoutMark
  {
    hide Run, ParseOf, ValidChoices, NumProbs, DecStart, FreshProbs, CutOff;
    var out := LzmaEncode(p, logBits, data, choices, mark);
    back, status := DecodeCut(p, limit, out, sizes);
    FirstWhole(choices, data, limit);
  }

  lemma FirstWhole(choices: seq<Choice>, data: seq<Byte>, limit: nat)
    requires data != [] ==> ValidChoices(choices, data, 1)
    ensures data != [] && Inside(choices, 1, limit) ==> CutOff(Parse(choices, data), 0, limit) > 0
  {
    if data != [] {
      InsideCut(choices, data, 1, limit);
      assert Parse(choices, data)[1..] == Symbols(choices, data, 1);
      if limit <= 1 { BeforeAll(choices, 1, limit); }
    }
  }

  // Main result: the same through a circular buffer that may be much smaller than the data, as long as
  // it covers the distances.
  method EncodeThenDecodeToBuf(p: Props, logBits: nat, data: seq<Byte>, choices: seq<Choice>, mark: bool, bufSize: nat)
      returns (back: seq<Byte>, status: Status)
    requires ValidProps(p) && LogBits(logBits) && bufSize >= p.dicSize
    requires data != [] ==> ValidChoices(choices, data, 1)
    requires forall c :: c in choices ==> Near(c, logBits)
    requires ParseOf(p, LZ_START, Parse(choices, data), data)
    ensures back == data
    ensures status == if mark then FinishedWithMark else MaybeFinishedWithoutMark
  {
    hide Run, ParseOf, ValidChoices, Holds, NumProbs, DecStart, FreshProbs;
    var out := LzmaEncode(p, logBits, data, choices, mark);
    var dec := new LzmaDec(p, bufSize);
    ghost var none: seq<Byte> := [];
    assert none + out == out;
    var ok, srcLen;
    ok, back, srcLen, status := dec.DecodeToBuf(if mark then |data| + 1 else |data|, out);
    assert none + back == back;
  }
}
