// The LZMA decoder: a circular dictionary, the symbol loop, the parser that only looks
// ahead, and decoding that can be cut at any byte of the input.

module LzmaDecoder {
  import opened RangeCoder
  import opened RangeBudget
  import opened LzmaSymbols
  import opened LzmaModel
  import opened RangeDecoder
  import opened LzmaStream
  import opened RangeProbe
  import opened SymbolBudget
  import opened Words

  const MATCH_SPEC_LEN_START := 274
  const REQUIRED_INPUT_MAX := 20
  const RC_INIT_SIZE := 5

  // What the dry run reports.
  datatype Dummy = DummyError | DummyLit | DummyMatched | DummyRepeat

  // How one piece of work of DecodeToDic ends.
  datatype Next = GoOn | NeedMore | Broken

  datatype Status =
    | NotSpecified
    | FinishedWithMark
    | NotFinished
    | NeedsMoreInput
    | MaybeFinishedWithoutMark

  // The status that reports how a run up to the output limit ended.
  function StatusOf(r: Outcome): Status {
    match r
    case Starved(_) => NeedsMoreInput
    case Failed => NotSpecified
    case Stopped(s) =>
      if s.done then if s.d.code == 0 then FinishedWithMark else NotSpecified
      else if s.rem == 0 && s.d.code == 0 then MaybeFinishedWithoutMark
      else NotFinished
  }

  function Max(a: nat, b: nat): nat { if a < b then b else a }

  function KindOf(s: Symbol): Dummy {
    if s.Literal? then DummyLit else if s.Match? then DummyMatched else DummyRepeat
  }

  // The position in a circular buffer k places before dicPos.
  function Slot(dicPos: nat, size: nat, k: nat): nat
    requires dicPos <= size && 1 <= k <= size
  {
    if k <= dicPos then dicPos - k else dicPos + size - k
  }

  // The buffer holds the latest bytes of the history.
  ghost predicate Holds(dic: seq<Byte>, dicPos: nat, hist: seq<Byte>) {
    && dicPos <= |dic|
    && forall k :: 1 <= k <= |dic| && k <= |hist| ==> dic[Slot(dicPos, |dic|, k)] == hist[|hist| - k]
  }

  lemma HoldsPut(dic: seq<Byte>, dicPos: nat, hist: seq<Byte>, b: Byte)
    requires Holds(dic, dicPos, hist) && dicPos < |dic|
    ensures Holds(dic[dicPos := b], dicPos + 1, hist + [b])
  {
    var dic', hist', pos' := dic[dicPos := b], hist + [b], dicPos + 1;
    forall k | 1 <= k <= |dic'| && k <= |hist'|
      ensures dic'[Slot(pos', |dic'|, k)] == hist'[|hist'| - k]
    {
      if k > 1 {
        assert dic[Slot(dicPos, |dic|, k - 1)] == hist[|hist| - (k - 1)];
      }
    }
  }

  class LzmaDec {
    const p: Props
    const rc: RangeDec
    const probs: array<Prob>
    const dic: array<Byte>
    const reps: array<nat>
    var dicPos: nat
    var processedPos: nat
    var checkDicSize: nat
    var state: nat
    var remainLen: nat

    // Input that is not a whole symbol yet, or the first bytes of a stream.
    const tempBuf: array<Byte>
    var tempBufSize: nat
    var needFlush: bool
    var needInitState: bool

    // All the input taken since the coder was last initialised, and what it started from.
    ghost var taken: seq<Byte>
    ghost var probs0: Probs
    ghost var z0: Lz

    // All the bytes put out since the dictionary was reset.
    ghost var hist: seq<Byte>

    // The distances are kept plus one.
    ghost function Shared(): Lz
      reads this`state, this`hist, reps
      requires reps.Length == 4 && reps[0] >= 1 && reps[1] >= 1 && reps[2] >= 1 && reps[3] >= 1
    {
      Lz(state, reps[0] - 1, reps[1] - 1, reps[2] - 1, reps[3] - 1, hist)
    }

    ghost predicate ValidReps()
      reads reps
    {
      reps.Length == 4 && reps[0] >= 1 && reps[1] >= 1 && reps[2] >= 1 && reps[3] >= 1
    }

    // Either the buffer covers every allowed distance, or it has not wrapped yet.
    ghost predicate ValidDic()
      reads this, dic
    {
      && ValidProps(p) && Holds(dic[..], dicPos, hist)
      && (p.dicSize <= dic.Length || |hist| <= dicPos)
      && processedPos == |hist| % WORD
      && (checkDicSize == 0 ==> |hist| <= p.dicSize)
      && (checkDicSize != 0 ==> checkDicSize == p.dicSize <= |hist|)
    }

    ghost predicate Valid()
      reads this, rc, probs, dic, reps
    {
      && ValidReps() && ValidDic() && ValidLz(p, Shared())
      && probs.Length == NumProbs(p) && rc.Valid()
    }

    // The byte at a distance (counted from 1).
    function ByteBack(rep: nat): (b: Byte)
      requires ValidDic() && 1 <= rep <= Reach(p, hist)
      reads this, dic
      ensures b == Back(hist, rep - 1)
    {
      assert dic[..][Slot(dicPos, dic.Length, rep)] == hist[|hist| - rep];
      dic[if dicPos < rep then dicPos - rep + dic.Length else dicPos - rep]
    }

    method PutByte(b: Byte)
      requires dicPos < dic.Length && Holds(dic[..], dicPos, hist)
      modifies this`dicPos, this`hist, dic
      ensures dicPos == old(dicPos) + 1 && hist == old(hist) + [b]
      ensures Holds(dic[..], dicPos, hist)
    {
      HoldsPut(dic[..], dicPos, hist, b);
      dic[dicPos] := b;
      dicPos := dicPos + 1;
      hist := hist + [b];
    }
  
    constructor (props: Props, dicBufSize: nat)
      requires ValidProps(props) && dicBufSize >= 1
      ensures p == props && dic.Length == dicBufSize
      ensures fresh(rc) && fresh(probs) && fresh(dic) && fresh(reps) && fresh(tempBuf)
      ensures Idle() && InSync() && hist == [] && dicPos == 0
      ensures taken == [] && z0 == LZ_START && probs0 == FreshProbs(NumProbs(props))
    {
      p := props;
      rc := new RangeDec();
      probs := new Prob[NumProbs(props)](_ => 1024);
      dic := new Byte[dicBufSize](_ => 0);
      reps := new nat[4](_ => 1);
      tempBuf := new Byte[REQUIRED_INPUT_MAX](_ => 0);
      dicPos, processedPos, checkDicSize, state, remainLen := 0, 0, 0, 0, 0;
      tempBufSize, needFlush, needInitState := 0, true, true;
      hist, taken, z0, probs0 := [], [], LZ_START, FreshProbs(NumProbs(props));
    }

    // One byte of output, counted.
    method PutOne(b: Byte)
      requires ValidDic() && dicPos < dic.Length && (checkDicSize == 0 ==> |hist| < p.dicSize)
      modifies this`dicPos, this`processedPos, this`hist, dic
      ensures ValidDic() && dicPos == old(dicPos) + 1 && hist == old(hist) + [b]
    {
      hide Holds;
      WordNext(|hist|, 1);
      PutByte(b);
      processedPos := (processedPos + 1) % WORD;
    }

    // The literal subtable, from the position and the previous byte.
    method LiteralProb() returns (prob: nat)
      requires ValidDic()
      ensures LITERAL <= prob == LiteralBase(p, hist) && prob + LIT_SIZE <= NumProbs(p)
    {
      hide Pow2, Shl, Shr;
      LiteralInTable(p, hist);
      WordMask(|hist|, p.lp);
      FirstView(p);
      prob := LITERAL;
      if checkDicSize != 0 || processedPos != 0 {
        var prev := ByteBack(1);
        prob := LITERAL + LIT_SIZE * (Shl(processedPos % Pow2(p.lp), p.lc) + Shr(prev, 8 - p.lc));
      }
    }

    // After a match the byte at the last distance guides the literal's tree.
    method DecodeLiteral(ghost v: View)
      requires Valid() && dicPos < dic.Length && v == ViewOf(p, Shared())
      requires checkDicSize == 0 ==> |hist| < p.dicSize
      requires rc.Fits(ParseLiteral(rc.stream, rc.D(probs), v).1)
      modifies this`dicPos, this`processedPos, this`state, this`hist, dic, probs, rc`range, rc`code, rc`buf
      ensures Valid() && dicPos == old(dicPos) + 1
      ensures var (sym, d) := ParseLiteral(rc.stream, old(rc.D(probs)), v);
        && sym.Literal? && rc.D(probs) == d
        && Shared() == Apply(p, old(Shared()), sym, 1)
    {
      hide ParseGuided, DecodeModel, Normalize, Pow2, LiteralBase, Holds, Apply, NumProbs;
      ghost var z := Shared();
      TreeSizes();
      var prob := LiteralProb();
      var symbol;
      if state < NUM_LIT_STATES {
        symbol := rc.TreeDecode(probs, prob, 8);
      } else {
        var matchByte := ByteBack(reps[0]);
        symbol := rc.LitDecodeMatched(probs, prob, matchByte);
      }
      ApplyLiteral(p, z, symbol);
      ghost var z' := Apply(p, z, Literal(symbol), 1);
      state := if state < 4 then 0 else if state < 10 then state - 3 else state - 6;
      PutOne(symbol);
      assert Shared() == z';
    }

    // Copies the next curLen bytes of a match: in one run when the source does not wrap,
    // byte by byte around the end of the buffer when it does.
    method CopyMatch(curLen: nat)
      requires ValidReps() && Holds(dic[..], dicPos, hist)
      requires reps[0] <= |hist| && reps[0] <= dic.Length && dicPos + curLen <= dic.Length && curLen >= 1
      modifies this`dicPos, this`hist, dic
      ensures Holds(dic[..], dicPos, hist) && dicPos == old(dicPos) + curLen
      ensures hist == Copy(old(hist), reps[0] - 1, curLen)
    {
      hide Holds, Copy;
      var rep0 := reps[0];
      CopyNone(hist, rep0 - 1);
      var pos := if dicPos < rep0 then dicPos - rep0 + dic.Length else dicPos - rep0;
      var left := curLen;
      if pos + curLen <= dic.Length {
        var src, lim := pos - dicPos, dicPos + curLen;
        while left != 0
          invariant 0 <= left <= curLen && dicPos + left == lim
          invariant rep0 <= |hist| && Holds(dic[..], dicPos, hist)
          invariant Copy(hist, rep0 - 1, left) == Copy(old(hist), rep0 - 1, curLen)
        {
          HoldsBack(dic[..], dicPos, hist, rep0);
          CopyStep(hist, rep0 - 1, left);
          PutByte(dic[dicPos + src]);
          left := left - 1;
        }
        CopyNone(hist, rep0 - 1);
      } else {
        while left != 0
          invariant 0 <= left <= curLen && dicPos + left == old(dicPos) + curLen
          invariant rep0 <= |hist| && Holds(dic[..], dicPos, hist)
          invariant left > 0 ==> pos == if dicPos < rep0 then dicPos - rep0 + dic.Length else dicPos - rep0
          invariant Copy(hist, rep0 - 1, left) == Copy(old(hist), rep0 - 1, curLen)
        {
          HoldsBack(dic[..], dicPos, hist, rep0);
          CopyStep(hist, rep0 - 1, left);
          PutByte(dic[pos]);
          pos := pos + 1;
          if pos == dic.Length {
            pos := 0;
          }
          left := left - 1;
        }
        CopyNone(hist, rep0 - 1);
      }
    }

    // Match length, from the length coder at prob.
    method DecodeLength(prob: nat, posState: nat) returns (len: nat)
      requires rc.Valid() && posState < 16 && prob + 514 <= probs.Length
      requires rc.Fits(ParseLength(rc.stream, rc.D(probs), prob, posState).1)
      modifies probs, rc`range, rc`code, rc`buf
      ensures rc.Valid() && (len, rc.D(probs)) == ParseLength(rc.stream, old(rc.D(probs)), prob, posState)
    {
      hide DecodeModel, Normalize, ParseGuided, Pow2;
      TreeSizes();
      LengthShape(rc.stream, rc.D(probs), prob, posState);
      var choice := rc.GetBit(probs, prob);
      if choice == 0 {
        len := rc.TreeDecode(probs, prob + LEN_LOW + posState * 8, 3);
      } else {
        var choice2 := rc.GetBit(probs, prob + 1);
        if choice2 == 0 {
          len := rc.TreeDecode(probs, prob + LEN_MID + posState * 8, 3);
          len := len + 8;
        } else {
          len := rc.TreeDecode(probs, prob + LEN_HIGH, 8);
          len := len + 16;
        }
      }
    }

    method DecodeDistance(len: nat) returns (distance: nat)
      requires rc.Valid() && probs.Length >= LITERAL
      requires rc.Fits(ParseDistance(rc.stream, rc.D(probs), len).1)
      modifies probs, rc`range, rc`code, rc`buf
      ensures rc.Valid() && (distance, rc.D(probs)) == ParseDistance(rc.stream, old(rc.D(probs)), len)
    {
      hide DecodeModel, Normalize, ParseGuided, Pow2, ParseReverse, ParseDirect, SlotBase;
      TreeSizes();
      var prob := POS_SLOT + LenState(len) * 64;
      ghost var d1 := ParseTree(rc.stream, rc.D(probs), prob, 6).1;
      GuidedLater(rc.stream, rc.D(probs), prob, 6, 1, 0, false);
      FooterLater(rc.stream, d1, ParseTree(rc.stream, rc.D(probs), prob, 6).0);
      var posSlot := rc.TreeDecode(probs, prob, 6);
      if posSlot < 4 {
        SlotIsSmall(posSlot);
        distance := posSlot;
      } else {
        var numDirectBits := posSlot / 2 - 1;
        var lead := 2 + posSlot % 2;
        ShlSlot(posSlot);
        if posSlot < 14 {
          SpecTable(posSlot);
          distance := SlotStartOf(posSlot);
          distance := rc.ReverseDecode(probs, SPEC_POS + distance - posSlot - 1, numDirectBits, distance);
        } else {
          ghost var d2 := ParseDirect(rc.stream, rc.D(probs), numDirectBits - 4).1;
          DirectLater(rc.stream, rc.D(probs), numDirectBits - 4);
          ReverseLater(rc.stream, d2, ALIGN, 4, 1);
          distance := rc.DirectDecode(probs, numDirectBits - 4, lead);
          ShlSixteen(lead, numDirectBits);
          distance := rc.ReverseDecode(probs, ALIGN, 4, distance * 16);
        }
      }
    }

    // Which repeat it is, and how the distances move up; the short repeat moves nothing.
    method DecodeRepIndex(ghost v: View, posState: nat) returns (short: bool)
      requires ValidReps() && rc.Valid() && probs.Length >= LITERAL && state < 12
      requires v.state == state && v.posState == posState < 16
      requires rc.Fits(ParseRepIndex(rc.stream, rc.D(probs), v).1)
      modifies probs, reps, rc`range, rc`code, rc`buf
      ensures ValidReps() && rc.Valid()
      ensures var (i, d) := ParseRepIndex(rc.stream, old(rc.D(probs)), v);
        && rc.D(probs) == d && (short <==> i == None)
        && Shared() == Turn(old(Shared()), Rep(if i.Some? then i.value else 0, 0)).(state := state)
    {
      hide DecodeModel, Normalize;
      RepIndexShape(rc.stream, rc.D(probs), v);
      var g0 := rc.GetBit(probs, IS_REP_G0 + state);
      short := false;
      if g0 == 0 {
        var long := rc.GetBit(probs, IS_REP0_LONG + state * 16 + posState);
        short := long == 0;
      } else {
        var distance;
        var g1 := rc.GetBit(probs, IS_REP_G1 + state);
        if g1 == 0 {
          distance := reps[1];
        } else {
          var g2 := rc.GetBit(probs, IS_REP_G2 + state);
          if g2 == 0 {
            distance := reps[2];
          } else {
            distance := reps[3];
            reps[3] := reps[2];
          }
          reps[2] := reps[1];
        }
        reps[1] := reps[0];
        reps[0] := distance;
      }
    }

    // The bytes of a match, as many as fit below the limit; the rest is left over.
    method WriteMatch(limit: nat, size: nat) returns (left: nat)
      requires ValidReps() && ValidDic() && reps[0] <= Reach(p, hist)
      requires dicPos < limit <= dic.Length && size >= 1
      requires checkDicSize == 0 ==> |hist| + (limit - dicPos) <= p.dicSize
      modifies this`dicPos, this`processedPos, this`hist, dic
      ensures ValidDic()
      ensures var n := if limit - old(dicPos) < size then limit - old(dicPos) else size;
        && left == size - n && dicPos == old(dicPos) + n
        && hist == Copy(old(hist), reps[0] - 1, n)
    {
      hide Holds;
      var rem := limit - dicPos;
      var curLen := if rem < size then rem else size;
      left := size - curLen;
      WordNext(|hist|, curLen);
      processedPos := (processedPos + curLen) % WORD;
      CopyMatch(curLen);
    }

    // A match with a new distance: its length and distance, the end marker, or an error.
    method DecodeMatch(ghost v: View, posState: nat) returns (ok: bool, mark: bool, len: nat)
      requires Valid() && v.state == state && v.posState == posState < 16
      requires checkDicSize == 0 ==> |hist| < p.dicSize
      requires rc.Fits(ParseMatch(rc.stream, rc.D(probs), v).1)
      modifies probs, reps, this`state, rc`range, rc`code, rc`buf
      ensures ValidReps() && rc.Valid()
      ensures var (sym, d) := ParseMatch(rc.stream, old(rc.D(probs)), v);
        && sym.Match? && rc.D(probs) == d
        && mark == IsEndMark(sym) && ok == (mark || Allowed(p, old(Shared()), sym))
        && len == sym.len
        && (mark ==> Shared() == old(Shared()))
        && (ok && !mark ==> Shared() == Turn(old(Shared()), sym))
    {
      hide DecodeModel, Normalize, ParseLength, ParseDistance, NumProbs, Holds;
      TableSize(p);
      MatchShape(rc.stream, rc.D(probs), v);
      len := DecodeLength(LEN_CODER, posState);
      var distance := DecodeDistance(len);
      ok, mark := true, false;
      if distance == MAX_DIST {
        mark := true;
        return;
      }
      reps[3] := reps[2];
      reps[2] := reps[1];
      reps[1] := reps[0];
      reps[0] := distance + 1;
      if checkDicSize == 0 {
        if distance >= processedPos {
          ok := false;
        }
      } else if distance >= checkDicSize {
        ok := false;
      }
      state := if state < NUM_LIT_STATES then 7 else 10;
    }

    // What decoding the symbol sym from the shared state z, with room bytes left below the
    // limit, must have done. left is what the limit cuts off; 274 and up mean the end marker.
    ghost predicate Done(z: Lz, pos: nat, room: nat, sym: Symbol, d: Dec, ok: bool, left: nat)
      reads this, rc, probs, dic, reps
      requires ValidLz(p, z) && room >= 1
    {
      && WellFormed(sym) && ok == (IsEndMark(sym) || Allowed(p, z, sym))
      && (ok ==> Valid() && rc.D(probs) == d)
      && (ok && IsEndMark(sym) ==> Shared() == z && left == sym.len + MATCH_SPEC_LEN_START && dicPos == pos)
      && (ok && !IsEndMark(sym) ==>
            var n := if SymbolSize(sym) <= room then SymbolSize(sym) else room;
            && Shared() == Apply(p, z, sym, n)
            && left == SymbolSize(sym) - n < MATCH_SPEC_LEN_START && dicPos == pos + n)
    }

    method DecodeLiteralSymbol(ghost v: View, limit: nat)
      requires Valid() && dicPos < limit <= dic.Length && v == ViewOf(p, Shared())
      requires checkDicSize == 0 ==> |hist| < p.dicSize
      requires rc.Fits(ParseLiteral(rc.stream, rc.D(probs), v).1)
      modifies this`dicPos, this`processedPos, this`state, this`hist, dic, probs, rc`range, rc`code, rc`buf
      ensures var (sym, d) := ParseLiteral(rc.stream, old(rc.D(probs)), v);
        Done(old(Shared()), old(dicPos), limit - old(dicPos), sym, d, true, 0)
    {
      hide ParseLiteral, ViewOf, NumProbs, Apply, RangeDec.Fits;
      DecodeLiteral(v);
    }

    // The end of a symbol that copies: its bytes, up to the limit.
    method CompleteMatch(ghost z: Lz, ghost sym: Symbol, limit: nat, len: nat) returns (left: nat)
      requires ValidReps() && ValidDic() && rc.Valid() && probs.Length == NumProbs(p)
      requires dicPos < limit <= dic.Length
      requires checkDicSize == 0 ==> |hist| + (limit - dicPos) <= p.dicSize
      requires ValidLz(p, z) && WellFormed(sym) && Allowed(p, z, sym) && !IsEndMark(sym)
      requires (sym.Match? || sym.Rep?) && len == sym.len && Shared() == Turn(z, sym)
      modifies this`dicPos, this`processedPos, this`hist, dic
      ensures Done(z, old(dicPos), limit - old(dicPos), sym, rc.D(probs), true, left)
    {
      hide NumProbs, Apply, Holds, Turn, Copy, Reach, RangeDec.Valid, ProbAt;
      TurnReach(p, z, sym);
      left := WriteMatch(limit, len + 2);
      ghost var n := SymbolSize(sym) - left;
      ApplyTurn(p, z, sym, n);
      assert Shared() == Apply(p, z, sym, n);
    }

    method CompleteShort(ghost z: Lz, ghost limit: nat)
      requires ValidReps() && ValidDic() && rc.Valid() && probs.Length == NumProbs(p)
      requires dicPos < limit <= dic.Length && (checkDicSize == 0 ==> |hist| < p.dicSize)
      requires ValidLz(p, z) && z.hist != [] && Shared() == Turn(z, ShortRep)
      modifies this`dicPos, this`processedPos, this`hist, dic
      ensures Done(z, old(dicPos), limit - old(dicPos), ShortRep, rc.D(probs), true, 0)
    {
      hide NumProbs, Apply, Holds, Turn, Copy, RangeDec.Valid, ProbAt;
      TurnReach(p, z, ShortRep);
      ApplyShort(p, z);
      var b := ByteBack(reps[0]);
      PutOne(b);
      assert Shared() == Apply(p, z, ShortRep, 1);
    }

    method DecodeMatchSymbol(ghost v: View, posState: nat, limit: nat) returns (ok: bool, left: nat)
      requires Valid() && dicPos < limit <= dic.Length && v == ViewOf(p, Shared()) && v.posState == posState < 16
      requires checkDicSize == 0 ==> |hist| + (limit - dicPos) <= p.dicSize
      requires rc.Fits(ParseMatch(rc.stream, rc.D(probs), v).1)
      modifies this`dicPos, this`processedPos, this`state, this`hist, dic, probs, reps, rc`range, rc`code, rc`buf
      ensures var (sym, d) := ParseMatch(rc.stream, old(rc.D(probs)), v);
        Done(old(Shared()), old(dicPos), limit - old(dicPos), sym, d, ok, left)
    {
      hide ParseMatch, ViewOf, NumProbs, Apply, Holds, Turn, Done, RangeDec.Fits, RangeDec.Valid, Learn, LengthBits,
        DistanceBits;
      ViewIs(p, Shared());
      MatchParses(rc.stream, rc.D(probs), v, 0, 0);
      ghost var z, pos, sym := Shared(), dicPos, ParseMatch(rc.stream, rc.D(probs), v).0;
      var mark, len;
      ok, mark, len := DecodeMatch(v, posState);
      left := len + MATCH_SPEC_LEN_START;
      if mark {
        MarkSeen(z, pos, limit - pos, sym, rc.D(probs), left);
      } else if ok {
        left := CompleteMatch(z, sym, limit, len);
      } else {
        MatchRefused(z, pos, limit - pos, sym, rc.D(probs), left);
      }
    }

    lemma MarkSeen(z: Lz, pos: nat, room: nat, sym: Symbol, d: Dec, left: nat)
      requires ValidLz(p, z) && room >= 1 && WellFormed(sym) && IsEndMark(sym) && dicPos == pos
      requires Valid() && rc.D(probs) == d && Shared() == z && left == sym.len + MATCH_SPEC_LEN_START
      ensures Done(z, pos, room, sym, d, true, left)
    {}

    lemma MatchRefused(z: Lz, pos: nat, room: nat, sym: Symbol, d: Dec, left: nat)
      requires ValidLz(p, z) && room >= 1 && WellFormed(sym) && !IsEndMark(sym) && !Allowed(p, z, sym)
      ensures Done(z, pos, room, sym, d, false, left)
    {}

    // A short repeat, or a repeat with its length still to be written.
    method DecodeRep(ghost v: View, posState: nat) returns (short: bool, len: nat)
      requires ValidReps() && rc.Valid() && probs.Length >= LITERAL + LIT_SIZE && state < 12
      requires v.state == state && v.posState == posState < 16
      requires rc.Fits(ParseRep(rc.stream, rc.D(probs), v).1)
      modifies probs, reps, this`state, rc`range, rc`code, rc`buf
      ensures ValidReps() && rc.Valid()
      ensures var (sym, d) := ParseRep(rc.stream, old(rc.D(probs)), v);
        && rc.D(probs) == d && (short <==> sym.ShortRep?) && (!short ==> sym.Rep? && sym.index < 4 && len == sym.len)
        && Shared() == Turn(old(Shared()), sym)
    {
      hide DecodeModel, Normalize, ParseLength, ParseRepIndex;
      RepShape(rc.stream, rc.D(probs), v);
      short := DecodeRepIndex(v, posState);
      len := 0;
      if short {
        state := if state < NUM_LIT_STATES then 9 else 11;
      } else {
        state := if state < NUM_LIT_STATES then 8 else 11;
        len := DecodeLength(REP_LEN_CODER, posState);
      }
    }

    // What a repeat copies, once its kind and its length are known.
    method CompleteRep(ghost z: Lz, ghost sym: Symbol, limit: nat, short: bool, len: nat) returns (left: nat)
      requires ValidReps() && ValidDic() && rc.Valid() && probs.Length == NumProbs(p)
      requires dicPos < limit <= dic.Length
      requires checkDicSize == 0 ==> |hist| + (limit - dicPos) <= p.dicSize
      requires ValidLz(p, z) && WellFormed(sym) && Allowed(p, z, sym) && Shared() == Turn(z, sym)
      requires if short then sym == ShortRep else sym.Rep? && len == sym.len
      modifies this`dicPos, this`processedPos, this`hist, dic
      ensures Done(z, old(dicPos), limit - old(dicPos), sym, rc.D(probs), true, left)
    {
      hide NumProbs, Holds, Turn, Done, RangeDec.Valid, RangeDec.D, ProbAt, ValidLz;
      left := 0;
      if short {
        CompleteShort(z, limit);
      } else {
        left := CompleteMatch(z, sym, limit, len);
      }
    }

    // With no data yet there is nothing to repeat.
    lemma RepeatRefused(z: Lz, pos: nat, room: nat, sym: Symbol, d: Dec)
      requires ValidLz(p, z) && room >= 1 && z.hist == [] && WellFormed(sym) && (sym.Rep? || sym.ShortRep?)
      ensures Done(z, pos, room, sym, d, false, 0)
    {}

    lemma NothingYet()
      requires Valid()
      ensures checkDicSize == 0 && (|hist| < WORD) ==> (processedPos == 0 <==> hist == [])
      ensures checkDicSize != 0 ==> hist != []
    {}

    method DecodeRepSymbol(ghost v: View, posState: nat, limit: nat) returns (ok: bool, left: nat)
      requires Valid() && dicPos < limit <= dic.Length && v == ViewOf(p, Shared()) && v.posState == posState < 16
      requires checkDicSize == 0 ==> |hist| + (limit - dicPos) <= p.dicSize
      requires rc.Fits(ParseRep(rc.stream, rc.D(probs), v).1)
      modifies this`dicPos, this`processedPos, this`state, this`hist, dic, probs, reps, rc`range, rc`code, rc`buf
      ensures var (sym, d) := ParseRep(rc.stream, old(rc.D(probs)), v);
        Done(old(Shared()), old(dicPos), limit - old(dicPos), sym, d, ok, left)
    {
      hide ParseRep, ViewOf, NumProbs, Apply, Holds, Turn, Done, RangeDec.Fits, RangeDec.Valid, Learn, RepBits,
        LengthBits;
      TableSize(p);
      ViewIs(p, Shared());
      RepParses(rc.stream, rc.D(probs), v, 0, 0);
      ghost var z, sym, d := Shared(), ParseRep(rc.stream, rc.D(probs), v).0, ParseRep(rc.stream, rc.D(probs), v).1;
      NothingYet();
      if checkDicSize == 0 && processedPos == 0 {
        RepeatRefused(z, dicPos, limit - dicPos, sym, d);
        return false, 0;
      }
      ok := true;
      var short, len := DecodeRep(v, posState);
      left := CompleteRep(z, sym, limit, short, len);
    }

    method DecodeSymbol(limit: nat) returns (ok: bool, left: nat)
      requires Valid() && dicPos < limit <= dic.Length
      requires checkDicSize == 0 ==> |hist| + (limit - dicPos) <= p.dicSize
      requires rc.Fits(ParseSymbol(rc.stream, rc.D(probs), ViewOf(p, Shared())).1)
      modifies this`dicPos, this`processedPos, this`state, this`hist, dic, probs, reps, rc`range, rc`code, rc`buf
      ensures var (sym, d) := ParseSymbol(rc.stream, old(rc.D(probs)), ViewOf(p, old(Shared())));
        Done(old(Shared()), old(dicPos), limit - old(dicPos), sym, d, ok, left)
    {
      hide DecodeModel, Normalize, ParseLiteral, ParseMatch, ParseRep, NumProbs, Holds, ViewOf, Done, Pow2;
      TableSize(p);
      ViewIs(p, Shared());
      WordMask(|hist|, p.pb);
      ghost var v := ViewOf(p, Shared());
      SymbolShape(rc.stream, rc.D(probs), v);
      ok, left := true, 0;
      var posState := processedPos % Pow2(p.pb);
      var isMatch := rc.GetBit(probs, IS_MATCH + state * 16 + posState);
      if isMatch == 0 {
        DecodeLiteralSymbol(v, limit);
      } else {
        var isRep := rc.GetBit(probs, IS_REP + state);
        if isRep == 0 {
          ok, left := DecodeMatchSymbol(v, posState, limit);
        } else {
          ok, left := DecodeRepSymbol(v, posState, limit);
        }
      }
    }

    // The decoder's state as a state of the stream model.
    ghost function S(): St
      reads this`state, this`hist, this`remainLen, rc, probs, reps
      requires ValidReps()
    {
      St(rc.D(probs), Shared(), if remainLen < MATCH_SPEC_LEN_START then remainLen else 0,
         remainLen >= MATCH_SPEC_LEN_START)
    }

    // Where the next symbol ends in the stream.
    ghost function SymbolEnd(): nat
      reads this`state, this`hist, rc, probs, reps
      requires ValidReps()
    {
      Normalize(rc.stream, ParseSymbol(rc.stream, rc.D(probs), ViewOf(p, Shared())).1).pos
    }

    // One symbol, with what is left of it kept in remainLen.
    method DecodeStep(limit: nat) returns (ok: bool)
      requires Valid() && dicPos < limit <= dic.Length && remainLen == 0
      requires checkDicSize == 0 ==> |hist| + (limit - dicPos) <= p.dicSize
      requires rc.Fits(ParseSymbol(rc.stream, rc.D(probs), ViewOf(p, Shared())).1)
      modifies this`dicPos, this`processedPos, this`state, this`hist, this`remainLen, dic, probs, reps,
               rc`range, rc`code, rc`buf
      ensures ok ==> rc.buf >= old(rc.buf) && Normalize(rc.stream, rc.D(probs)).pos == old(SymbolEnd())
      ensures ok ==> Valid() && rc.Fits(rc.D(probs)) && |hist| - dicPos == old(|hist| - dicPos) && dicPos <= limit
      ensures Step(p, old(|hist| + (limit - dicPos)), rc.stream, old(S())) ==
        if ok then Stopped(Norm(rc.stream, S())) else Failed
    {
      hide ParseSymbol, ViewOf, Normalize, Apply, NumProbs, Holds, DecodeModel;
      ghost var near, s := |hist| + (limit - dicPos), S();
      SymbolShape(rc.stream, rc.D(probs), ViewOf(p, Shared()));
      SymbolForward(rc.stream, rc.D(probs), ViewOf(p, Shared()));
      ok, remainLen := DecodeSymbol(limit);
    }

    // One turn of the loop below. more tells that the output has room and that a whole further
    // symbol is sure to be in the input.
    method DecodeNext(limit: nat, bufLimit: nat, ghost total: nat) returns (ok: bool, more: bool)
      requires Valid() && dicPos < limit <= dic.Length && remainLen == 0
      requires checkDicSize == 0 ==> |hist| + (limit - dicPos) <= p.dicSize
      requires |hist| + (limit - dicPos) <= total
      requires rc.Fits(ParseSymbol(rc.stream, rc.D(probs), ViewOf(p, Shared())).1)
      requires bufLimit <= rc.buf || bufLimit + REQUIRED_INPUT_MAX <= |rc.src|
      modifies this`dicPos, this`processedPos, this`state, this`hist, this`remainLen, dic, probs, reps,
               rc`range, rc`code, rc`buf
      ensures ok ==> Valid() && |hist| - dicPos == old(|hist| - dicPos) && old(dicPos) <= dicPos <= limit
      ensures ok ==> rc.buf >= old(rc.buf) && rc.Fits(rc.D(probs))
      ensures ok ==> Normalize(rc.stream, rc.D(probs)).pos == old(SymbolEnd())
      ensures more ==> ok && dicPos < limit && remainLen == 0 && SymbolEnd() >= old(SymbolEnd())
      ensures more ==> rc.Fits(ParseSymbol(rc.stream, rc.D(probs), ViewOf(p, Shared())).1)
      ensures ok && 0 < remainLen < MATCH_SPEC_LEN_START ==> dicPos == limit && reps[0] <= |hist|
      ensures ok && remainLen >= MATCH_SPEC_LEN_START ==> dicPos < limit
      ensures ok ==> remainLen >= MATCH_SPEC_LEN_START || dicPos > old(dicPos)
      ensures Run(p, total, rc.stream, old(Norm(rc.stream, S()))) ==
        if !ok then Failed
        else if more then Run(p, total, rc.stream, Norm(rc.stream, S()))
        else Finished(p, total, rc.stream, Norm(rc.stream, S()))
    {
      hide ParseSymbol, ViewOf, Normalize, Step, Run, NumProbs, Holds, DecodeModel, Complete;
      ghost var near, s := |hist| + (limit - dicPos), S();
      ok := DecodeStep(limit);
      RunByPart(p, near, total, rc.stream, s);
      if !ok {
        return false, false;
      }
      StepGrows(p, near, rc.stream, s);
      StepDone(p, near, rc.stream, s);
      FinishedIs(p, total, rc.stream, Norm(rc.stream, S()));
      more := remainLen < MATCH_SPEC_LEN_START && dicPos < limit && rc.buf < bufLimit;
      if more {
        CompleteNone(total, Norm(rc.stream, S()));
        NormalizePos(rc.stream, rc.D(probs));
        SymbolTwentyBytes(rc.stream, rc.D(probs), ViewOf(p, Shared()));
        SymbolShape(rc.stream, rc.D(probs), ViewOf(p, Shared()));
      }
    }

    // The first symbol is always decoded, then more while there is room and input. The limit
    // may be nearer than the real one (total), so that the dictionary check starts in time.
    method DecodeReal(limit: nat, bufLimit: nat, ghost total: nat) returns (ok: bool)
      requires Valid() && dicPos < limit <= dic.Length && remainLen == 0
      requires checkDicSize == 0 ==> |hist| + (limit - dicPos) <= p.dicSize
      requires |hist| + (limit - dicPos) <= total
      requires rc.Fits(ParseSymbol(rc.stream, rc.D(probs), ViewOf(p, Shared())).1)
      requires bufLimit <= rc.buf || bufLimit + REQUIRED_INPUT_MAX <= |rc.src|
      modifies this`dicPos, this`processedPos, this`state, this`hist, this`remainLen, dic, probs, reps,
               rc`range, rc`code, rc`buf
      ensures ok ==> Valid() && rc.range >= TOP && |hist| - dicPos == old(|hist| - dicPos) && dicPos <= limit
      ensures ok && 0 < remainLen < MATCH_SPEC_LEN_START ==> dicPos == limit && reps[0] <= |hist|
      ensures ok ==> remainLen >= MATCH_SPEC_LEN_START || dicPos > old(dicPos)
      ensures ok && remainLen >= MATCH_SPEC_LEN_START ==> dicPos < limit
      ensures ok ==> rc.buf >= old(rc.buf) && dicPos >= old(dicPos)
      ensures ok ==> rc.base + rc.buf >= old(SymbolEnd())
      ensures Run(p, total, rc.stream, old(Norm(rc.stream, S()))) ==
        if ok then Finished(p, total, rc.stream, S()) else Failed
    {
      hide ParseSymbol, ViewOf, Normalize, Step, Run, NumProbs, Holds, DecodeModel, Complete, SymbolEnd, Finished;
      ghost var start, pos, end := Norm(rc.stream, S()), dicPos, SymbolEnd();
      ghost var near := |hist| + (limit - dicPos);
      var more := true;
      ok := true;
      while more
        invariant ok && |hist| - dicPos == old(|hist| - dicPos) && pos <= dicPos <= limit
        invariant rc.buf >= old(rc.buf)
        invariant Valid() && (more ==> dicPos < limit && remainLen == 0)
        invariant end <= (if more then SymbolEnd() else Normalize(rc.stream, rc.D(probs)).pos)
        invariant !more ==> rc.Fits(rc.D(probs))
        invariant more ==> rc.Fits(ParseSymbol(rc.stream, rc.D(probs), ViewOf(p, Shared())).1)
        invariant checkDicSize == 0 ==> near <= p.dicSize
        invariant 0 < remainLen < MATCH_SPEC_LEN_START ==> dicPos == limit && reps[0] <= |hist|
        invariant remainLen >= MATCH_SPEC_LEN_START ==> dicPos < limit
        invariant !more ==> remainLen >= MATCH_SPEC_LEN_START || dicPos > pos
        invariant Run(p, total, rc.stream, start) ==
          if more then Run(p, total, rc.stream, Norm(rc.stream, S()))
          else Finished(p, total, rc.stream, Norm(rc.stream, S()))
        decreases more, limit - dicPos
      {
        ok, more := DecodeNext(limit, bufLimit, total);
        if !ok {
          return;
        }
      }
      NormalizePos(rc.stream, rc.D(probs));
      rc.NormalizeRange(probs);
    }

    // The dictionary check is on from the moment the dictionary could be full.
    ghost predicate Settled()
      reads this
    {
      checkDicSize == 0 ==> |hist| < p.dicSize
    }

    // Counts len bytes that are about to be written.
    method Account(len: nat)
      requires ValidDic() && Settled()
      modifies this`processedPos, this`checkDicSize
      ensures processedPos == (|hist| + len) % WORD
      ensures checkDicSize == 0 ==> |hist| + len < p.dicSize
      ensures checkDicSize != 0 ==> checkDicSize == p.dicSize <= |hist| + len
    {
      hide Holds;
      if checkDicSize == 0 && p.dicSize - processedPos <= len {
        checkDicSize := p.dicSize;
      }
      WordNext(|hist|, len);
      processedPos := (processedPos + len) % WORD;
    }

    // The bytes a limit cut off the last match.
    method WriteRem(limit: nat)
      requires ValidReps() && ValidDic() && ValidLz(p, Shared()) && Settled() && dicPos <= limit <= dic.Length
      requires 0 < remainLen < MATCH_SPEC_LEN_START ==> reps[0] <= |hist|
      modifies this`dicPos, this`processedPos, this`checkDicSize, this`hist, this`remainLen, dic
      ensures ValidReps() && ValidDic() && ValidLz(p, Shared()) && Settled() && dicPos <= limit
      ensures |hist| - dicPos == old(|hist| - dicPos)
      ensures S() == Complete(old(|hist| + (limit - dicPos)), old(S()))
      ensures 0 < remainLen < MATCH_SPEC_LEN_START ==> dicPos == limit
      ensures dicPos >= old(dicPos) && (remainLen >= MATCH_SPEC_LEN_START <==> old(remainLen) >= MATCH_SPEC_LEN_START)
      ensures remainLen >= MATCH_SPEC_LEN_START ==> dicPos == old(dicPos)
    {
      hide Holds, Copy, NumProbs, RangeDec.Valid, RangeDec.D, ProbAt, ValidLz, Reach;
      if remainLen != 0 && remainLen < MATCH_SPEC_LEN_START {
        var len := remainLen;
        var rep0 := reps[0];
        if limit - dicPos < len {
          len := limit - dicPos;
        }
        Account(len);
        remainLen := remainLen - len;
        CopiedLz(p, Shared(), len);
        CopyRem(len);
      }
    }

    // The same, as the rest of the run up to the limit sees it.
    method FinishMatch(limit: nat, ghost total: nat)
      requires Valid() && Settled() && dicPos <= limit <= dic.Length && total == |hist| + (limit - dicPos)
      requires 0 < remainLen < MATCH_SPEC_LEN_START ==> reps[0] <= |hist|
      modifies this`dicPos, this`processedPos, this`checkDicSize, this`hist, this`remainLen, dic
      ensures Valid() && Settled() && old(dicPos) <= dicPos <= limit && total == |hist| + (limit - dicPos)
      ensures Finished(p, total, rc.stream, old(S())) == Run(p, total, rc.stream, S())
      ensures 0 < remainLen < MATCH_SPEC_LEN_START ==> dicPos == limit
      ensures remainLen >= MATCH_SPEC_LEN_START <==> old(remainLen) >= MATCH_SPEC_LEN_START
    {
      hide Run, NumProbs, Holds, Complete, Finished, RangeDec.Valid;
      ghost var s := S();
      WriteRem(limit);
      FinishedIs(p, total, rc.stream, s);
    }

    method CopyRem(total: nat)
      requires ValidReps() && Holds(dic[..], dicPos, hist) && dicPos + total <= dic.Length
      requires reps[0] <= |hist| && reps[0] <= dic.Length
      modifies this`dicPos, this`hist, dic
      ensures Holds(dic[..], dicPos, hist) && dicPos == old(dicPos) + total
      ensures hist == Copy(old(hist), reps[0] - 1, total)
    {
      hide Holds, Copy;
      var rep0, len := reps[0], total;
      while len != 0
        invariant 0 <= len <= total && dicPos + len == old(dicPos) + total
        invariant rep0 <= |hist| && Holds(dic[..], dicPos, hist)
        invariant Copy(hist, rep0 - 1, len) == Copy(old(hist), rep0 - 1, total)
      {
        HoldsBack(dic[..], dicPos, hist, rep0);
        CopyStep(hist, rep0 - 1, len);
        PutByte(dic[if dicPos < rep0 then dicPos - rep0 + dic.Length else dicPos - rep0]);
        len := len - 1;
      }
      CopyNone(hist, rep0 - 1);
    }

    // The limit, or the place where the dictionary check has to start.
    method NearLimit(limit: nat) returns (limit2: nat)
      requires ValidDic() && Settled() && dicPos < limit
      ensures dicPos < limit2 <= limit
      ensures checkDicSize == 0 ==> |hist| + (limit2 - dicPos) <= p.dicSize
    {
      hide Holds;
      limit2 := limit;
      if checkDicSize == 0 {
        var rem := p.dicSize - processedPos;
        if limit - dicPos > rem {
          limit2 := dicPos + rem;
        }
      }
    }

    // One turn of the loop below: up to the dictionary size at most, then what was cut off.
    method DecodePart(limit: nat, bufLimit: nat) returns (ok: bool)
      requires Valid() && Settled() && dicPos < limit <= dic.Length && remainLen == 0
      requires rc.Fits(ParseSymbol(rc.stream, rc.D(probs), ViewOf(p, Shared())).1)
      requires bufLimit <= rc.buf || bufLimit + REQUIRED_INPUT_MAX <= |rc.src|
      modifies this`dicPos, this`processedPos, this`checkDicSize, this`state, this`hist, this`remainLen,
               dic, probs, reps, rc`range, rc`code, rc`buf
      ensures ok ==> Valid() && Settled() && rc.range >= TOP && rc.buf >= old(rc.buf)
      ensures ok ==> |hist| - dicPos == old(|hist| - dicPos) && old(dicPos) <= dicPos <= limit
      ensures ok ==> remainLen >= MATCH_SPEC_LEN_START || dicPos > old(dicPos)
      ensures ok && 0 < remainLen < MATCH_SPEC_LEN_START ==> dicPos == limit
      ensures ok ==> rc.base + rc.buf >= old(SymbolEnd())
      ensures Run(p, old(|hist| + (limit - dicPos)), rc.stream, old(Norm(rc.stream, S()))) ==
        if ok then Run(p, |hist| + (limit - dicPos), rc.stream, S()) else Failed
    {
      hide ParseSymbol, ViewOf, Normalize, Step, Run, NumProbs, Holds, DecodeModel, Complete, RangeDec.Valid,
        SymbolEnd, Finished;
      ghost var total := |hist| + (limit - dicPos);
      var limit2 := NearLimit(limit);
      ok := DecodeReal(limit2, bufLimit, total);
      if ok {
        if processedPos >= p.dicSize {
          checkDicSize := p.dicSize;
        }
        FinishMatch(limit, total);
      }
    }

    // Decodes up to the limit.
    method DecodeReal2(limit: nat, bufLimit: nat) returns (ok: bool)
      requires Valid() && Settled() && dicPos < limit <= dic.Length && remainLen == 0
      requires rc.Fits(ParseSymbol(rc.stream, rc.D(probs), ViewOf(p, Shared())).1)
      requires bufLimit <= rc.buf || bufLimit + REQUIRED_INPUT_MAX <= |rc.src|
      modifies this`dicPos, this`processedPos, this`checkDicSize, this`state, this`hist, this`remainLen,
               dic, probs, reps, rc`range, rc`code, rc`buf
      ensures ok ==> Valid() && Settled() && rc.range >= TOP && remainLen <= MATCH_SPEC_LEN_START
      ensures ok ==> |hist| - dicPos == old(|hist| - dicPos) && dicPos <= limit
      ensures ok ==> remainLen == MATCH_SPEC_LEN_START || dicPos > old(dicPos)
      ensures ok && 0 < remainLen < MATCH_SPEC_LEN_START ==> dicPos == limit
      ensures ok ==> rc.base + rc.buf >= old(SymbolEnd())
      ensures Run(p, old(|hist| + (limit - dicPos)), rc.stream, old(Norm(rc.stream, S()))) ==
        if ok then Run(p, |hist| + (limit - dicPos), rc.stream, S()) else Failed
    {
      hide ParseSymbol, ViewOf, Normalize, Step, Run, NumProbs, Holds, DecodeModel, Complete, SymbolEnd;
      ghost var total, start, pos := |hist| + (limit - dicPos), Norm(rc.stream, S()), dicPos;
      ghost var first, end := true, SymbolEnd();
      var more := true;
      ok := true;
      while more
        invariant ok && |hist| - dicPos == old(|hist| - dicPos) && pos <= dicPos <= limit
        invariant Valid() && Settled() && rc.buf >= old(rc.buf)
        invariant more ==> dicPos < limit && remainLen == 0
        invariant more ==> rc.Fits(ParseSymbol(rc.stream, rc.D(probs), ViewOf(p, Shared())).1)
        invariant !more ==> rc.range >= TOP && (remainLen >= MATCH_SPEC_LEN_START || dicPos > pos)
        invariant 0 < remainLen < MATCH_SPEC_LEN_START ==> dicPos == limit
        invariant if first then more && SymbolEnd() == end else rc.base + rc.buf >= end
        invariant Run(p, total, rc.stream, start) ==
          Run(p, total, rc.stream, if more then Norm(rc.stream, S()) else S())
        decreases more, limit - dicPos
      {
        ok := DecodePart(limit, bufLimit);
        if !ok {
          return;
        }
        first := false;
        more := dicPos < limit && rc.buf < bufLimit && remainLen < MATCH_SPEC_LEN_START;
        if more {
          NormalAlready(rc.stream, S());
          SymbolTwentyBytes(rc.stream, rc.D(probs), ViewOf(p, Shared()));
        }
      }
      if remainLen > MATCH_SPEC_LEN_START {
        remainLen := MATCH_SPEC_LEN_START;
      }
    }

    method DummyLiteral(q: Probe, ghost v: View) returns (err: bool)
      requires Valid() && v == ViewOf(p, Shared())
      requires q.Valid() && q.probs == probs && forall c :: c in q.used ==> c < LITERAL
      modifies q
      ensures q.Valid()
      ensures var e := ParseLiteral(q.stream, old(q.d), v).1;
        (err ==> !q.Runs(e)) && (!err ==> q.d == e)
    {
      hide DecodeModel, Normalize, ParseGuided, Pow2, LiteralBase, Holds, NumProbs;
      TreeSizes();
      var prob := LiteralProb();
      if state < NUM_LIT_STATES {
        var v0;
        err, v0 := q.TreeDecodeCheck(prob, 8);
      } else {
        var matchByte := ByteBack(reps[0]);
        err := q.LitDecodeMatchedCheck(prob, matchByte);
      }
    }

    method DummyMatch(q: Probe, ghost v: View, posState: nat) returns (err: bool)
      requires v.posState == posState < 16 && q.probs.Length >= LITERAL
      requires q.Valid() && forall c :: c in q.used ==> c < IS_REP_G0
      modifies q
      ensures q.Valid()
      ensures var e := ParseMatch(q.stream, old(q.d), v).1;
        (err ==> !q.Runs(e)) && (!err ==> q.d == e)
    {
      hide DecodeModel, Normalize, ParseLength, ParseDistance;
      MatchShape(q.stream, q.d, v);
      var len;
      err, len := q.LengthCheck(LEN_CODER, posState);
      if !err {
        err := q.DistanceCheck(len);
      }
    }

    method DummyRep(q: Probe, ghost v: View, posState: nat) returns (err: bool)
      requires v.state == state < 12 && v.posState == posState < 16 && q.probs.Length >= LITERAL
      requires q.Valid() && forall c :: c in q.used ==> c < IS_REP_G0
      modifies q
      ensures q.Valid()
      ensures var e := ParseRep(q.stream, old(q.d), v).1;
        (err ==> !q.Runs(e)) && (!err ==> q.d == e)
    {
      hide DecodeModel, Normalize, ParseLength, ParseRepIndex;
      RepShape(q.stream, q.d, v);
      var short;
      err, short := q.RepIndexCheck(v, state, posState);
      if !err && !short {
        var len;
        err, len := q.LengthCheck(REP_LEN_CODER, posState);
      }
    }

    // Whether the bytes of src hold a whole symbol, and of which kind: exactly when the real
    // decoder would stay inside them. Nothing of the decoder changes.
    method TryDummy(src: seq<Byte>, ghost stream: seq<Byte>) returns (res: Dummy)
      requires Valid() && |src| <= |stream| && stream[|stream| - |src|..] == src
      ensures var d := Dec(rc.range, rc.code, |stream| - |src|, probs[..]);
        var (sym, e) := ParseSymbol(stream, d, ViewOf(p, Shared()));
        && res == (if Normalize(stream, e).pos > |stream| then DummyError else KindOf(sym))
        && (res == DummyError <==> Normalize(stream, e).pos > |stream|)
        && (res == DummyLit ==> sym.Literal?) && (res == DummyMatched ==> sym.Match?)
        && (res == DummyRepeat ==> sym.ShortRep? || sym.Rep?)
    {
      hide DecodeModel, Normalize, ParseLiteral, ParseMatch, ParseRep, NumProbs, Holds, ViewOf, Pow2;
      TableSize(p);
      ViewIs(p, Shared());
      WordMask(|hist|, p.pb);
      ghost var v := ViewOf(p, Shared());
      var q := new Probe(rc.range, rc.code, src, probs, stream);
      SymbolShape(stream, q.d, v);
      SymbolKinds(stream, q.d, v);
      var kind := DummyLit;
      var posState := processedPos % Pow2(p.pb);
      var err, bit := q.GetBitCheck(IS_MATCH + state * 16 + posState);
      if err { return DummyError; }
      if bit == 0 {
        err := DummyLiteral(q, v);
      } else {
        err, bit := q.GetBitCheck(IS_REP + state);
        if err { return DummyError; }
        if bit == 0 {
          kind := DummyMatched;
          err := DummyMatch(q, v, posState);
        } else {
          kind := DummyRepeat;
          err := DummyRep(q, v, posState);
        }
      }
      if err { return DummyError; }
      err := q.NormalizeCheck();
      res := if err then DummyError else kind;
    }

    // ----- Decoding that can be cut at any byte of the input --------------------------------

    // Between calls. A pending state reset is the only thing that may be left undone.
    ghost predicate Idle()
      reads this, rc, probs, dic, reps
    {
      && ValidReps() && ValidDic() && Settled() && probs.Length == NumProbs(p)
      && tempBuf.Length == REQUIRED_INPUT_MAX && tempBuf != dic
      && 0x10000 < rc.range < WORD && rc.code < WORD
      && remainLen <= MATCH_SPEC_LEN_START
      && (if needInitState then remainLen == 0 else ValidLz(p, Shared()))
      && (0 < remainLen < MATCH_SPEC_LEN_START ==> reps[0] <= |hist|)
    }

    // The state with the pending reset done.
    ghost function Pending(): St
      reads this, rc, probs, reps
      requires ValidReps()
    {
      if needInitState
      then St(Dec(rc.range, rc.code, rc.base + rc.buf, FreshProbs(NumProbs(p))), Lz(0, 0, 0, 0, 0, hist), 0, false)
      else S()
    }

    ghost function Start(full: seq<Byte>): St
      reads this
      requires |full| >= RC_INIT_SIZE
    {
      St(DecStart(full, probs0), z0, 0, false)
    }

    // The state is the one that decoding all the taken input leads to, and what is in tempBuf is
    // the part of it that the next symbol starts with.
    ghost predicate InSync()
      reads this, rc, probs, dic, reps, tempBuf
      requires Idle()
    {
      && ValidLz(p, z0)
      && if needFlush then
           && tempBufSize < RC_INIT_SIZE && taken == tempBuf[..tempBufSize]
           && Pending().z == z0 && Pending().d.probs == probs0 && remainLen == 0
         else
           && |taken| >= RC_INIT_SIZE && taken[0] == 0 && rc.range >= TOP && |z0.hist| <= Nearest(Pending())
           && tempBufSize <= REQUIRED_INPUT_MAX && Pending().d.pos + tempBufSize == |taken|
           && taken[Pending().d.pos..] == tempBuf[..tempBufSize]
           && Run(p, Nearest(Pending()), taken, Start(taken)) == Stopped(Pending())
           && (tempBufSize > 0 ==> remainLen == 0 && Waiting(taken))
    }

    // The input ends inside the next symbol.
    ghost predicate Waiting(inp: seq<Byte>)
      reads this, rc, probs, dic, reps, tempBuf
      requires Idle()
    {
      Step(p, |hist| + 1, inp, Pending()).Starved?
    }

    // A new dictionary takes a new state as well.
    method Forget(initDic: bool, initState: bool)
      requires Idle()
      modifies this`processedPos, this`checkDicSize, this`hist, this`needInitState, this`remainLen
      ensures Idle() && remainLen == 0 && hist == (if initDic then [] else old(hist))
      ensures needInitState == (old(needInitState) || initDic || initState)
    {
      hide NumProbs, RangeDec.Valid, ValidLz;
      remainLen := 0;
      if initDic {
        processedPos, checkDicSize, hist := 0, 0, [];
        needInitState := true;
      }
      if initState {
        needInitState := true;
      }
    }

    lemma PendingValid()
      requires Idle()
      ensures ValidLz(p, Pending().z)
    {
      hide Holds, NumProbs;
    }

    // A new run of the range coder, with a new dictionary or a new state if wanted.
    method InitDicAndState(initDic: bool, initState: bool)
      requires Idle()
      modifies this
      ensures Idle() && needFlush && taken == [] && tempBufSize == 0
      ensures hist == (if initDic then [] else old(hist)) && dicPos == old(dicPos)
      ensures needInitState == (old(needInitState) || initDic || initState)
      ensures z0 == Pending().z && probs0 == Pending().d.probs
      ensures InSync()
    {
      hide Run, Step, NumProbs, ParseSymbol, Holds, ValidLz, RangeDec.Valid, FreshProbs;
      Forget(initDic, initState);
      needFlush, tempBufSize := true, 0;
      taken, z0, probs0 := [], Pending().z, Pending().d.probs;
      PendingValid();
    }

    method InitStateReal()
      requires Idle() && needInitState
      modifies probs, reps, this`state, this`needInitState
      ensures Idle() && !needInitState && S() == old(Pending())
    {
      var i := 0;
      while i < probs.Length
        invariant 0 <= i <= probs.Length
        invariant forall k :: 0 <= k < i ==> probs[k] == 1024
      {
        probs[i] := 1024;
        i := i + 1;
      }
      assert probs[..] == FreshProbs(NumProbs(p));
      reps[0], reps[1], reps[2], reps[3] := 1, 1, 1, 1;
      state := 0;
      needInitState := false;
    }

    // What tempBuf holds and then the input of the call from pos on are the rest of the stream.
    ghost predicate Queue(src: seq<Byte>, pos: nat, full: seq<Byte>)
      reads this`tempBufSize, rc`base, rc`buf, tempBuf
    {
      && pos <= |src| <= |full| && tempBufSize <= tempBuf.Length
      && rc.base + rc.buf + tempBufSize + (|src| - pos) == |full|
      && full[rc.base + rc.buf..] == tempBuf[..tempBufSize] + src[pos..]
    }

    // Moves input to tempBuf until it holds size bytes.
    method FillTemp(src: seq<Byte>, pos: nat, size: nat) returns (pos': nat)
      requires pos <= |src| && tempBufSize <= size <= tempBuf.Length
      modifies tempBuf, this`tempBufSize
      ensures pos <= pos' <= |src| && tempBufSize == old(tempBufSize) + (pos' - pos) <= size
      ensures tempBuf[..tempBufSize] == old(tempBuf[..tempBufSize]) + src[pos..pos']
      ensures tempBufSize == size || pos' == |src|
    {
      ghost var before := tempBuf[..tempBufSize];
      pos' := pos;
      while tempBufSize < size && pos' < |src|
        invariant pos <= pos' <= |src| && tempBufSize == |before| + (pos' - pos) <= size
        invariant tempBuf[..tempBufSize] == before + src[pos..pos']
        decreases |src| - pos'
      {
        tempBuf[tempBufSize] := src[pos'];
        tempBufSize := tempBufSize + 1;
        pos' := pos' + 1;
        assert src[pos..pos'] == src[pos..pos' - 1] + [src[pos' - 1]];
      }
    }

    method Refill(src: seq<Byte>, pos: nat, size: nat, ghost full: seq<Byte>) returns (pos': nat)
      requires Queue(src, pos, full) && tempBufSize <= size <= tempBuf.Length
      modifies tempBuf, this`tempBufSize
      ensures Queue(src, pos', full) && pos <= pos' <= |src| && tempBufSize == old(tempBufSize) + (pos' - pos) <= size
      ensures tempBufSize == size || pos' == |src|
    {
      pos' := FillTemp(src, pos, size);
      assert old(tempBuf[..tempBufSize]) + src[pos..] == tempBuf[..tempBufSize] + src[pos'..];
    }

    // Whether the next symbol is complete in the bytes the reader has been pointed at.
    method IsWhole(src: seq<Byte>, ghost limit: nat) returns (whole: bool)
      requires Idle() && !needInitState && rc.range >= TOP && |hist| < limit
      requires rc.Valid() && rc.buf == 0 && src == rc.src && rc.base + |src| == |rc.stream|
      ensures whole ==> SymbolEnd() <= rc.base + |src|
      ensures !whole ==> Step(p, limit, rc.stream, S()) == Starved(S())
    {
      hide ParseSymbol, ViewOf, Normalize, Run, NumProbs, Holds, DecodeModel, Apply;
      var dummyRes := TryDummy(src, rc.stream);
      whole := dummyRes != DummyError;
    }

    lemma IdleAgain()
      requires Valid() && Settled() && rc.range >= TOP && remainLen <= MATCH_SPEC_LEN_START && !needInitState
      requires 0 < remainLen < MATCH_SPEC_LEN_START ==> hist != []
      requires tempBuf.Length == REQUIRED_INPUT_MAX && tempBuf != dic
      ensures Idle()
    {
      hide NumProbs, Holds;
    }

    // What one piece of work has done, from state s and place pos in the dictionary.
    ghost predicate Worked(next: Next, limit: nat, full: seq<Byte>, s: St, pos: nat, dicLimit: nat)
      reads this`state, this`hist, this`remainLen, this`dicPos, rc, probs, reps
    {
      && ValidLz(p, s.z) && |s.z.hist| <= limit && (next != Broken ==> ValidReps())
      && match next
         case GoOn =>
           && (remainLen == MATCH_SPEC_LEN_START || dicPos > pos)
           && (0 < remainLen < MATCH_SPEC_LEN_START ==> dicPos == dicLimit)
           && ValidLz(p, Shared()) && |hist| <= limit
           && Run(p, limit, full, s) == Run(p, limit, full, S())
         case NeedMore =>
           && S() == s && dicPos == pos && remainLen == 0 && |hist| < limit
           && Step(p, limit, full, s) == Starved(s)
         case Broken => Run(p, limit, full, s) == Failed
    }

    // The common part of the next two: symbols from the bytes the reader has been pointed at,
    // after a dry run if these may not hold a whole one.
    method DecodeAttached(dicLimit: nat, bufLimit: nat, dry: bool) returns (next: Next)
      requires Idle() && !needInitState && remainLen == 0 && rc.range >= TOP && dicPos < dicLimit <= dic.Length
      requires rc.Valid() && rc.buf == 0
      requires if dry then bufLimit == 0 && rc.base + |rc.src| == |rc.stream|
               else |rc.src| >= REQUIRED_INPUT_MAX && bufLimit <= |rc.src| - REQUIRED_INPUT_MAX
      modifies this`dicPos, this`processedPos, this`checkDicSize, this`state, this`hist, this`remainLen,
               dic, probs, reps, rc`range, rc`code, rc`buf
      ensures next != Broken ==> Idle() && rc.range >= TOP && rc.Valid()
      ensures next != Broken ==> |hist| - dicPos == old(|hist| - dicPos) && dicPos <= dicLimit
      ensures Worked(next, old(|hist| + (dicLimit - dicPos)), rc.stream, old(S()), old(dicPos), dicLimit)
      ensures next == GoOn ==> rc.base + rc.buf >= old(SymbolEnd())
      ensures next == NeedMore ==> dry && rc.buf == 0
    {
      hide ParseSymbol, ViewOf, Normalize, Run, Step, NumProbs, Holds, DecodeModel, ValidLz;
      NormalAlready(rc.stream, S());
      SymbolTwentyBytes(rc.stream, rc.D(probs), ViewOf(p, Shared()));
      if dry {
        var whole := IsWhole(rc.src, |hist| + (dicLimit - dicPos));
        if !whole {
          return NeedMore;
        }
      }
      var ok := DecodeReal2(dicLimit, bufLimit);
      if !ok {
        return Broken;
      }
      IdleAgain();
      next := GoOn;
    }

    // Decoding straight from the input of the call: up to 20 bytes before its end without
    // looking, then one symbol at a time after a dry run.
    method FromSource(dicLimit: nat, src: seq<Byte>, pos: nat, ghost full: seq<Byte>)
        returns (next: Next, pos': nat)
      requires Idle() && !needInitState && tempBufSize == 0 && remainLen == 0 && rc.range >= TOP
      requires dicPos < dicLimit <= dic.Length && Queue(src, pos, full)
      modifies this`dicPos, this`processedPos, this`checkDicSize, this`state, this`hist, this`remainLen,
               this`tempBufSize, dic, probs, reps, tempBuf, rc
      ensures next != Broken ==> Idle() && rc.range >= TOP && Queue(src, pos', full)
      ensures next != Broken ==> |hist| - dicPos == old(|hist| - dicPos) && dicPos <= dicLimit
      ensures Worked(next, old(|hist| + (dicLimit - dicPos)), full, old(S()), old(dicPos), dicLimit)
      ensures next != Broken ==> pos <= pos' <= |src|
      ensures (next == NeedMore ==> pos' == |src|) && (next == GoOn ==> tempBufSize == 0)
    {
      hide Run, Step, NumProbs, Holds, ValidLz, Worked, Normalize, ParseSymbol, ViewOf;
      ghost var at := rc.base + rc.buf;
      AttachSource(src, pos, full);
      var dry := |src| - pos < REQUIRED_INPUT_MAX;
      next := DecodeAttached(dicLimit, if dry then 0 else |src| - pos - REQUIRED_INPUT_MAX, dry);
      pos' := pos;
      if next == NeedMore {
        pos' := Refill(src, pos, |src| - pos, full);
      } else if next == GoOn {
        pos' := pos + rc.buf;
        Advance(src, pos, full, at, []);
      }
    }

    method AttachSource(src: seq<Byte>, pos: nat, ghost full: seq<Byte>)
      requires 0x10000 < rc.range < WORD && rc.code < WORD && Queue(src, pos, full) && tempBufSize == 0
      modifies rc
      ensures rc.Valid() && rc.src == src[pos..] && rc.buf == 0 && rc.base == old(rc.base + rc.buf)
      ensures rc.stream == full && rc.range == old(rc.range) && rc.code == old(rc.code) && Queue(src, pos, full)
      ensures full[rc.base..] == [] + src[pos..]
    {
      rc.Attach(src[pos..], full);
    }

    method AttachTemp(ghost src: seq<Byte>, ghost pos: nat, ghost full: seq<Byte>)
      requires 0x10000 < rc.range < WORD && rc.code < WORD && Queue(src, pos, full)
      modifies rc
      ensures rc.Valid() && |rc.src| == tempBufSize && rc.buf == 0 && rc.base == old(rc.base + rc.buf)
      ensures rc.stream == full && rc.range == old(rc.range) && rc.code == old(rc.code) && Queue(src, pos, full)
    {
      ghost var at := rc.base + rc.buf;
      assert full[at..][..tempBufSize] == tempBuf[..tempBufSize];
      rc.Attach(tempBuf[..tempBufSize], full);
    }

    // The place in the input after decoding, past what tempBuf held before the call.
    lemma Advance(src: seq<Byte>, pos: nat, full: seq<Byte>, at: nat, held: seq<Byte>)
      requires tempBufSize == 0 && at + |held| <= rc.base + rc.buf <= |full|
      requires pos <= |src| <= |full| && full[at..] == held + src[pos..]
      ensures Queue(src, rc.base + rc.buf - at - |held| + pos, full)
    {
      assert full[rc.base + rc.buf..] == full[at..][rc.base + rc.buf - at..];
    }

    // Decoding one symbol that started in an earlier call, from tempBuf.
    method FromTemp(dicLimit: nat, src: seq<Byte>, pos: nat, ghost full: seq<Byte>)
        returns (next: Next, pos': nat)
      requires Idle() && !needInitState && 0 < tempBufSize <= REQUIRED_INPUT_MAX && remainLen == 0 && rc.range >= TOP
      requires dicPos < dicLimit <= dic.Length && Queue(src, pos, full)
      requires Waiting(full[..rc.base + rc.buf + tempBufSize])
      modifies this`dicPos, this`processedPos, this`checkDicSize, this`state, this`hist, this`remainLen,
               this`tempBufSize, dic, probs, reps, tempBuf, rc
      ensures next != Broken ==> Idle() && rc.range >= TOP && Queue(src, pos', full)
      ensures next != Broken ==> |hist| - dicPos == old(|hist| - dicPos) && dicPos <= dicLimit
      ensures Worked(next, old(|hist| + (dicLimit - dicPos)), full, old(S()), old(dicPos), dicLimit)
      ensures next != Broken ==> pos <= pos' <= |src|
      ensures (next == NeedMore ==> pos' == |src|) && (next == GoOn ==> tempBufSize == 0)
    {
      hide Run, Step, NumProbs, Holds, ValidLz, Worked, Normalize, ParseSymbol, ViewOf, Queue;
      ghost var at, held, had := rc.base + rc.buf, tempBuf[..tempBufSize], rc.base + rc.buf + tempBufSize;
      Held(src, pos, full);
      EndsLater(full, had);
      var look := Refill(src, pos, REQUIRED_INPUT_MAX, full);
      var rem := tempBufSize;
      AttachTemp(src, look, full);
      Held(src, look, full);
      next := DecodeAttached(dicLimit, 0, rem < REQUIRED_INPUT_MAX);
      pos' := look;
      if next == GoOn {
        pos' := look - (rem - rc.buf);
        tempBufSize := 0;
        Advance(src, pos, full, at, held);
      } else if next == NeedMore {
        StillHeld(src, look, full);
      }
    }

    lemma StillHeld(src: seq<Byte>, pos: nat, full: seq<Byte>)
      requires pos <= |src| <= |full| && tempBufSize <= tempBuf.Length
      requires rc.base + rc.buf + tempBufSize + (|src| - pos) == |full|
      requires full[rc.base + rc.buf..] == tempBuf[..tempBufSize] + src[pos..]
      ensures Queue(src, pos, full)
    {}

    lemma Held(src: seq<Byte>, pos: nat, full: seq<Byte>)
      requires Queue(src, pos, full)
      ensures pos <= |src| <= |full| && tempBufSize <= tempBuf.Length
      ensures rc.base + rc.buf + tempBufSize + (|src| - pos) == |full|
      ensures full[rc.base + rc.buf..] == tempBuf[..tempBufSize] + src[pos..]
    {}

    // A symbol that was not complete in the first bytes ends beyond them.
    lemma EndsLater(full: seq<Byte>, had: nat)
      requires Idle() && !needInitState && had <= |full| && Waiting(full[..had])
      ensures Normalize(full, ParseSymbol(full, rc.D(probs), ViewOf(p, Shared())).1).pos > had
    {
      hide ParseSymbol, ViewOf, Normalize, NumProbs, Holds, Step;
      StarvedStep(p, |hist| + 1, full[..had], full[had..], S());
      assert full[..had] + full[had..] == full;
    }

    // Inside a call: full is all the input of the stream so far, pos how much of the call's is used.
    ghost predicate Mid(limit: nat, src: seq<Byte>, pos: nat, full: seq<Byte>)
      reads this, rc, probs, dic, reps, tempBuf
    {
      && Idle() && !needFlush && rc.range >= TOP && tempBufSize <= REQUIRED_INPUT_MAX && Queue(src, pos, full)
      && |full| >= RC_INIT_SIZE && full[0] == 0 && ValidLz(p, z0) && |z0.hist| <= limit
      && |hist| <= limit && Run(p, limit, full, Start(full)) == Run(p, limit, full, Pending())
      && (0 < remainLen < MATCH_SPEC_LEN_START ==> |hist| == limit)
      && (tempBufSize > 0 ==> remainLen == 0 && pos == 0 && Waiting(full[..rc.base + rc.buf + tempBufSize]))
    }

    // What a call that had the input full to go on, already bytes of it from earlier calls, reports
    // and leaves behind.
    ghost predicate Agrees(limit: nat, full: seq<Byte>, already: nat, ok: bool, status: Status)
      reads this, rc, probs, dic, reps, tempBuf
    {
      if |full| < RC_INIT_SIZE then ok && needFlush && taken == full && status == NeedsMoreInput
      else if full[0] != 0 then !ok
      else
        && ValidLz(p, z0) && |z0.hist| <= limit
        && var r := Run(p, limit, full, Start(full));
        && ok == (if r.Stopped? then r.s.done ==> r.s.d.code == 0 else r.Starved?)
        && status == StatusOf(r)
        && (ok ==> ValidReps() && !needFlush && Pending() == r.s && already <= |full| && r.s.d.pos <= |full| &&
                   taken == if r.Starved? then full else full[..Max(already, r.s.d.pos)])
    }

    // One turn of the loop of DecodeToDic.
    method DecodeTurn(dicLimit: nat, src: seq<Byte>, pos: nat, ghost limit: nat, ghost full: seq<Byte>)
        returns (next: Next, pos': nat)
      requires Mid(limit, src, pos, full) && remainLen != MATCH_SPEC_LEN_START
      requires dicPos < dicLimit <= dic.Length && limit == |hist| + (dicLimit - dicPos)
      modifies this`dicPos, this`processedPos, this`checkDicSize, this`state, this`hist, this`remainLen,
               this`tempBufSize, this`needInitState, dic, probs, reps, tempBuf, rc
      ensures next == GoOn ==> Mid(limit, src, pos', full)
      ensures next == GoOn ==> remainLen == MATCH_SPEC_LEN_START || dicPos > old(dicPos)
      ensures next == GoOn ==> limit == |hist| + (dicLimit - dicPos) && dicPos <= dicLimit
      ensures next == NeedMore ==> Idle() && rc.range >= TOP && tempBufSize <= REQUIRED_INPUT_MAX
      ensures next == NeedMore ==> Queue(src, |src|, full) && pos' == |src| && remainLen == 0 && Waiting(full)
      ensures next == NeedMore ==> Run(p, limit, full, Start(full)) == Starved(Pending())
      ensures next == NeedMore ==> limit == |hist| + (dicLimit - dicPos) && dicPos < dicLimit
      ensures next == Broken ==> Run(p, limit, full, Start(full)) == Failed
      ensures next != Broken ==> pos <= pos' <= |src|
    {
      hide Step, Run, NumProbs, Holds, ValidLz, ParseSymbol, ViewOf, Normalize, Queue;
      Held(src, pos, full);
      ghost var s := Pending();
      if needInitState {
        InitStateReal();
      }
      assert Pending() == s;
      if tempBufSize == 0 {
        next, pos' := FromSource(dicLimit, src, pos, full);
      } else {
        next, pos' := FromTemp(dicLimit, src, pos, full);
      }
      if next == NeedMore {
        Held(src, pos', full);
        StarvedAnyLimit(p, limit, |hist| + 1, full, s);
        RunStarved(p, limit, full, s);
      }
    }

    lemma StartIs(full: seq<Byte>)
      requires |full| >= RC_INIT_SIZE && ValidLz(p, z0)
      ensures Wide(Start(full).d) && Start(full).d.range >= TOP && Start(full).d.pos == RC_INIT_SIZE
    {
      StartWide(full, probs0);
    }

    // Leaving at the output limit or at the end marker.
    ghost method LeaveStopped(limit: nat, src: seq<Byte>, pos: nat, full: seq<Byte>)
      requires Mid(limit, src, pos, full) && (remainLen == MATCH_SPEC_LEN_START || |hist| == limit)
      modifies this`taken
      ensures Idle() && InSync() && Run(p, limit, full, Start(full)) == Stopped(Pending())
      ensures pos <= |src| <= |full| && taken == full[..|full| - |src| + pos]
      ensures Pending().d.pos <= |full| && taken == full[..Max(|full| - |src|, Pending().d.pos)]
    {
      hide Run, Step, NumProbs, Holds, ValidLz, DecStart, FreshProbs;
      ghost var k := Pending().d.pos + tempBufSize;
      PendingValid();
      RunDone(p, limit, full, Pending());
      StartIs(full);
      RunForward(p, limit, full, Start(full));
      StartPart(full, k, probs0);
      Leave(p, limit, full, k, Start(full));
      Taken(src, pos, full);
      taken := full[..k];
    }

    // Leaving because the input ends inside a symbol.
    ghost method LeaveStarved(limit: nat, src: seq<Byte>, full: seq<Byte>)
      requires Idle() && !needFlush && rc.range >= TOP && tempBufSize <= REQUIRED_INPUT_MAX && Queue(src, |src|, full)
      requires |full| >= RC_INIT_SIZE && full[0] == 0 && ValidLz(p, z0) && |z0.hist| <= limit
      requires remainLen == 0 && Waiting(full) && Run(p, limit, full, Start(full)) == Starved(Pending())
      modifies this`taken
      ensures Idle() && InSync() && Run(p, limit, full, Start(full)) == Starved(Pending())
      ensures |src| <= |full| && taken == full && Pending().d.pos <= |full|
    {
      hide Run, Step, NumProbs, Holds, ValidLz, DecStart, FreshProbs;
      StartIs(full);
      Leave(p, limit, full, |full|, Start(full));
      Taken(src, |src|, full);
      assert full[..|full|] == full;
      taken := full;
    }

    lemma Taken(src: seq<Byte>, pos: nat, full: seq<Byte>)
      requires Queue(src, pos, full)
      ensures pos <= |src| <= |full|
      ensures var at := rc.base + rc.buf;
        && at + tempBufSize == |full| - (|src| - pos) >= 0
        && full[..at + tempBufSize][at..] == tempBuf[..tempBufSize]
    {
      var at := rc.base + rc.buf;
      assert full[..at + tempBufSize][at..] == full[at..][..tempBufSize];
    }

    // The loop of DecodeToDic, finish mode ANY.
    method DecodeLoop(dicLimit: nat, src: seq<Byte>, start: nat, ghost limit: nat, ghost full: seq<Byte>)
        returns (ok: bool, srcLen: nat, status: Status)
      requires Mid(limit, src, start, full) && dicPos <= dicLimit <= dic.Length && limit == |hist| + (dicLimit - dicPos)
      modifies this`dicPos, this`processedPos, this`checkDicSize, this`state, this`hist, this`remainLen,
               this`tempBufSize, this`needInitState, this`taken, dic, probs, reps, tempBuf, rc
      ensures ok ==> Idle() && InSync() && start <= srcLen <= |src| && taken == full[..|full| - |src| + srcLen]
      ensures ok ==> limit == |hist| + (dicLimit - dicPos) && dicPos <= dicLimit
      ensures |src| <= |full| && Agrees(limit, full, |full| - |src|, ok, status)
      ensures ok && remainLen == MATCH_SPEC_LEN_START ==> status == FinishedWithMark
      ensures ok && !needFlush && remainLen < MATCH_SPEC_LEN_START && dicPos == dicLimit ==>
        status == if remainLen == 0 && rc.code == 0 then MaybeFinishedWithoutMark else NotFinished
      ensures ok && !needFlush && remainLen < MATCH_SPEC_LEN_START && dicPos < dicLimit ==> status == NeedsMoreInput
    {
      hide Run, Step, NumProbs, Holds, ValidLz, Queue, Waiting;
      Held(src, start, full);
      srcLen := start;
      status := NotSpecified;
      while remainLen != MATCH_SPEC_LEN_START
        invariant Mid(limit, src, srcLen, full) && start <= srcLen
        invariant limit == |hist| + (dicLimit - dicPos) && dicPos <= dicLimit
        decreases if remainLen == MATCH_SPEC_LEN_START then 0 else 1, dicLimit - dicPos
      {
        if dicPos >= dicLimit {
          status := if remainLen == 0 && rc.code == 0 then MaybeFinishedWithoutMark else NotFinished;
          LeaveStopped(limit, src, srcLen, full);
          return true, srcLen, status;
        }
        var next;
        next, srcLen := DecodeTurn(dicLimit, src, srcLen, limit, full);
        if next == Broken {
          return false, srcLen, NotSpecified;
        }
        if next == NeedMore {
          LeaveStarved(limit, src, full);
          return true, srcLen, NeedsMoreInput;
        }
      }
      LeaveStopped(limit, src, srcLen, full);
      status := if rc.code == 0 then FinishedWithMark else NotSpecified;
      ok := rc.code == 0;
    }

    // The first thing a call does: the rest of a match that an earlier output limit cut off.
    method BeginCall(dicLimit: nat, ghost src: seq<Byte>, ghost limit: nat)
      requires Idle() && InSync() && dicPos <= dicLimit <= dic.Length && limit == |hist| + (dicLimit - dicPos)
      requires remainLen != MATCH_SPEC_LEN_START
      modifies this`dicPos, this`processedPos, this`checkDicSize, this`hist, this`remainLen, dic
      ensures limit == |hist| + (dicLimit - dicPos) && dicPos <= dicLimit
      ensures if needFlush then Idle() && InSync() && hist == old(hist) && remainLen == 0
              else Mid(limit, src, 0, taken + src)
    {
      hide Run, Step, NumProbs, Holds, ValidLz, DecStart, FreshProbs, Complete, RangeDec.Valid;
      ghost var full, s := taken + src, Pending();
      ghost var at, temp, before := rc.base + rc.buf, tempBuf[..tempBufSize], remainLen;
      PendingValid();
      if !needFlush {
        StartIs(taken);
        Resume(p, limit, taken, src, Start(taken), s);
        StartPart(full, |taken|, probs0);
        assert full[..|taken|] == taken;
        assert full[at..] == temp + src[0..];
      }
      if remainLen != 0 {
        WriteRem(dicLimit);
        PendingValid();
      } else {
        CompleteNone(limit, s);
      }
    }

    // The five header bytes, collected over as many calls as it takes.
    method ReadHeader(src: seq<Byte>, ghost limit: nat) returns (next: Next, pos: nat)
      requires Idle() && InSync() && needFlush && remainLen == 0 && |hist| <= limit
      modifies this`tempBufSize, this`needFlush, this`taken, tempBuf, rc
      ensures pos <= |src| && (next == GoOn ==> !needFlush && Mid(limit, src, pos, old(taken) + src))
      ensures next == NeedMore ==> Idle() && InSync() && needFlush && pos == |src| && taken == old(taken) + src
      ensures next != GoOn ==> Agrees(limit, old(taken) + src, old(|taken|), next == NeedMore,
                                      if next == NeedMore then NeedsMoreInput else NotSpecified)
    {
      hide Run, Step, NumProbs, Holds, ValidLz, FreshProbs, DecStart;
      ghost var full := taken + src;
      PendingValid();
      pos := FillTemp(src, 0, RC_INIT_SIZE);
      assert full[..tempBufSize] == tempBuf[..tempBufSize];
      if tempBufSize < RC_INIT_SIZE {
        taken := full;
        return NeedMore, pos;
      }
      if tempBuf[0] != 0 {
        return Broken, pos;
      }
      rc.InitRc(tempBuf[..tempBufSize], full);
      needFlush := false;
      tempBufSize := 0;
      next := GoOn;
      assert full[5..] == tempBuf[..tempBufSize] + src[pos..];
    }

    lemma MarkMet()
      requires Idle() && InSync() && remainLen == MATCH_SPEC_LEN_START
      ensures !needFlush
    {
      hide Run, Step, NumProbs, Holds, ValidLz, DecStart, FreshProbs, Waiting;
    }

    // Decodes as much as the input and the output limit allow, in finish mode ANY.
    method DecodeToDic(dicLimit: nat, src: seq<Byte>) returns (ok: bool, srcLen: nat, status: Status)
      requires Idle() && InSync() && dicPos <= dicLimit <= dic.Length
      modifies this`dicPos, this`processedPos, this`checkDicSize, this`state, this`hist, this`remainLen,
               this`tempBufSize, this`needFlush, this`needInitState, this`taken, dic, probs, reps, tempBuf, rc
      ensures old(remainLen) == MATCH_SPEC_LEN_START ==>
        srcLen == 0 && unchanged(this, dic, rc, probs, reps, tempBuf) && ok == (rc.code == 0) &&
        status == if ok then FinishedWithMark else NotSpecified
      ensures old(remainLen) != MATCH_SPEC_LEN_START ==>
        Agrees(old(|hist| + (dicLimit - dicPos)), old(taken) + src, old(|taken|), ok, status)
      ensures ok ==> Idle() && InSync() && srcLen <= |src| && taken == old(taken) + src[..srcLen]
      ensures ok ==> |hist| - dicPos == old(|hist| - dicPos) && dicPos <= dicLimit
      ensures ok && needFlush ==> status == NeedsMoreInput
      ensures ok && !needFlush && remainLen == MATCH_SPEC_LEN_START ==> status == FinishedWithMark
      ensures ok && !needFlush && remainLen < MATCH_SPEC_LEN_START && dicPos == dicLimit ==>
        status == if remainLen == 0 && rc.code == 0 then MaybeFinishedWithoutMark else NotFinished
      ensures ok && !needFlush && remainLen < MATCH_SPEC_LEN_START && dicPos < dicLimit ==> status == NeedsMoreInput
      ensures ok && !needFlush && remainLen == MATCH_SPEC_LEN_START ==> rc.code == 0
      ensures old(needFlush) && |old(taken) + src| >= 5 && (old(taken) + src)[0] != 0 ==> !ok
    {
      hide Run, Step, NumProbs, Holds, ValidLz, DecStart, FreshProbs, Agrees, Queue, Waiting, Mid, InSync, Idle;
      srcLen := 0;
      if remainLen == MATCH_SPEC_LEN_START {
        ok := rc.code == 0;
        status := if ok then FinishedWithMark else NotSpecified;
        assert src[..0] == [];
        MarkMet();
        return;
      }
      ghost var limit, full, already := |hist| + (dicLimit - dicPos), taken + src, |taken|;
      BeginCall(dicLimit, src, limit);
      if needFlush {
        var next;
        next, srcLen := ReadHeader(src, limit);
        if next != GoOn {
          assert src[..|src|] == src;
          status := if next == NeedMore then NeedsMoreInput else NotSpecified;
          AgreesShows(limit, full, already, next == NeedMore, status);
          return next == NeedMore, srcLen, status;
        }
      }
      ok, srcLen, status := DecodeLoop(dicLimit, src, srcLen, limit, full);
      AgreesShows(limit, full, already, ok, status);
    }

    // A stream that does not begin with 0 is refused, and so is one whose end marker leaves a code.
    lemma AgreesShows(limit: nat, full: seq<Byte>, already: nat, ok: bool, status: Status)
      requires Agrees(limit, full, already, ok, status) && (ok ==> Idle())
      requires ok && !needFlush && remainLen == MATCH_SPEC_LEN_START ==> status == FinishedWithMark
      ensures |full| >= 5 && full[0] != 0 ==> !ok
      ensures ok && !needFlush && remainLen == MATCH_SPEC_LEN_START ==> rc.code == 0
    {
      hide Run, Step, NumProbs, Holds, ValidLz, DecStart, FreshProbs;
    }

    // What has been decided on a part of the input is what the whole input leads to.
    lemma AgreesExtends(limit: nat, a: seq<Byte>, b: seq<Byte>, already: nat, ok: bool, status: Status)
      requires Agrees(limit, a, already, ok, status) && !(ok && status == NeedsMoreInput)
      ensures Agrees(limit, a + b, already, ok, status)
    {
      hide Run, Step, DecStart;
      if a[0] == 0 {
        StartIs(a);
        StartWide(a, probs0);
        RunExtends(p, limit, a, b, Start(a));
        var r := Run(p, limit, a, Start(a));
        if r.Stopped? && ok {
          assert (a + b)[..Max(already, r.s.d.pos)] == a[..Max(already, r.s.d.pos)];
        }
      }
    }

    // After a call that asked for more, what the next one agrees with is the input of both.
    lemma AgreesOn(limit: nat, a: seq<Byte>, b: seq<Byte>, already: nat, ok: bool, status: Status)
      requires ValidLz(p, z0) && |z0.hist| <= limit && already <= |a|
      requires |a| >= RC_INIT_SIZE && a[0] == 0 ==> Run(p, limit, a, Start(a)).Starved?
      requires |a| >= RC_INIT_SIZE ==> a[0] == 0
      requires Agrees(limit, a + b, |a|, ok, status)
      ensures Agrees(limit, a + b, already, ok, status)
    {
      hide Run, Step, DecStart;
      var full := a + b;
      if |full| >= RC_INIT_SIZE && full[0] == 0 && ok {
        StartIs(full);
        RunForward(p, limit, full, Start(full));
        if |a| >= RC_INIT_SIZE && Run(p, limit, full, Start(full)).Stopped? {
          StartWide(a, probs0);
          EndsBeyond(p, limit, a, b, Start(a));
        }
      }
    }

    // The input in pieces, one call each, until a call is content. The result is that of a single
    // call with all of it: the same data, state and probabilities, and the same number of bytes taken.
    method DecodeInPieces(dicLimit: nat, pieces: seq<seq<Byte>>) returns (ok: bool, status: Status)
      requires Idle() && InSync() && needFlush && dicPos <= dicLimit <= dic.Length
      modifies this`dicPos, this`processedPos, this`checkDicSize, this`state, this`hist, this`remainLen,
               this`tempBufSize, this`needFlush, this`needInitState, this`taken, dic, probs, reps, tempBuf, rc
      ensures Agrees(old(|hist| + (dicLimit - dicPos)), old(taken) + Concat(pieces), old(|taken|), ok, status)
      ensures ok ==> Idle() && InSync() && |hist| - dicPos == old(|hist| - dicPos) && dicPos <= dicLimit
      ensures ok && needFlush ==> status == NeedsMoreInput
      ensures ok && !needFlush && remainLen == MATCH_SPEC_LEN_START ==> status == FinishedWithMark
      ensures ok && !needFlush && remainLen < MATCH_SPEC_LEN_START && dicPos == dicLimit ==>
        status == if remainLen == 0 && rc.code == 0 then MaybeFinishedWithoutMark else NotFinished
      ensures ok && !needFlush && remainLen < MATCH_SPEC_LEN_START && dicPos < dicLimit ==> status == NeedsMoreInput
      ensures ok && !needFlush && remainLen == MATCH_SPEC_LEN_START ==> rc.code == 0
      ensures |old(taken) + Concat(pieces)| >= 5 && (old(taken) + Concat(pieces))[0] != 0 ==> !ok
    {
      hide Run, Step, NumProbs, Holds, ValidLz, DecStart, FreshProbs, Queue, Waiting, Mid, Agrees, Idle, InSync;
      ghost var limit, before := |hist| + (dicLimit - dicPos), taken;
      var i := 0;
      ok, status := true, NeedsMoreInput;
      FirstAgrees(limit);
      assert before + Concat(pieces[..0]) == before;
      while i < |pieces| && ok && status == NeedsMoreInput
        invariant 0 <= i <= |pieces|
        invariant ok ==> Idle() && InSync() && limit == |hist| + (dicLimit - dicPos) && dicPos <= dicLimit
        invariant Agrees(limit, before + Concat(pieces[..i]), |before|, ok, status)
        invariant ok && needFlush ==> status == NeedsMoreInput
        invariant ok && !needFlush && remainLen == MATCH_SPEC_LEN_START ==> status == FinishedWithMark
        invariant ok && !needFlush && remainLen < MATCH_SPEC_LEN_START && dicPos == dicLimit ==>
          status == if remainLen == 0 && rc.code == 0 then MaybeFinishedWithoutMark else NotFinished
        invariant ok && !needFlush && remainLen < MATCH_SPEC_LEN_START && dicPos < dicLimit ==>
          status == NeedsMoreInput
      {
        ghost var part := before + Concat(pieces[..i]);
        WantsMore(limit, part, |before|);
        var srcLen;
        ok, srcLen, status := DecodeToDic(dicLimit, pieces[i]);
        AgreesOn(limit, part, pieces[i], |before|, ok, status);
        ConcatOne(before, pieces, i);
        i := i + 1;
      }
      ConcatSplit(before, pieces, i);
      if i < |pieces| {
        AgreesExtends(limit, before + Concat(pieces[..i]), Concat(pieces[i..]), |before|, ok, status);
      } else {
        assert pieces[..i] == pieces;
      }
      AgreesShows(limit, before + Concat(pieces), |before|, ok, status);
    }

    lemma FirstAgrees(limit: nat)
      requires Idle() && InSync() && needFlush
      ensures Agrees(limit, taken, |taken|, true, NeedsMoreInput) && ValidLz(p, z0) && |z0.hist| == |hist|
    {}

    lemma WantsMore(limit: nat, part: seq<Byte>, already: nat)
      requires Idle() && InSync() && Agrees(limit, part, already, true, NeedsMoreInput)
      requires ValidLz(p, z0) && |z0.hist| <= limit
      ensures taken == part && remainLen != MATCH_SPEC_LEN_START
      ensures |part| >= RC_INIT_SIZE ==> part[0] == 0 && Run(p, limit, part, Start(part)).Starved?
    {
      hide Run, Step, DecStart, NumProbs, Holds;
      if |part| >= RC_INIT_SIZE {
        RunLowers(p, limit, part, Start(part));
      }
    }

    // ----- A circular buffer -----------------------------------------------------------------

    lemma HoldsWrapped()
      requires ValidDic() && dicPos == dic.Length
      ensures Holds(dic[..], 0, hist)
    {
      forall k | 1 <= k <= dic.Length && k <= |hist|
        ensures dic[..][Slot(0, dic.Length, k)] == hist[|hist| - k]
      {
        assert dic[..][Slot(dicPos, dic.Length, k)] == hist[|hist| - k];
      }
    }

    // What more input and a farther limit lead to continues what there is.
    lemma GoesOn(limit: nat, rest: seq<Byte>)
      requires Idle() && InSync() && remainLen != MATCH_SPEC_LEN_START && |hist| <= limit
      requires |taken + rest| >= RC_INIT_SIZE && (taken + rest)[0] == 0
      ensures ValidLz(p, z0) && |z0.hist| <= limit
      ensures var r := Run(p, limit, taken + rest, Start(taken + rest));
              && (!r.Failed? ==> hist <= r.s.z.hist)
              && (r.Stopped? && !needFlush ==> r.s.d.pos >= Pending().d.pos)
    {
      hide Run, Step, NumProbs, Holds, DecStart, FreshProbs, Complete, Waiting;
      var full := taken + rest;
      StartIs(full);
      if needFlush {
        if !Run(p, limit, full, Start(full)).Failed? { RunAppends(p, limit, full, Start(full)); }
      } else {
        var s := Pending();
        StartIs(taken);
        Resume(p, limit, taken, rest, Start(taken), s);
        StartPart(full, |taken|, probs0);
        assert full[..|taken|] == taken;
        var c := Complete(limit, s);
        CompleteAppends(limit, s);
        if !Run(p, limit, full, c).Failed? { RunAppends(p, limit, full, c); }
        RunForward(p, limit, full, c);
      }
    }

    // Between two turns of DecodeToBuf: left bytes of output still wanted, used of the input taken.
    // Once a call has met the end marker or the end of the input, it stays with that.
    ghost predicate Ahead(total: nat, full: seq<Byte>, had: nat, h0: seq<Byte>, left: nat, used: nat, settled: bool,
                          status: Status)
      reads this, rc, probs, dic, reps, tempBuf
    {
      && Idle() && InSync() && p.dicSize <= dic.Length && |hist| + left == total && h0 <= hist
      && had + used <= |full| && taken == full[..had + used]
      && if settled
         then Agrees(total, full, had, true, status) && left > 0 && |full| >= RC_INIT_SIZE && full[0] == 0 &&
              if remainLen == MATCH_SPEC_LEN_START then rc.code == 0 && status == FinishedWithMark
              else Run(p, total, full, Start(full)).Starved? && taken == full
         else remainLen != MATCH_SPEC_LEN_START && (|taken| == had || (!needFlush && |taken| == Pending().d.pos))
    }

    // The bytes already taken count from the first turn on.
    lemma AgreesSince(limit: nat, full: seq<Byte>, since: nat, had: nat, ok: bool, status: Status)
      requires Agrees(limit, full, since, ok, status) && had <= since <= |full|
      requires |full| >= RC_INIT_SIZE && full[0] == 0 ==>
                 var r := Run(p, limit, full, Start(full)); r.Stopped? ==> since == had || since <= r.s.d.pos
      ensures Agrees(limit, full, had, ok, status)
    {
      hide Run, Step, DecStart;
    }

    // An error, the end marker or the end of the input under a near limit are the same under the whole one.
    lemma AgreesFarther(near: nat, limit: nat, full: seq<Byte>, already: nat, ok: bool, status: Status)
      requires Agrees(near, full, already, ok, status) && near <= limit
      requires |full| >= RC_INIT_SIZE && full[0] == 0 && ok ==>
                 var r := Run(p, near, full, Start(full)); r.Stopped? ==> r.s.done
      ensures Agrees(limit, full, already, ok, status)
      ensures |full| >= RC_INIT_SIZE && full[0] == 0 ==>
                Run(p, limit, full, Start(full)) == Run(p, near, full, Start(full))
    {
      hide Run, Step, DecStart;
      if |full| >= RC_INIT_SIZE && full[0] == 0 { RunSettled(p, near, limit, full, Start(full)); }
    }

    // The buffer is full, so writing goes on at its beginning. It has to cover all distances.
    method Wrap(ghost total: nat, ghost full: seq<Byte>, ghost had: nat, ghost h0: seq<Byte>, ghost left: nat,
                ghost used: nat, ghost settled: bool, ghost status: Status)
      requires Idle() && dicPos == dic.Length && p.dicSize <= dic.Length
      modifies this`dicPos
      ensures Idle() && dicPos == 0 && (old(InSync()) ==> InSync())
      ensures old(Ahead(total, full, had, h0, left, used, settled, status)) ==>
                Ahead(total, full, had, h0, left, used, settled, status)
    {
      hide Run, Step, NumProbs, Holds, ValidLz, DecStart, FreshProbs;
      HoldsWrapped();
      dicPos := 0;
    }

    lemma AheadSync(total: nat, full: seq<Byte>, had: nat, h0: seq<Byte>, left: nat, used: nat, settled: bool,
                    status: Status)
      requires Ahead(total, full, had, h0, left, used, settled, status)
      ensures Idle() && InSync() && |hist| + left == total && dicPos <= dic.Length && p.dicSize <= dic.Length
      ensures dic.Length >= 1 && h0 <= hist && (|full| < RC_INIT_SIZE ==> hist == z0.hist)
      ensures had + used <= |full| && taken == full[..had + used]
      ensures !settled ==> remainLen != MATCH_SPEC_LEN_START
      ensures settled && remainLen == MATCH_SPEC_LEN_START ==> rc.code == 0 && status == FinishedWithMark
      ensures settled ==> left > 0 && Agrees(total, full, had, true, status)
    {
      hide Run, Step, NumProbs, DecStart, FreshProbs, Agrees;
    }

    // Before a turn: what the run under its limit will be like.
    lemma TurnStarts(total: nat, full: seq<Byte>, had: nat, h0: seq<Byte>, left: nat, used: nat, settled: bool,
                     status: Status, limit: nat)
      requires Ahead(total, full, had, h0, left, used, settled, status) && remainLen != MATCH_SPEC_LEN_START
      requires |hist| <= limit <= total && (settled ==> |hist| < limit)
      requires |full| >= RC_INIT_SIZE && full[0] == 0
      ensures ValidLz(p, z0) && |z0.hist| <= limit
      ensures var r := Run(p, limit, full, Start(full));
              && (!r.Failed? ==> hist <= r.s.z.hist)
              && (settled ==> r.Starved? && r == Run(p, total, full, Start(full)) && r.s.z.hist == hist)
              && (!settled && r.Stopped? ==> |taken| == had || |taken| <= r.s.d.pos)
    {
      hide Run, Step, NumProbs, Holds, DecStart, FreshProbs, Waiting, ValidLz, InSync;
      assert taken + full[had + used..] == full;
      GoesOn(limit, full[had + used..]);
      if settled {
        StarvedLower(p, limit, total, full, Start(full));
      }
    }

    // After a turn that agrees with the run under the limit near: either that is the whole limit, or
    // the run is settled, or the near limit was reached.
    lemma TurnEnds(near: nat, total: nat, full: seq<Byte>, had: nat, status: Status)
      requires Idle() && InSync() && Agrees(near, full, had, true, status) && near <= total && had <= |full|
      requires |full| < RC_INIT_SIZE || |hist| < near || near == total || remainLen == MATCH_SPEC_LEN_START
      ensures Agrees(total, full, had, true, status)
    {
      hide Run, Step, NumProbs, Holds, DecStart, FreshProbs, InSync;
      if near < total && |full| >= RC_INIT_SIZE && full[0] == 0 {
        RunLowers(p, near, full, Start(full));
        AgreesFarther(near, total, full, had, true, status);
      }
    }

    // After a turn with some output but not all of it.
    lemma TurnGoesOn(near: nat, total: nat, full: seq<Byte>, had: nat, h0: seq<Byte>, left: nat, used: nat,
                     status: Status)
        returns (settled: bool)
      requires Idle() && InSync() && Agrees(near, full, had, true, status) && near <= total && had + used <= |full|
      requires |full| >= RC_INIT_SIZE && p.dicSize <= dic.Length && |hist| + left == total && left > 0 && h0 <= hist
      requires taken == full[..had + used]
      ensures Ahead(total, full, had, h0, left, used, settled, status)
    {
      hide Run, Step, NumProbs, Holds, DecStart, FreshProbs, InSync, ValidLz;
      var r := Run(p, near, full, Start(full));
      settled := r.Starved? || r.s.done;
      RunLowers(p, near, full, Start(full));
      if settled { AgreesFarther(near, total, full, had, true, status); }
    }

    // What a call leaves behind of the data.
    lemma CallOutput(near: nat, full: seq<Byte>, had: nat, status: Status)
      requires Idle() && InSync() && Agrees(near, full, had, true, status)
      ensures if |full| < RC_INIT_SIZE then hist == z0.hist
              else full[0] == 0 && ValidLz(p, z0) && |z0.hist| <= near && !Run(p, near, full, Start(full)).Failed? &&
                   hist == Run(p, near, full, Start(full)).s.z.hist
    {
      hide Run, Step, NumProbs, Holds, DecStart, FreshProbs;
    }

    lemma IdleHolds()
      requires Idle()
      ensures Holds(dic[..], dicPos, hist)
    {}

    // Where the next call writes, and how far.
    method BeginTurn(left: nat, ghost total: nat, ghost full: seq<Byte>, ghost had: nat, ghost h0: seq<Byte>,
                     ghost used: nat, ghost settled: bool, ghost status: Status) returns (dicLimit: nat)
      requires Ahead(total, full, had, h0, left, used, settled, status)
      modifies this`dicPos
      ensures Ahead(total, full, had, h0, left, used, settled, status) && dicPos <= dicLimit <= dic.Length
      ensures dicLimit - dicPos <= left && (dicLimit == dicPos ==> left == 0)
    {
      hide Run, Step, NumProbs, Holds, ValidLz, DecStart, FreshProbs, Agrees, InSync, Idle, Ahead;
      AheadSync(total, full, had, h0, left, used, settled, status);
      if dicPos == dic.Length {
        Wrap(total, full, had, h0, left, used, settled, status);
      }
      dicLimit := if left > dic.Length - dicPos then dic.Length else dicPos + left;
    }

    // The run under the limit goes on from what is there.
    ghost predicate RunGoesOn(near: nat, full: seq<Byte>, had: nat)
      reads this
      requires |full| >= RC_INIT_SIZE
    {
      && ValidLz(p, z0) && |z0.hist| <= near
      && var r := Run(p, near, full, Start(full));
      && (!r.Failed? ==> hist <= r.s.z.hist)
      && (r.Stopped? ==> |taken| == had || |taken| <= r.s.d.pos)
    }

    // A call of DecodeToDic with all the input that is left, and the bytes it put out.
    method TurnCall(dicLimit: nat, rest: seq<Byte>, ghost near: nat, ghost full: seq<Byte>, ghost had: nat)
        returns (ok: bool, piece: seq<Byte>, n: nat, status: Status)
      requires Idle() && InSync() && remainLen != MATCH_SPEC_LEN_START && dicPos <= dicLimit <= dic.Length
      requires near == |hist| + (dicLimit - dicPos) && full == taken + rest && had <= |taken|
      requires |full| >= RC_INIT_SIZE && full[0] == 0 ==> RunGoesOn(near, full, had)
      requires |full| < RC_INIT_SIZE ==> hist == z0.hist
      modifies this`dicPos, this`processedPos, this`checkDicSize, this`state, this`hist, this`remainLen,
               this`tempBufSize, this`needFlush, this`needInitState, this`taken, dic, probs, reps, tempBuf, rc
      ensures Agrees(near, full, had, ok, status)
      ensures ok ==> Idle() && InSync() && n <= |rest| && taken == old(taken) + rest[..n]
      ensures ok ==> hist == old(hist) + piece && |hist| <= near && |piece| == dicPos - old(dicPos)
      ensures ok && |full| < RC_INIT_SIZE ==> piece == []
      ensures ok && needFlush ==> status == NeedsMoreInput
      ensures ok && !needFlush && remainLen == MATCH_SPEC_LEN_START ==> status == FinishedWithMark
      ensures ok && !needFlush && remainLen < MATCH_SPEC_LEN_START && dicPos == dicLimit ==>
        status == if remainLen == 0 && rc.code == 0 then MaybeFinishedWithoutMark else NotFinished
      ensures ok && !needFlush && remainLen < MATCH_SPEC_LEN_START && dicPos < dicLimit ==> status == NeedsMoreInput
      ensures ok ==> dicPos <= dicLimit
    {
      hide Run, Step, NumProbs, Holds, ValidLz, DecStart, FreshProbs, Agrees, Queue, Waiting, Mid, InSync, Idle;
      ghost var h, t := hist, taken;
      var before := dicPos;
      piece := [];
      ok, n, status := DecodeToDic(dicLimit, rest);
      AgreesSince(near, full, |t|, had, ok, status);
      if ok {
        CallOutput(near, full, had, status);
        IdleHolds();
        HoldsTail(dic[..], dicPos, hist, |hist| - |h|);
        piece := dic[before..dicPos];
      }
    }

    // A call after the end marker was met.
    method MarkTurn(dicLimit: nat, rest: seq<Byte>) returns (n: nat, status: Status)
      requires Idle() && InSync() && remainLen == MATCH_SPEC_LEN_START && rc.code == 0
      requires dicPos <= dicLimit <= dic.Length
      modifies this`dicPos, this`processedPos, this`checkDicSize, this`state, this`hist, this`remainLen,
               this`tempBufSize, this`needFlush, this`needInitState, this`taken, dic, probs, reps, tempBuf, rc
      ensures n == 0 && status == FinishedWithMark && unchanged(this, dic, rc, probs, reps, tempBuf)
      ensures !needFlush
    {
      hide Run, Step, NumProbs, Holds, ValidLz, DecStart, FreshProbs, Agrees, Queue, Waiting, Mid, InSync, Idle;
      var ok;
      MarkMet();
      ok, n, status := DecodeToDic(dicLimit, rest);
    }

    // One turn: a call up to the end of the buffer at most.
    method BufTurn(left: nat, src: seq<Byte>, used: nat, ghost total: nat, ghost full: seq<Byte>, ghost had: nat,
                   ghost h0: seq<Byte>, ghost settled: bool, ghost status0: Status)
        returns (ok: bool, piece: seq<Byte>, used': nat, status: Status, ghost settled': bool)
      requires used <= |src| && had <= |full| && full[had..] == src
      requires Ahead(total, full, had, h0, left, used, settled, status0)
      modifies this`dicPos, this`processedPos, this`checkDicSize, this`state, this`hist, this`remainLen,
               this`tempBufSize, this`needFlush, this`needInitState, this`taken, dic, probs, reps, tempBuf, rc
      ensures !ok ==> Agrees(total, full, had, false, status)
      ensures ok ==> |piece| <= left && used <= used' <= |src| && hist == old(hist) + piece
      ensures ok ==> Idle() && InSync() && taken == full[..had + used']
      ensures ok && (piece == [] || |piece| == left) ==> Agrees(total, full, had, true, status)
      ensures ok && 0 < |piece| < left ==> Ahead(total, full, had, h0, left - |piece|, used', settled', status)
      ensures ok && needFlush ==> status == NeedsMoreInput
      ensures ok && !needFlush && remainLen == MATCH_SPEC_LEN_START ==> status == FinishedWithMark
      ensures ok && !needFlush && remainLen < MATCH_SPEC_LEN_START && |piece| == left ==>
        status == if remainLen == 0 && rc.code == 0 then MaybeFinishedWithoutMark else NotFinished
      ensures ok && !needFlush && remainLen < MATCH_SPEC_LEN_START && piece == [] && left > 0 ==>
        status == NeedsMoreInput
    {
      hide Run, Step, NumProbs, Holds, ValidLz, DecStart, FreshProbs, Agrees, Queue, Waiting, Mid, InSync, Idle, Ahead;
      var dicLimit := BeginTurn(left, total, full, had, h0, used, settled, status0);
      AheadSync(total, full, had, h0, left, used, settled, status0);
      ok, piece, used', settled' := true, [], used, settled;
      if remainLen == MATCH_SPEC_LEN_START {
        var n;
        n, status := MarkTurn(dicLimit, src[used..]);
      } else {
        ok, piece, used', status, settled' :=
          LiveTurn(dicLimit, left, src, used, total, full, had, h0, settled, status0);
      }
    }

    // A turn before the end marker.
    method LiveTurn(dicLimit: nat, left: nat, src: seq<Byte>, used: nat, ghost total: nat, ghost full: seq<Byte>,
                    ghost had: nat, ghost h0: seq<Byte>, ghost settled: bool, ghost status0: Status)
        returns (ok: bool, piece: seq<Byte>, used': nat, status: Status, ghost settled': bool)
      requires used <= |src| && had <= |full| && full[had..] == src && remainLen != MATCH_SPEC_LEN_START
      requires Ahead(total, full, had, h0, left, used, settled, status0) && dicPos <= dicLimit <= dic.Length
      requires dicLimit - dicPos <= left && (dicLimit == dicPos ==> left == 0)
      modifies this`dicPos, this`processedPos, this`checkDicSize, this`state, this`hist, this`remainLen,
               this`tempBufSize, this`needFlush, this`needInitState, this`taken, dic, probs, reps, tempBuf, rc
      ensures !ok ==> Agrees(total, full, had, false, status)
      ensures ok ==> |piece| <= left && used <= used' <= |src| && hist == old(hist) + piece
      ensures ok ==> Idle() && InSync() && taken == full[..had + used']
      ensures ok && (piece == [] || |piece| == left) ==> Agrees(total, full, had, true, status)
      ensures ok && 0 < |piece| < left ==> Ahead(total, full, had, h0, left - |piece|, used', settled', status)
      ensures ok && needFlush ==> status == NeedsMoreInput
      ensures ok && !needFlush && remainLen == MATCH_SPEC_LEN_START ==> status == FinishedWithMark
      ensures ok && !needFlush && remainLen < MATCH_SPEC_LEN_START && dicPos == dicLimit ==>
        status == if remainLen == 0 && rc.code == 0 then MaybeFinishedWithoutMark else NotFinished
      ensures ok && !needFlush && remainLen < MATCH_SPEC_LEN_START && dicPos < dicLimit ==> status == NeedsMoreInput
      ensures ok ==> |piece| == dicPos - old(dicPos) && dicPos <= dicLimit
    {
      hide Run, Step, NumProbs, Holds, ValidLz, DecStart, FreshProbs, Agrees, Queue, Waiting, Mid, InSync, Idle, Ahead;
      settled' := settled;
      AheadSync(total, full, had, h0, left, used, settled, status0);
      ghost var near := |hist| + (dicLimit - dicPos);
      assert full[..had + used] + src[used..] == full;
      if |full| >= RC_INIT_SIZE && full[0] == 0 {
        TurnStarts(total, full, had, h0, left, used, settled, status0, near);
      }
      var n;
      ok, piece, n, status := TurnCall(dicLimit, src[used..], near, full, had);
      used' := used + n;
      if ok {
        assert full[..had + used'] == full[..had + used] + src[used..][..n];
        settled' := TurnDone(near, total, full, had, h0, left, |piece|, used', status);
      } else {
        AgreesFarther(near, total, full, had, ok, status);
      }
    }

    // A turn in which a call put out size bytes.
    lemma TurnDone(near: nat, total: nat, full: seq<Byte>, had: nat, h0: seq<Byte>, left: nat, size: nat, used: nat,
                   status: Status) returns (settled: bool)
      requires Idle() && InSync() && Agrees(near, full, had, true, status) && near <= total && had + used <= |full|
      requires p.dicSize <= dic.Length && |hist| + left == total + size && size <= left && h0 <= hist
      requires taken == full[..had + used] && |hist| <= near && (size == 0 ==> |hist| < near || near == total)
      requires size > 0 ==> |full| >= RC_INIT_SIZE
      ensures size == 0 || size == left ==> Agrees(total, full, had, true, status)
      ensures 0 < size < left ==> Ahead(total, full, had, h0, left - size, used, settled, status)
    {
      hide Agrees, InSync, Idle, Ahead;
      settled := false;
      if size == 0 || size == left {
        TurnEnds(near, total, full, had, status);
      } else {
        settled := TurnGoesOn(near, total, full, had, h0, left - size, used, status);
      }
    }

    // A call after the end marker: nothing is taken and nothing put out.
    method AfterMark(outSize: nat, src: seq<Byte>) returns (ok: bool, srcLen: nat, status: Status)
      requires Idle() && InSync() && remainLen == MATCH_SPEC_LEN_START && p.dicSize <= dic.Length
      modifies this`dicPos, this`processedPos, this`checkDicSize, this`state, this`hist, this`remainLen,
               this`tempBufSize, this`needFlush, this`needInitState, this`taken, dic, probs, reps, tempBuf, rc
      ensures ok == (rc.code == 0) && rc.code == old(rc.code) && srcLen == 0 && taken == old(taken)
      ensures status == if ok then FinishedWithMark else NotSpecified
      ensures Idle() && InSync() && hist == old(hist) && remainLen == MATCH_SPEC_LEN_START && dic[..] == old(dic[..])
      ensures ok ==> !needFlush
    {
      hide Run, Step, NumProbs, Holds, ValidLz, DecStart, FreshProbs, Agrees, Queue, Waiting, Mid, InSync, Idle, Ahead;
      MarkMet();
      IdleInside();
      if dicPos == dic.Length {
        Wrap(0, [], 0, [], 0, 0, false, NotSpecified);
      }
      ok, srcLen, status := DecodeToDic(if outSize > dic.Length - dicPos then dic.Length else dicPos + outSize, src);
    }

    lemma IdleInside()
      requires Idle()
      ensures dicPos <= dic.Length
    {}

    // Decodes up to outSize bytes through the buffer, which may be smaller than that, in finish mode
    // ANY. The result is that of one run with the whole output limit.
    method DecodeToBuf(outSize: nat, src: seq<Byte>) returns (ok: bool, dest: seq<Byte>, srcLen: nat, status: Status)
      requires Idle() && InSync() && p.dicSize <= dic.Length
      modifies this`dicPos, this`processedPos, this`checkDicSize, this`state, this`hist, this`remainLen,
               this`tempBufSize, this`needFlush, this`needInitState, this`taken, dic, probs, reps, tempBuf, rc
      ensures old(remainLen) == MATCH_SPEC_LEN_START ==>
        dest == [] && srcLen == 0 && ok == (old(rc.code) == 0) &&
        status == if ok then FinishedWithMark else NotSpecified
      ensures old(remainLen) != MATCH_SPEC_LEN_START ==>
        Agrees(old(|hist|) + outSize, old(taken) + src, old(|taken|), ok, status)
      ensures ok ==> Idle() && InSync() && srcLen <= |src| && taken == old(taken) + src[..srcLen]
      ensures ok ==> hist == old(hist) + dest && |dest| <= outSize
      ensures ok && needFlush ==> status == NeedsMoreInput
      ensures ok && !needFlush && remainLen == MATCH_SPEC_LEN_START ==> status == FinishedWithMark
      ensures ok && !needFlush && remainLen < MATCH_SPEC_LEN_START && |dest| == outSize ==>
        status == if remainLen == 0 && rc.code == 0 then MaybeFinishedWithoutMark else NotFinished
      ensures ok && !needFlush && remainLen < MATCH_SPEC_LEN_START && |dest| < outSize ==> status == NeedsMoreInput
    {
      hide Run, Step, NumProbs, Holds, ValidLz, DecStart, FreshProbs, Agrees, Queue, Waiting, Mid, InSync, Idle, Ahead;
      if remainLen == MATCH_SPEC_LEN_START {
        ok, srcLen, status := AfterMark(outSize, src);
        dest := [];
        return;
      }
      ghost var total, full, had, h0, settled := |hist| + outSize, taken + src, |taken|, hist, false;
      var left: nat := outSize;
      ok, dest, srcLen, status := true, [], 0, NotSpecified;
      AheadStarts(full, total, left);
      while true
        invariant srcLen <= |src| && |full| == had + |src| && full[had..] == src
        invariant Ahead(total, full, had, h0, left, srcLen, settled, status)
        invariant hist == h0 + dest && |dest| + left == outSize
        decreases left
      {
        var piece;
        ok, piece, srcLen, status, settled := BufTurn(left, src, srcLen, total, full, had, h0, settled, status);
        if !ok {
          return;
        }
        dest := dest + piece;
        left := left - |piece|;
        if piece == [] || left == 0 {
          assert full[..had + srcLen] == old(taken) + src[..srcLen];
          return;
        }
      }
    }

    lemma AheadStarts(full: seq<Byte>, total: nat, left: nat)
      requires Idle() && InSync() && remainLen != MATCH_SPEC_LEN_START && p.dicSize <= dic.Length
      requires total == |hist| + left
      requires taken <= full
      ensures Ahead(total, full, |taken|, hist, left, 0, false, NotSpecified)
    {
      hide InSync;
    }
  }

  function Concat(pieces: seq<seq<Byte>>): seq<Byte> {
    if pieces == [] then [] else Concat(pieces[..|pieces| - 1]) + pieces[|pieces| - 1]
  }

  lemma ConcatOne(before: seq<Byte>, pieces: seq<seq<Byte>>, i: nat)
    requires i < |pieces|
    ensures before + Concat(pieces[..i + 1]) == before + Concat(pieces[..i]) + pieces[i]
  {
    assert pieces[..i + 1][..i] == pieces[..i];
    assert Concat(pieces[..i + 1]) == Concat(pieces[..i]) + pieces[i];
  }

  lemma {:induction false} ConcatSplit(before: seq<Byte>, pieces: seq<seq<Byte>>, i: nat)
    requires i <= |pieces|
    ensures before + Concat(pieces) == before + Concat(pieces[..i]) + Concat(pieces[i..])
    decreases |pieces|
  {
    if i == |pieces| {
      assert pieces[..i] == pieces;
    } else {
      var init, last, rest := pieces[..|pieces| - 1], pieces[|pieces| - 1], pieces[i..];
      ConcatSplit([], init, i);
      assert init[..i] == pieces[..i] && init[i..] == rest[..|rest| - 1] && rest[|rest| - 1] == last;
      assert Concat(rest) == Concat(rest[..|rest| - 1]) + last;
      assert Concat(pieces) == Concat(pieces[..i]) + Concat(rest) by {
        assert [] + Concat(init) == Concat(init) && [] + Concat(init[..i]) == Concat(init[..i]);
      }
    }
  }

  lemma StartPart(full: seq<Byte>, k: nat, probs: Probs)
    requires RC_INIT_SIZE <= k <= |full|
    ensures DecStart(full[..k], probs) == DecStart(full, probs)
  {}

  // The run from s on, with what a nearer limit cut off the last match written first.
  ghost function Finished(p: Props, total: nat, inp: seq<Byte>, s: St): Outcome {
    if s.rem > 0 && s.z.rep0 >= |s.z.hist| then Failed
    else
      var c := Complete(total, s);
      if ValidLz(p, c.z) && |c.z.hist| <= total then Run(p, total, inp, c) else Failed
  }

  lemma FinishedIs(p: Props, total: nat, inp: seq<Byte>, s: St)
    requires s.rem > 0 ==> s.z.rep0 < |s.z.hist|
    requires ValidLz(p, Complete(total, s).z) && |Complete(total, s).z.hist| <= total
    ensures Finished(p, total, inp, s) == Run(p, total, inp, Complete(total, s))
  {}

  lemma HoldsBack(dic: seq<Byte>, dicPos: nat, hist: seq<Byte>, rep: nat)
    requires Holds(dic, dicPos, hist) && 1 <= rep <= |hist| && rep <= |dic|
    ensures dicPos <= |dic| && dic[Slot(dicPos, |dic|, rep)] == Back(hist, rep - 1)
  {}

  lemma CopyNone(hist: seq<Byte>, dist: nat)
    ensures dist < |hist| ==> Copy(hist, dist, 0) == hist
  {}

  lemma CopyStep(hist: seq<Byte>, dist: nat, n: nat)
    requires dist < |hist| && n > 0
    ensures Copy(hist, dist, n) == Copy(hist + [Back(hist, dist)], dist, n - 1)
  {}

  lemma SlotIsSmall(slot: nat)
    requires slot < 4
    ensures SlotBase(slot) == slot
  {}

  lemma ShlSixteen(v: nat, n: nat)
    requires n >= 4
    ensures Shl(v, n) == 16 * Shl(v, n - 4)
  {
    ShlDouble(v, n - 1);
    ShlDouble(v, n - 2);
    ShlDouble(v, n - 3);
    ShlDouble(v, n - 4);
  }

  lemma WordNext(n: nat, k: nat)
    ensures (n % WORD + k) % WORD == (n + k) % WORD
  {
    var q := n / WORD;
    assert n + k == n % WORD + k + WORD * q;
    ModWord(n % WORD + k, q);
  }

  lemma ModWord(x: nat, q: nat)
    ensures (x + WORD * q) % WORD == x % WORD
  {}

  lemma ApplyLiteral(p: Props, z: Lz, b: Byte)
    requires ValidLz(p, z)
    ensures Apply(p, z, Literal(b), 1) == z.(state := AfterLiteral(z.state), hist := z.hist + [b])
  {}

  lemma NormalizePos(inp: seq<Byte>, d: Dec)
    ensures d.pos <= Normalize(inp, d).pos <= d.pos + 1
  {}

  lemma SymbolForward(inp: seq<Byte>, d: Dec, v: View)
    requires Wide(d)
    ensures d.pos <= ParseSymbol(inp, d, v).1.pos
  {
    hide ParseSymbol, SymbolBits, After;
    var s := ParseSymbol(inp, d, v).0;
    ParsedWellFormed(inp, d, v);
    SymbolParses(inp, d, v, s);
    RunCost(inp, d, SymbolBits(v, s));
  }

  lemma CopiedLz(p: Props, z: Lz, n: nat)
    requires ValidLz(p, z)
    ensures ValidProps(p) && (z.hist != [] ==> z.rep0 < p.dicSize)
    ensures (z.rep0 < |z.hist| ==> ValidLz(p, z.(hist := Copy(z.hist, z.rep0, n))))
  {}

  lemma NormalAlready(inp: seq<Byte>, s: St)
    requires s.d.range >= TOP
    ensures Norm(inp, s) == s && Normalize(inp, s.d) == s.d
  {}

  // The latest n bytes, as long as they have not wrapped.
  lemma HoldsTail(dic: seq<Byte>, dicPos: nat, hist: seq<Byte>, n: nat)
    requires Holds(dic, dicPos, hist) && n <= dicPos && n <= |hist|
    ensures dicPos <= |dic| && dic[dicPos - n..dicPos] == hist[|hist| - n..]
  {
    var a, b := dic[dicPos - n..dicPos], hist[|hist| - n..];
    forall i | 0 <= i < n
      ensures a[i] == b[i]
    {
      assert dic[Slot(dicPos, |dic|, n - i)] == hist[|hist| - (n - i)];
    }
  }

  lemma CompleteAppends(limit: nat, s: St)
    requires s.rem > 0 ==> s.z.rep0 < |s.z.hist|
    ensures s.z.hist <= Complete(limit, s).z.hist && Complete(limit, s).d == s.d
  {}

  lemma CompleteNone(limit: nat, s: St)
    requires s.rem == 0
    ensures Complete(limit, s) == s
  {}
}
