// The emission side of the LZMA encoder: literal, length and distance coders, the
// distance slot table, and the loop that codes the choices of the match optimiser.

module LzmaEncoder {
  import opened RangeCoder
  import opened LzmaSymbols
  import opened Words
  import opened LzmaModel
  import opened LzmaStream
  import opened RangeEncoder
  import LzmaAnswers
  import LzmaFormat

  // ----- Literals -------------------------------------------------------------------

  // The bits still to send move up by one place.
  lemma ShiftLeft(sym: nat, off: nat, rest: nat, n: nat)
    requires SameBits(sym, off, rest, n)
    ensures SameBits(2 * sym, off + 1, rest, n)
  {
    forall i | 0 <= i < n
      ensures BitAt(2 * sym, i + (off + 1)) == BitAt(rest, i)
    {
      assert BitAt(2 * sym, i + off + 1) == BitAt(sym, i + off);
    }
  }

  // The working word of the literal coders with n bits to go: the tree node reached is
  // above bit 8, the bits to send are below it.
  ghost predicate Marked(sym: nat, n: nat, m: nat, rest: nat) {
    && n <= 8 && m == Shr(sym, 8)
    && Pow2(8 - n) <= m < Pow2(9 - n)
    && SameBits(sym, 8 - n, rest, n)
  }

  lemma MarkedStart(symbol: Byte)
    ensures Pow2(8) == 256 && Marked(symbol + 0x100, 8, 1, symbol)
  {
    assert Pow2(8) == 256 && Pow2(9) == 512 && Pow2(0) == 1 && Pow2(1) == 2;
    ShrEight(symbol + 0x100);
    forall i | 0 <= i < 8
      ensures BitAt(symbol + 0x100, i + 0) == BitAt(symbol, i)
    {
      RestKeepsBits(9, symbol + 0x100, i);
    }
  }

  lemma MarkedStep(sym: nat, n: nat, m: nat, rest: nat)
    requires Marked(sym, n, m, rest)
    ensures rest < Pow2(n) && m == Shr(sym, 8)
    ensures sym < 0x10000 <==> n > 0
    ensures n > 0 ==> m < 256 && BitAt(sym, 7) == Top(n, rest) == BitAt(2 * sym, 8)
    ensures n > 0 ==> Marked(2 * sym, n - 1, 2 * m + Top(n, rest), Rest(n, rest))
  {
    assert sym < 0x10000 <==> m < 256 by { ShrEight(sym); }
    if n > 0 {
      TakeTop(sym, 8 - n, rest, n);
      ShiftLeft(sym, 8 - n, Rest(n, rest), n - 1);
      ShrTwice(sym, 7);
      BitTwice(sym, 7);
      NodeBound(m, 9 - n);
    } else {
      assert Pow2(8) == 256;
    }
  }

  lemma BitTwice(v: nat, i: nat)
    ensures BitAt(2 * v, i + 1) == BitAt(v, i)
  {}

  // Unrolling one level of a tree behind what has been sent.
  lemma TreeStep(sent: seq<Decision>, base: nat, n: nat, m: nat, rest: nat, guide: nat, same: bool)
    requires n > 0 && rest < Pow2(n)
    ensures var b := Top(n, rest);
      sent + GuidedBits(base, n, m, rest, guide, same) ==
      sent + [Model(NodeCtx(base, n, m, guide, same), b)] +
      GuidedBits(base, n - 1, 2 * m + b, Rest(n, rest), guide, same && b == BitAt(guide, n - 1))
  {}

  lemma TreeEnd(sent: seq<Decision>, base: nat, m: nat, guide: nat, same: bool)
    ensures sent + GuidedBits(base, 0, m, 0, guide, same) == sent
  {}

  lemma NodeBound(m: nat, k: nat)
    requires k <= 8 && m < Pow2(k)
    ensures m < 256
  {
    PowMonotonic(k, 8);
    assert Pow2(8) == 256;
  }

  method LitEncEncode(rc: RangeEnc, probs: array<Prob>, base: nat, symbol: Byte)
    requires rc.Valid(probs) && base + 0x100 <= probs.Length
    modifies rc, probs
    ensures rc.Valid(probs) && Pow2(8) == 256
    ensures rc.start == old(rc.start) && rc.sent == old(rc.sent) + TreeBits(base, 8, symbol)
  {
    hide Marked, Pow2, Shr, BitAt, GuidedBits, EncodeAll, BigEndian;
    hide RangeEnc.Valid, RangeEnc.Abs, RangeEnc.CarryFits, RangeEnc.Total;
    MarkedStart(symbol);
    var sym: nat := symbol + 0x100;
    ghost var n: nat, m: nat, rest: nat := 8, 1, symbol;
    MarkedStep(sym, n, m, rest);
    while sym < 0x10000
      invariant rc.Valid(probs) && Marked(sym, n, m, rest) && rest < Pow2(n) && m == Shr(sym, 8)
      invariant sym < 0x10000 <==> n > 0
      invariant rc.start == old(rc.start)
      invariant rc.sent + GuidedBits(base, n, m, rest, 0, false) == old(rc.sent) + TreeBits(base, 8, symbol)
      decreases n
    {
      MarkedStep(sym, n, m, rest);
      TreeStep(rc.sent, base, n, m, rest, 0, false);
      rc.EncodeBit(probs, base + Shr(sym, 8), BitAt(sym, 7));
      n, m, rest := n - 1, 2 * m + Top(n, rest), Rest(n, rest);
      sym := 2 * sym;
      MarkedStep(sym, n, m, rest);
    }
    PowZero();
    TreeEnd(rc.sent, base, m, 0, false);
  }

  // The mask of bit 8, kept only while two words agree in that bit.
  function KeepMask(offs: nat, v: nat, w: nat): nat {
    if offs == 0x100 && BitAt(v, 8) == BitAt(w, 8) then 0x100 else 0
  }

  method LitEncEncodeMatched(rc: RangeEnc, probs: array<Prob>, base: nat, symbol: Byte, guide: Byte)
    requires rc.Valid(probs) && base + 0x300 <= probs.Length
    modifies rc, probs
    ensures rc.Valid(probs) && Pow2(8) == 256
    ensures rc.start == old(rc.start) && rc.sent == old(rc.sent) + GuidedBits(base, 8, 1, symbol, guide, true)
  {
    hide Marked, Pow2, Guiding, Shr, BitAt, GuidedBits, EncodeAll, BigEndian;
    hide RangeEnc.Valid, RangeEnc.Abs, RangeEnc.CarryFits, RangeEnc.Total;
    MarkedStart(symbol);
    var sym: nat, offs: nat, matchByte: nat := symbol + 0x100, 0x100, guide;
    ghost var n: nat, m: nat, rest: nat := 8, 1, symbol;
    GuideStart(guide);
    MarkedStep(sym, n, m, rest);
    while sym < 0x10000
      invariant rc.Valid(probs) && Marked(sym, n, m, rest) && rest < Pow2(n) && m == Shr(sym, 8)
      invariant sym < 0x10000 <==> n > 0
      invariant (offs == 0 || offs == 0x100) && Guiding(matchByte, n, guide)
      invariant rc.start == old(rc.start)
      invariant rc.sent + GuidedBits(base, n, m, rest, guide, offs == 0x100)
             == old(rc.sent) + GuidedBits(base, 8, 1, symbol, guide, true)
      decreases n
    {
      MarkedStep(sym, n, m, rest);
      GuideShift(matchByte, n, guide);
      TreeStep(rc.sent, base, n, m, rest, guide, offs == 0x100);
      matchByte := matchByte * 2;
      rc.EncodeBit(probs, base + (offs + MaskedBit(matchByte, offs) + Shr(sym, 8)), BitAt(sym, 7));
      sym := 2 * sym;
      offs := KeepMask(offs, matchByte, sym);
      n, m, rest := n - 1, 2 * m + Top(n, rest), Rest(n, rest);
      MarkedStep(sym, n, m, rest);
    }
    PowZero();
    TreeEnd(rc.sent, base, m, guide, offs == 0x100);
  }

  // ----- Lengths --------------------------------------------------------------------

  lemma AssocOne(s: seq<Decision>, x: Decision, t: seq<Decision>)
    ensures s + [x] + t == s + ([x] + t)
  {}

  lemma AssocTwo(s: seq<Decision>, x: Decision, y: Decision, t: seq<Decision>)
    ensures s + [x] + [y] + t == s + ([x] + ([y] + t))
  {}

  method LenEncEncode(rc: RangeEnc, probs: array<Prob>, base: nat, symbol: nat, posState: nat)
    requires rc.Valid(probs) && symbol < 272 && posState < 16 && base + 514 <= probs.Length
    modifies rc, probs
    ensures rc.Valid(probs)
    ensures rc.start == old(rc.start) && rc.sent == old(rc.sent) + LengthBits(base, posState, symbol)
  {
    hide GuidedBits, Pow2, TreeBits, EncodeAll, BigEndian;
    hide RangeEnc.Valid, RangeEnc.Abs, RangeEnc.CarryFits, RangeEnc.Total;
    TreeSizes();
    ghost var s := rc.sent;
    if symbol < 8 {
      rc.EncodeBit(probs, base, 0);
      RcTreeEncode(rc, probs, base + LEN_LOW + posState * 8, 3, symbol);
      AssocOne(s, Model(base, 0), TreeBits(base + LEN_LOW + posState * 8, 3, symbol));
    } else {
      rc.EncodeBit(probs, base, 1);
      if symbol < 16 {
        rc.EncodeBit(probs, base + 1, 0);
        RcTreeEncode(rc, probs, base + LEN_MID + posState * 8, 3, symbol - 8);
        AssocTwo(s, Model(base, 1), Model(base + 1, 0), TreeBits(base + LEN_MID + posState * 8, 3, symbol - 8));
      } else {
        rc.EncodeBit(probs, base + 1, 1);
        RcTreeEncode(rc, probs, base + LEN_HIGH, 8, symbol - 16);
        AssocTwo(s, Model(base, 1), Model(base + 1, 1), TreeBits(base + LEN_HIGH, 8, symbol - 16));
      }
    }
  }

  // ----- Distance slots ---------------------------------------------------------------

  // 11 on 32-bit machines, 13 on 64-bit ones.
  predicate LogBits(n: nat) { n == 11 || n == 13 }

  lemma {:induction false} SlotNext(slot: nat)
    requires slot >= 2
    ensures SlotBase(slot + 1) == SlotBase(slot) + Pow2(FooterCount(slot))
  {
    if slot >= 4 {
      SlotNext(slot - 2);
      assert Pow2(FooterCount(slot)) == 2 * Pow2(FooterCount(slot - 2));
    }
  }

  lemma {:induction false} SlotBaseEven(n: nat)
    requires n >= 1
    ensures SlotBase(2 * n) == Pow2(n)
  {
    if n > 1 { SlotBaseEven(n - 1); }
  }

  lemma SlotStart(numLogBits: nat)
    requires numLogBits >= 2
    ensures Pow2(numLogBits) >= 4 && SlotBase(2) == 2 && PosSlot(0) == 0 && PosSlot(1) == 1
  {
    assert Pow2(2) == 4;
    PowMonotonic(2, numLogBits);
  }

  // Every entry of the table is the slot of its index.
  method FastPosInit(numLogBits: nat) returns (table: array<Byte>)
    requires LogBits(numLogBits)
    ensures fresh(table) && table.Length == Pow2(numLogBits)
    ensures forall c :: 0 <= c < table.Length ==> table[c] == PosSlot(c)
  {
    hide PosSlot, SlotBase, Pow2;
    SlotStart(numLogBits);
    SlotBaseEven(numLogBits);
    table := new Byte[Pow2(numLogBits)];
    table[0], table[1] := 0, 1;
    var c, slotFast := 2, 2;
    while slotFast < numLogBits * 2
      invariant 2 <= slotFast <= numLogBits * 2 && c == SlotBase(slotFast) <= table.Length
      invariant forall i :: 0 <= i < c ==> table[i] == PosSlot(i)
    {
      SlotNext(slotFast);
      SlotBaseGrows(slotFast + 1, numLogBits * 2);
      var k := Pow2(slotFast / 2 - 1);
      var j := 0;
      while j < k
        invariant 0 <= j <= k && c == SlotBase(slotFast) + j
        invariant forall i :: 0 <= i < c ==> table[i] == PosSlot(i)
      {
        SlotInterval(c, slotFast);
        table[c] := slotFast;
        j := j + 1;
        c := c + 1;
      }
      slotFast := slotFast + 1;
    }
  }

  lemma {:induction false} SlotBaseGrows(a: nat, b: nat)
    requires 2 <= a <= b
    ensures SlotBase(a) <= SlotBase(b)
    decreases b
  {
    if a < b {
      SlotNext(b - 1);
      SlotBaseGrows(a, b - 1);
    }
  }

  lemma {:induction false} SlotOfShifted(pos: nat, i: nat)
    requires Shr(pos, i) >= 2
    ensures PosSlot(pos) == PosSlot(Shr(pos, i)) + 2 * i
    decreases i
  {
    if i > 0 {
      ShrBound(pos / 2, i - 1);
      SlotOfShifted(pos / 2, i - 1);
    }
  }

  // Distances below 2^27 (32-bit tables) or 2^31 (64-bit tables), with the sign trick that
  // picks one of two shifts.
  method GetPosSlot(table: array<Byte>, numLogBits: nat, pos: nat) returns (res: nat)
    requires LogBits(numLogBits) && table.Length == Pow2(numLogBits)
    requires forall c :: 0 <= c < table.Length ==> table[c] == PosSlot(c)
    requires pos < Pow2(2 * numLogBits + 5)
    ensures res == PosSlot(pos)
  {
    PowerTable();
    if pos < 128 {
      res := table[pos];
    } else {
      var far := (Pow2(numLogBits + 6) - 1 - pos) % WORD / 0x8000_0000;
      var i := if far == 1 then numLogBits + 5 else 6;
      ShrRange(pos, i, 1);
      ShrRange(pos, i, numLogBits);
      SlotOfShifted(pos, i);
      res := table[Shr(pos, i)] + i * 2;
    }
  }

  // ----- Whole blocks -----------------------------------------------------------------

  // One answer of the match optimiser: a length and either a repeat number below 4, a
  // distance plus 4, or LITERAL_POS for a literal.
  datatype Choice = Choice(len: nat, pos: nat)

  const LITERAL_POS := 0xFFFF_FFFF

  predicate ValidChoice(c: Choice) {
    || (c.len == 1 && (c.pos == LITERAL_POS || c.pos == 0))
    || (2 <= c.len <= 273 && c.pos < LITERAL_POS)
  }

  function SymbolOf(c: Choice, cur: Byte): (s: Symbol)
    requires ValidChoice(c)
    ensures WellFormed(s) && SymbolSize(s) == c.len && !IsEndMark(s)
  {
    if c.pos == LITERAL_POS then Literal(cur)
    else if c.pos >= 4 then Match(c.pos - 4, c.len - 2)
    else if c.len == 1 then ShortRep
    else Rep(c.pos, c.len - 2)
  }

  // What a choice stands for: its length in bytes, which are the current one, or those one of the last four
  // distances before, or those a distance of its own before.
  lemma ChoiceAdds(p: Props, z: Lz, c: Choice, cur: Byte, k: nat)
    requires ValidLz(p, z) && ValidChoice(c) && Allowed(p, z, SymbolOf(c, cur)) && k < c.len
    ensures var hist, i := Apply(p, z, SymbolOf(c, cur), c.len).hist, |z.hist| + k;
      var dist := if c.pos >= 4 then c.pos - 4 else [z.rep0, z.rep1, z.rep2, z.rep3][c.pos];
      && |hist| == |z.hist| + c.len && hist[..|z.hist|] == z.hist
      && if c.pos == 0xFFFF_FFFF then hist[i] == cur else dist < i && hist[i] == hist[i - 1 - dist]
  {
    hide Apply;
    LzmaFormat.BytesAdded(p, z, SymbolOf(c, cur), c.len, k);
  }

  predicate ValidChoices(choices: seq<Choice>, data: seq<Byte>, pos: nat) {
    choices != [] ==>
      && ValidChoice(choices[0]) && pos < |data|
      && ValidChoices(choices[1..], data, pos + choices[0].len)
  }

  function Symbols(choices: seq<Choice>, data: seq<Byte>, pos: nat): seq<Symbol>
    requires ValidChoices(choices, data, pos)
  {
    if choices == [] then []
    else [SymbolOf(choices[0], data[pos])] + Symbols(choices[1..], data, pos + choices[0].len)
  }

  const LITERAL_NEXT: seq<nat> := [0, 0, 0, 0, 1, 2, 3, 4, 5, 6, 4, 5]
  const MATCH_NEXT: seq<nat> := [7, 7, 7, 7, 7, 7, 7, 10, 10, 10, 10, 10]
  const REP_NEXT: seq<nat> := [8, 8, 8, 8, 8, 8, 8, 11, 11, 11, 11, 11]
  const SHORT_REP_NEXT: seq<nat> := [9, 9, 9, 9, 9, 9, 9, 11, 11, 11, 11, 11]

  lemma NothingLeft(p: Props, z: Lz, data: seq<Byte>)
    requires ValidLz(p, z) && ParseOf(p, z, [], data)
    ensures z.hist == data && StreamBits(p, z, [], data) == [] && Finish(p, z, [], data) == z
  {}

  class LzmaEnc {
    const p: Props
    const numLogBits: nat
    const rc: RangeEnc
    const probs: array<Prob>
    const reps: array<nat>
    const fastPos: array<Byte>
    var state: nat
    var nowPos: nat

    ghost predicate Valid()
      reads this, rc, probs, reps, fastPos
    {
      && ValidProps(p) && LogBits(numLogBits)
      && probs.Length == NumProbs(p) && reps.Length == 4
      && fastPos.Length == Pow2(numLogBits)
      && (forall c :: 0 <= c < fastPos.Length ==> fastPos[c] == PosSlot(c))
      && state < 12 && rc.Valid(probs)
    }

    // The state shared with the decoder, for the data coded so far.
    ghost function Shared(hist: seq<Byte>): Lz
      reads this, reps
      requires reps.Length == 4
    {
      Lz(state, reps[0], reps[1], reps[2], reps[3], hist)
    }

    constructor (props: Props, logBits: nat)
      requires ValidProps(props) && LogBits(logBits)
      ensures Valid() && p == props && numLogBits == logBits
      ensures fresh(rc) && fresh(probs) && fresh(reps)
      ensures Shared([]) == LZ_START && nowPos == 0
      ensures rc.sent == [] && rc.start == EncStart(FreshProbs(NumProbs(props)))
    {
      hide PosSlot, Pow2, EncodeAll, BigEndian;
      hide RangeEnc.Valid, RangeEnc.Abs, RangeEnc.CarryFits, RangeEnc.Total;
      var table := FastPosInit(logBits);
      var pr := new Prob[NumProbs(props)](_ => 1024);
      p, numLogBits, fastPos, probs := props, logBits, table, pr;
      reps := new nat[4](_ => 0);
      rc := new RangeEnc(pr);
      state, nowPos := 0, 0;
      new;
      assert probs[..] == FreshProbs(NumProbs(props));
    }

    method EncodeLiteral(data: seq<Byte>, ghost hist: seq<Byte>, posState: nat)
      requires Valid() && nowPos < |data| && hist == data[..nowPos] && ValidLz(p, Shared(hist))
      requires posState == nowPos % Pow2(p.pb) && posState < 16
      modifies this`state, rc, probs
      ensures Valid() && Shared(hist) == Turn(old(Shared(hist)), Literal(data[nowPos]))
      ensures rc.start == old(rc.start)
      ensures rc.sent == old(rc.sent) + SymbolBits(ViewOf(p, old(Shared(hist))), Literal(data[nowPos]))
    {
      hide GuidedBits, Pow2, EncodeAll, BigEndian, PosSlot, Shl, Shr;
      hide RangeEnc.Valid, RangeEnc.Abs, RangeEnc.CarryFits, RangeEnc.Total;
      LiteralInTable(p, hist);
      WordMask(nowPos, p.lp);
      ghost var v, s := ViewOf(p, Shared(hist)), rc.sent;
      var ctx := IS_MATCH + state * 16 + posState;
      rc.EncodeBit(probs, ctx, 0);
      var curByte := data[nowPos];
      var prev := if nowPos == 0 then 0 else data[nowPos - 1];
      var base := LITERAL + LIT_SIZE * (Shl(nowPos % WORD % Pow2(p.lp), p.lc) + Shr(prev, 8 - p.lc));
      assert base == v.litBase;
      if state < 7 {
        LitEncEncode(rc, probs, base, curByte);
      } else {
        LitEncEncodeMatched(rc, probs, base, curByte, data[nowPos - reps[0] - 1]);
      }
      AssocOne(s, Model(ctx, 0), LiteralBits(v, curByte));
      state := LITERAL_NEXT[state];
    }

    // Which of the four last distances, and how they move up.
    method EncodeRepIndex(ghost v: View, ghost hist: seq<Byte>, posState: nat, pos: nat, long: bool)
      requires Valid() && pos < 4 && posState < 16 && v.state == state && v.posState == posState
      requires long || pos == 0
      modifies rc, probs, reps
      ensures Valid() && rc.start == old(rc.start)
      ensures rc.sent == old(rc.sent) +
        if long then RepBits(v, pos)
        else [Model(IS_REP_G0 + v.state, 0), Model(IS_REP0_LONG + v.state * 16 + v.posState, 0)]
      ensures Shared(hist) == Turn(old(Shared(hist)), Rep(pos, 0)).(state := state)
    {
      hide Pow2, EncodeAll, BigEndian, PosSlot;
      hide RangeEnc.Valid, RangeEnc.Abs, RangeEnc.CarryFits, RangeEnc.Total;
      TableSize(p);
      if pos == 0 {
        rc.EncodeBit(probs, IS_REP_G0 + state, 0);
        rc.EncodeBit(probs, IS_REP0_LONG + state * 16 + posState, if long then 1 else 0);
      } else {
        var distance := reps[pos];
        rc.EncodeBit(probs, IS_REP_G0 + state, 1);
        if pos == 1 {
          rc.EncodeBit(probs, IS_REP_G1 + state, 0);
        } else {
          rc.EncodeBit(probs, IS_REP_G1 + state, 1);
          rc.EncodeBit(probs, IS_REP_G2 + state, pos - 2);
          if pos == 3 {
            reps[3] := reps[2];
          }
          reps[2] := reps[1];
        }
        reps[1] := reps[0];
        reps[0] := distance;
      }
    }

    method EncodeRep(ghost hist: seq<Byte>, posState: nat, c: Choice)
      requires Valid() && ValidLz(p, Shared(hist)) && ValidChoice(c) && c.pos < 4
      requires posState == |hist| % Pow2(p.pb) && posState < 16
      modifies this`state, rc, probs, reps
      ensures Valid() && Shared(hist) == Turn(old(Shared(hist)), SymbolOf(c, 0))
      ensures rc.start == old(rc.start)
      ensures rc.sent == old(rc.sent) + SymbolBits(ViewOf(p, old(Shared(hist))), SymbolOf(c, 0))
    {
      hide Pow2, EncodeAll, BigEndian, PosSlot, LengthBits, RepBits, Turn, ViewOf, SymbolBits, SymbolOf;
      hide RangeEnc.Valid, RangeEnc.Abs, RangeEnc.CarryFits, RangeEnc.Total;
      TableSize(p);
      RepTurn(Shared(hist), c);
      ViewIs(p, Shared(hist));
      ghost var v, s := ViewOf(p, Shared(hist)), rc.sent;
      RepSymbol(v, c, s);
      rc.EncodeBit(probs, IS_MATCH + state * 16 + posState, 1);
      rc.EncodeBit(probs, IS_REP + state, 1);
      EncodeRepIndex(v, hist, posState, c.pos, c.len != 1);
      if c.len == 1 {
        state := SHORT_REP_NEXT[state];
      } else {
        LenEncEncode(rc, probs, REP_LEN_CODER, c.len - 2, posState);
        state := REP_NEXT[state];
      }
    }

    // The distance of a match: slot tree, then footer.
    method EncodeDistance(len: nat, pos: nat)
      requires Valid() && pos < Pow2(2 * numLogBits + 5) && pos <= MAX_DIST
      modifies rc, probs
      ensures Valid() && rc.start == old(rc.start)
      ensures rc.sent == old(rc.sent) + DistanceBits(len, pos)
    {
      hide Pow2, EncodeAll, BigEndian, GuidedBits, ReverseBits, DirectBits, PosSlot, LenState;
      hide RangeEnc.Valid, RangeEnc.Abs, RangeEnc.CarryFits, RangeEnc.Total;
      TableSize(p);
      TreeSizes();
      LenStateSmall(len);
      var posSlot := GetPosSlot(fastPos, numLogBits, pos);
      SlotBelow64(pos);
      SlotInterval(pos, posSlot);
      ghost var s := rc.sent;
      ghost var tree := TreeBits(POS_SLOT + LenState(len) * 64, 6, posSlot);
      RcTreeEncode(rc, probs, POS_SLOT + LenState(len) * 64, 6, posSlot);
      if posSlot >= 4 {
        var footerBits := posSlot / 2 - 1;
        var base := SlotStartOf(posSlot);
        var posReduced := pos - base;
        if posSlot < 14 {
          SpecTable(posSlot);
          RcTreeReverseEncode(rc, probs, SPEC_POS + base - posSlot - 1, footerBits, posReduced);
        } else {
          SplitFooter(footerBits, posReduced);
          rc.EncodeDirectBits(probs, posReduced / 16, footerBits - 4);
          RcTreeReverseEncode(rc, probs, ALIGN, 4, posReduced % 16);
          AssocTail(s, tree, DirectBits(footerBits - 4, posReduced / 16), ReverseBits(ALIGN, 4, 1, posReduced % 16));
        }
      }
      assert rc.sent == s + (tree + FooterBits(posSlot, pos - SlotBase(posSlot)));
    }

    lemma LenStateSmall(len: nat)
      ensures LenState(len) <= 3
    {}

    method EncodeMatch(ghost hist: seq<Byte>, posState: nat, len: nat, dist: nat)
      requires Valid() && ValidLz(p, Shared(hist)) && len < 272
      requires dist < Pow2(2 * numLogBits + 5) && dist <= MAX_DIST
      requires posState == |hist| % Pow2(p.pb) && posState < 16
      modifies this`state, rc, probs, reps
      ensures Valid() && Shared(hist) == Turn(old(Shared(hist)), Match(dist, len))
      ensures rc.start == old(rc.start)
      ensures rc.sent == old(rc.sent) + SymbolBits(ViewOf(p, old(Shared(hist))), Match(dist, len))
    {
      hide Pow2, EncodeAll, BigEndian, PosSlot, LengthBits, DistanceBits, Turn, ViewOf, SymbolBits;
      hide RangeEnc.Valid, RangeEnc.Abs, RangeEnc.CarryFits, RangeEnc.Total;
      TableSize(p);
      MatchTurn(Shared(hist), dist, len);
      ViewIs(p, Shared(hist));
      MatchSymbol(ViewOf(p, Shared(hist)), dist, len, rc.sent);
      rc.EncodeBit(probs, IS_MATCH + state * 16 + posState, 1);
      rc.EncodeBit(probs, IS_REP + state, 0);
      state := MATCH_NEXT[state];
      LenEncEncode(rc, probs, LEN_CODER, len, posState);
      EncodeDistance(len, dist);
      reps[3] := reps[2];
      reps[2] := reps[1];
      reps[1] := reps[0];
      reps[0] := dist;
    }

    method EncodeChoice(data: seq<Byte>, ghost hist: seq<Byte>, c: Choice)
      requires Valid() && nowPos < |data| && hist == data[..nowPos] && ValidLz(p, Shared(hist))
      requires ValidChoice(c) && Near(c, numLogBits)
      modifies this`state, rc, probs, reps
      ensures Valid() && Shared(hist) == Turn(old(Shared(hist)), SymbolOf(c, data[nowPos]))
      ensures rc.start == old(rc.start)
      ensures rc.sent == old(rc.sent) + SymbolBits(ViewOf(p, old(Shared(hist))), SymbolOf(c, data[nowPos]))
    {
      hide Pow2, EncodeAll, BigEndian, PosSlot, ViewOf, SymbolBits, Turn;
      hide RangeEnc.Valid, RangeEnc.Abs, RangeEnc.CarryFits, RangeEnc.Total;
      WordMask(nowPos, p.pb);
      var posState := nowPos % WORD % Pow2(p.pb);
      if c.len == 1 && c.pos == LITERAL_POS {
        EncodeLiteral(data, hist, posState);
      } else if c.pos < 4 {
        EncodeRep(hist, posState, c);
      } else {
        EncodeMatch(hist, posState, c.len - 2, c.pos - 4);
      }
    }

    // The first byte has no previous byte and no optimiser behind it.
    method EncodeFirst(data: seq<Byte>)
      requires Valid() && nowPos == 0 && data != [] && Shared([]) == LZ_START
      modifies this`state, this`nowPos, rc, probs
      ensures Valid() && nowPos == 1
      ensures Shared(data[..1]) == Apply(p, LZ_START, Literal(data[0]), 1)
      ensures rc.start == old(rc.start)
      ensures rc.sent == old(rc.sent) + SymbolBits(ViewOf(p, LZ_START), Literal(data[0]))
    {
      hide GuidedBits, EncodeAll, BigEndian, PosSlot;
      hide RangeEnc.Valid, RangeEnc.Abs, RangeEnc.CarryFits, RangeEnc.Total;
      TableSize(p);
      FirstView(p);
      ghost var s := rc.sent;
      rc.EncodeBit(probs, IS_MATCH + state * 16, 0);
      LitEncEncode(rc, probs, LITERAL, data[0]);
      AssocOne(s, Model(0, 0), TreeBits(LITERAL, 8, data[0]));
      state := LITERAL_NEXT[state];
      nowPos := 1;
    }

    // The loop over the optimiser's choices, from nowPos to the end of the data.
    method CodeOneBlock(data: seq<Byte>, choices: seq<Choice>)
      requires Valid() && nowPos <= |data| && ValidLz(p, Shared(data[..nowPos]))
      requires ValidChoices(choices, data, nowPos) && forall c :: c in choices ==> Near(c, numLogBits)
      requires ParseOf(p, Shared(data[..nowPos]), Symbols(choices, data, nowPos), data)
      modifies this`state, this`nowPos, rc, probs, reps
      ensures Valid() && rc.start == old(rc.start) && nowPos == |data|
      ensures Shared(data) == Finish(p, old(Shared(data[..nowPos])), old(Symbols(choices, data, nowPos)), data)
      ensures rc.sent == old(rc.sent) +
        StreamBits(p, old(Shared(data[..nowPos])), old(Symbols(choices, data, nowPos)), data)
    {
      hide Pow2, EncodeAll, BigEndian, PosSlot, ViewOf, SymbolBits, Turn, Apply, ParseOf, StreamBits, Finish;
      hide RangeEnc.Valid, RangeEnc.Abs, RangeEnc.CarryFits, RangeEnc.Total;
      var i := 0;
      ghost var z, left := Shared(data[..nowPos]), Symbols(choices, data, nowPos);
      ghost var bits := rc.sent + StreamBits(p, z, left, data);
      ghost var last := Finish(p, z, left, data);
      while i < |choices|
        invariant 0 <= i <= |choices| && nowPos <= |data| && Valid()
        invariant z == Shared(data[..nowPos]) && ValidLz(p, z)
        invariant ValidChoices(choices[i..], data, nowPos) && left == Symbols(choices[i..], data, nowPos)
        invariant ParseOf(p, z, left, data) && Finish(p, z, left, data) == last
        invariant rc.start == old(rc.start) && rc.sent + StreamBits(p, z, left, data) == bits
      {
        ghost var sym := SymbolOf(choices[i], data[nowPos]);
        ParseStep(p, z, left, data);
        ghost var z' := Apply(p, z, sym, choices[i].len);
        StreamStep(p, z, left, data, rc.sent);
        EncodeChoice(data, data[..nowPos], choices[i]);
        ApplyIsTurn(p, z, sym, choices[i].len);
        assert choices[i..][1..] == choices[i + 1..];
        nowPos := nowPos + choices[i].len;
        i := i + 1;
        z, left := z', left[1..];
        assert z.hist == data[..nowPos];
      }
      NothingLeft(p, z, data);
      assert data[..nowPos] == data && rc.sent + [] == rc.sent;
    }

    method WriteEndMarker(ghost hist: seq<Byte>, posState: nat)
      requires Valid() && ValidLz(p, Shared(hist))
      requires posState == |hist| % Pow2(p.pb) && posState < 16
      modifies this`state, rc, probs
      ensures Valid() && rc.start == old(rc.start)
      ensures rc.sent == old(rc.sent) + SymbolBits(ViewOf(p, old(Shared(hist))), Match(MAX_DIST, 0))
    {
      hide Pow2, EncodeAll, BigEndian, PosSlot, LengthBits, DistanceBits, ViewOf, SymbolBits, TreeBits, DirectBits;
      hide RangeEnc.Valid, RangeEnc.Abs, RangeEnc.CarryFits, RangeEnc.Total;
      TableSize(p);
      TreeSizes();
      PowerTable();
      ViewIs(p, Shared(hist));
      MatchSymbol(ViewOf(p, Shared(hist)), MAX_DIST, 0, rc.sent);
      EndMarkDistance();
      ghost var s := rc.sent;
      rc.EncodeBit(probs, IS_MATCH + state * 16 + posState, 1);
      rc.EncodeBit(probs, IS_REP + state, 0);
      state := MATCH_NEXT[state];
      LenEncEncode(rc, probs, LEN_CODER, 0, posState);
      s := rc.sent;
      RcTreeEncode(rc, probs, POS_SLOT + 0 * 64, 6, 63);
      rc.EncodeDirectBits(probs, 0x3FF_FFFF, 26);
      RcTreeReverseEncode(rc, probs, ALIGN, 4, 15);
      AssocTail(s, TreeBits(POS_SLOT, 6, 63), DirectBits(26, 0x3FF_FFFF), ReverseBits(ALIGN, 4, 1, 15));
    }

    method Flush(ghost hist: seq<Byte>, writeEndMark: bool)
      requires Valid() && ValidLz(p, Shared(hist)) && nowPos == |hist|
      modifies this`state, rc, probs
      ensures rc.start == old(rc.start)
      ensures rc.sent == old(rc.sent) + MarkBits(p, old(Shared(hist)), writeEndMark)
      ensures Flushed(EncodeAll(rc.start, rc.sent), rc.out)
      ensures EncodeAll(rc.start, rc.sent).probs == probs[..]
    {
      hide Pow2, BigEndian, PosSlot, SymbolBits, ViewOf, EncodeAll;
      if writeEndMark {
        WordMask(nowPos, p.pb);
        WriteEndMarker(hist, nowPos % WORD % Pow2(p.pb));
      }
      rc.FlushData(probs);
    }
  }

  lemma EndMarkDistance()
    ensures PosSlot(MAX_DIST) == 63 < Pow2(6)
    ensures Pow2(26) == 0x400_0000 && 15 < Pow2(4)
    ensures DistanceBits(0, MAX_DIST) ==
      TreeBits(POS_SLOT, 6, 63) + (DirectBits(26, 0x3FF_FFFF) + ReverseBits(ALIGN, 4, 1, 15))
  {
    hide GuidedBits, DirectBits, ReverseBits;
    PowerTable();
    Pow2At32();
    SlotOf63();
    SlotInterval(MAX_DIST, 63);
    assert FooterCount(63) == 30;
  }

  lemma SlotOf63()
    ensures SlotBase(63) == 0xC000_0000 && Pow2(30) == 0x4000_0000 && Pow2(26) == 0x400_0000
    ensures Pow2(6) == 64 && Pow2(4) == 16
  {
    SlotNext(63);
    SlotBaseEven(32);
    Pow2At32();
    assert Pow2(32) == 2 * Pow2(31) && Pow2(31) == 2 * Pow2(30);
    assert Pow2(30) == 2 * Pow2(29) && Pow2(29) == 2 * Pow2(28);
    assert Pow2(28) == 2 * Pow2(27) && Pow2(27) == 2 * Pow2(26);
    assert Pow2(4) == 16 && Pow2(6) == 64;
  }

  lemma AssocTail(s: seq<Decision>, t: seq<Decision>, u: seq<Decision>, w: seq<Decision>)
    ensures s + t + u + w == s + (t + (u + w))
  {}

  lemma RepTurn(z: Lz, c: Choice)
    requires z.state < 12 && ValidChoice(c) && c.pos < 4
    ensures Turn(z, SymbolOf(c, 0)) ==
      Turn(z, Rep(c.pos, 0)).(state := if c.len == 1 then SHORT_REP_NEXT[z.state] else REP_NEXT[z.state])
  {}

  lemma RepSymbol(v: View, c: Choice, s: seq<Decision>)
    requires ValidChoice(c) && c.pos < 4
    ensures s + SymbolBits(v, SymbolOf(c, 0)) ==
      var head := s + [Model(IS_MATCH + v.state * 16 + v.posState, 1)] + [Model(IS_REP + v.state, 1)];
      if c.len == 1
      then head + [Model(IS_REP_G0 + v.state, 0), Model(IS_REP0_LONG + v.state * 16 + v.posState, 0)]
      else head + RepBits(v, c.pos) + LengthBits(REP_LEN_CODER, v.posState, c.len - 2)
  {
    hide RepBits, LengthBits;
  }

  lemma MatchTurn(z: Lz, dist: nat, len: nat)
    requires z.state < 12
    ensures Turn(z, Match(dist, len)) == Lz(MATCH_NEXT[z.state], dist, z.rep0, z.rep1, z.rep2, z.hist)
  {}

  lemma MatchSymbol(v: View, dist: nat, len: nat, s: seq<Decision>)
    requires len < 272 && dist <= MAX_DIST
    ensures s + SymbolBits(v, Match(dist, len)) ==
      s + [Model(IS_MATCH + v.state * 16 + v.posState, 1)] + [Model(IS_REP + v.state, 0)]
      + LengthBits(LEN_CODER, v.posState, len) + DistanceBits(len, dist)
  {
    hide DistanceBits, LengthBits;
  }

  // Distances the slot table can handle.
  predicate Near(c: Choice, numLogBits: nat) {
    4 <= c.pos < LITERAL_POS ==> c.pos - 4 < Pow2(2 * numLogBits + 5)
  }

  // What a valid parse of the data tells about its first symbol.
  lemma ParseStep(p: Props, z: Lz, syms: seq<Symbol>, data: seq<Byte>)
    requires ValidLz(p, z) && ParseOf(p, z, syms, data) && syms != []
    ensures Allowed(p, z, syms[0])
    ensures var n := SymbolSize(syms[0]);
      && |z.hist| + n <= |data|
      && Apply(p, z, syms[0], n).hist == data[..|z.hist| + n]
  {
    ParsePrefix(p, Apply(p, z, syms[0], SymbolSize(syms[0])), syms[1..], data);
  }

  lemma {:induction false} ParsePrefix(p: Props, z: Lz, syms: seq<Symbol>, data: seq<Byte>)
    requires ValidLz(p, z) && ParseOf(p, z, syms, data)
    ensures z.hist <= data
    decreases |syms|
  {
    if syms != [] {
      ParsePrefix(p, Apply(p, z, syms[0], SymbolSize(syms[0])), syms[1..], data);
    }
  }

  lemma StreamStep(p: Props, z: Lz, syms: seq<Symbol>, data: seq<Byte>, sent: seq<Decision>)
    requires ValidLz(p, z) && ParseOf(p, z, syms, data) && syms != []
    ensures var z' := Apply(p, z, syms[0], SymbolSize(syms[0]));
      && ParseOf(p, z', syms[1..], data) && Finish(p, z, syms, data) == Finish(p, z', syms[1..], data)
      && sent + StreamBits(p, z, syms, data)
         == sent + SymbolBits(ViewOf(p, z), syms[0]) + StreamBits(p, z', syms[1..], data)
  {
    hide SymbolBits, ViewOf, Apply;
  }

  lemma ApplyIsTurn(p: Props, z: Lz, s: Symbol, n: nat)
    requires ValidLz(p, z) && Allowed(p, z, s) && 1 <= n <= SymbolSize(s)
    ensures var a, t := Apply(p, z, s, n), Turn(z, s);
      a == Lz(t.state, t.rep0, t.rep1, t.rep2, t.rep3, a.hist)
  {}

  // The parse the encoder follows: the first byte, then the optimiser's choices.
  function Parse(choices: seq<Choice>, data: seq<Byte>): seq<Symbol>
    requires data != [] ==> ValidChoices(choices, data, 1)
  {
    if data == [] then [] else [Literal(data[0])] + Symbols(choices, data, 1)
  }

  // Main result: whatever valid choices the optimiser makes, the bytes the encoder writes
  // decode to the data, up to its length or up to the end marker, and are used up exactly.
  method LzmaEncode(p: Props, logBits: nat, data: seq<Byte>, choices: seq<Choice>, mark: bool)
      returns (out: seq<Byte>)
    requires ValidProps(p) && LogBits(logBits)
    requires data != [] ==> ValidChoices(choices, data, 1)
    requires forall c :: c in choices ==> Near(c, logBits)
    requires ParseOf(p, LZ_START, Parse(choices, data), data)
    ensures |out| >= 5 && out[0] == 0
    ensures forall limit: nat :: (if mark then |data| < limit else |data| == limit) ==>
      var r := Run(p, limit, out, St(DecStart(out, FreshProbs(NumProbs(p))), LZ_START, 0, false));
      && r.Stopped? && r.s.z.hist == data && r.s.rem == 0 && r.s.done == mark
      && r.s.d.code == 0 && r.s.d.pos == |out|
    ensures forall limit: nat :: limit <= |data| ==>
      var r := Run(p, limit, out, St(DecStart(out, FreshProbs(NumProbs(p))), LZ_START, 0, false));
      && r.Stopped? && r.s.z.hist == data[..limit] && !r.s.done
      && r.s.rem == CutOff(Parse(choices, data), 0, limit)
    ensures data == [] ==>
      out == if mark then [0, 0x83, 0xFF, 0xFB, 0xFF, 0xFF, 0xC0, 0, 0, 0] else [0, 0, 0, 0, 0]
    ensures !mark && |data| == 1 ==>
      out == if data[0] == 0 then [0, 0, 0, 0, 0, 0]
             else if data[0] == 1 then [0, 0, 0x7F, 0xFE, 0, 0]
             else if data[0] % 2 == 0 then [0, data[0] / 2 - 1, 0xFF, 0xFC, 0, 0]
             else [0, data[0] / 2, 0x7F, 0xFC, 0, 0]
  {
    hide Pow2, BigEndian, PosSlot, SymbolBits, ViewOf, EncodeAll, Run, RangeEnc.Valid, Apply;
    var enc := new LzmaEnc(p, logBits);
    ghost var syms := Parse(choices, data);
    ghost var probs := FreshProbs(NumProbs(p));
    if data != [] {
      ParseStep(p, LZ_START, syms, data);
      StreamStep(p, LZ_START, syms, data, []);
      assert syms[1..] == Symbols(choices, data, 1);
      enc.EncodeFirst(data);
      enc.CodeOneBlock(data, choices);
    }
    FinishHist(p, LZ_START, syms, data);
    enc.Flush(data, mark);
    out := enc.rc.out;
    assert enc.rc.sent == AllBits(p, syms, data, mark);
    forall limit: nat | if mark then |data| < limit else |data| == limit
      ensures var r := Run(p, limit, out, St(DecStart(out, probs), LZ_START, 0, false));
        && r.Stopped? && r.s.z.hist == data && r.s.rem == 0 && r.s.done == mark
        && r.s.d.code == 0 && r.s.d.pos == |out|
    {
      RoundTrip(p, syms, data, mark, limit, probs, out);
    }
    forall limit: nat | limit <= |data|
      ensures var r := Run(p, limit, out, St(DecStart(out, probs), LZ_START, 0, false));
        && r.Stopped? && r.s.z.hist == data[..limit] && !r.s.done && r.s.rem == CutOff(syms, 0, limit)
    {
      RoundTripPart(p, syms, data, mark, limit, probs, out);
    }
    if !mark {
      if data == [] { LzmaAnswers.NoLiteral(p, out); }
      if |data| == 1 { LzmaAnswers.OneLiteral(p, data, out); }
    } else if data == [] {
      LzmaAnswers.OnlyMark(p, out);
    }
    RoundTrip(p, syms, data, mark, if mark then |data| + 1 else |data|, probs, out);
  }
}
