// LZMA symbols as lists of binary decisions, the decoder's parse of a symbol, and the
// equation between them: a parse returns a symbol exactly when its decisions were read.

module LzmaSymbols {
  import opened RangeCoder
  import opened RangeBudget
  import opened Words

  // ----- Context layout: offsets into the one probability table --------------------

  const IS_MATCH := 0
  const IS_REP := 192
  const IS_REP_G0 := 204
  const IS_REP_G1 := 216
  const IS_REP_G2 := 228
  const IS_REP0_LONG := 240
  const POS_SLOT := 432
  const SPEC_POS := 688
  const ALIGN := 802
  const LEN_CODER := 818
  const REP_LEN_CODER := 1332
  const LITERAL := 1846
  const LIT_SIZE := 768
  const LEN_LOW := 2
  const LEN_MID := 130
  const LEN_HIGH := 258
  const MAX_DIST := 0xFFFF_FFFF

  // What the answer must be for any list of decisions: Some exactly when all bits agree.
  function When(hit: bool, d: Dec): Option<Dec> { if hit then Some(d) else None }

  lemma AfterCons(inp: seq<Byte>, d: Dec, x: Decision, rest: seq<Decision>)
    ensures After(inp, d, [x] + rest) ==
            var (b, d') := DecodeOne(inp, d, x);
            if b == x.bit then After(inp, d', rest) else None
  {
    assert ([x] + rest)[1..] == rest;
  }

  // ----- Bit trees, most significant bit first -------------------------------------

  // A literal after a match is guided by the byte at the last distance: while all bits
  // so far agree with it, its next bit picks one of two further trees. A plain tree is
  // one that is not guided.
  function NodeCtx(base: nat, n: nat, m: nat, guide: nat, same: bool): nat
    requires n > 0
  {
    if same then base + 0x100 + 0x100 * BitAt(guide, n - 1) + m else base + m
  }

  // The leading bit of an n-bit value, and the value without it.
  function Top(n: nat, v: nat): Bit
    requires n > 0
  {
    if v < Pow2(n - 1) then 0 else 1
  }

  function Rest(n: nat, v: nat): (r: nat)
    requires n > 0 && v < Pow2(n)
    ensures r < Pow2(n - 1)
  {
    if v < Pow2(n - 1) then v else v - Pow2(n - 1)
  }

  function Join(n: nat, b: Bit, r: nat): nat
    requires n > 0
  {
    if b == 0 then r else Pow2(n - 1) + r
  }

  // offs is 0x100 or 0: a mask for bit 8.
  function MaskedBit(v: nat, offs: nat): nat { if offs == 0x100 then 0x100 * BitAt(v, 8) else 0 }

  // The word of the guiding byte with n bits to go.
  ghost predicate Guiding(word: nat, n: nat, guide: nat) {
    n <= 8 && forall i :: 0 <= i < n ==> BitAt(word, i + (8 - n)) == BitAt(guide, i)
  }

  lemma GuideStart(guide: nat)
    ensures Guiding(guide, 8, guide)
  {}

  lemma GuideShift(word: nat, n: nat, guide: nat)
    requires n > 0 && Guiding(word, n, guide)
    ensures BitAt(2 * word, 8) == BitAt(guide, n - 1)
    ensures Guiding(2 * word, n - 1, guide)
  {
    assert BitAt(word, n - 1 + (8 - n)) == BitAt(guide, n - 1);
    assert BitAt(2 * word, 8) == BitAt(word, 7);
    forall i | 0 <= i < n - 1
      ensures BitAt(2 * word, i + (8 - (n - 1))) == BitAt(guide, i)
    {
      assert BitAt(2 * word, i + (8 - n) + 1) == BitAt(word, i + (8 - n));
    }
  }

  function GuidedBits(base: nat, n: nat, m: nat, sym: nat, guide: nat, same: bool): seq<Decision>
    requires sym < Pow2(n)
    decreases n
  {
    if n == 0 then []
    else
      var b := Top(n, sym);
      [Model(NodeCtx(base, n, m, guide, same), b)] +
      GuidedBits(base, n - 1, 2 * m + b, Rest(n, sym), guide, same && b == BitAt(guide, n - 1))
  }

  function ParseGuided(inp: seq<Byte>, d: Dec, base: nat, n: nat, m: nat, guide: nat, same: bool)
      : (r: (nat, Dec))
    ensures r.0 < Pow2(n)
    decreases n
  {
    if n == 0 then (0, d)
    else
      var (b, d1) := DecodeModel(inp, d, NodeCtx(base, n, m, guide, same));
      var (v, d2) := ParseGuided(inp, d1, base, n - 1, 2 * m + b, guide, same && b == BitAt(guide, n - 1));
      (Join(n, b, v), d2)
  }

  lemma {:induction false} GuidedParses(inp: seq<Byte>, d: Dec, base: nat, n: nat, m: nat, sym: nat,
                                        guide: nat, same: bool)
    requires sym < Pow2(n)
    ensures var (r, d') := ParseGuided(inp, d, base, n, m, guide, same);
      After(inp, d, GuidedBits(base, n, m, sym, guide, same)) == When(r == sym, d')
    decreases n
  {
    hide DecodeModel;
    if n > 0 {
      var b := Top(n, sym);
      var x := Model(NodeCtx(base, n, m, guide, same), b);
      var (a, d1) := DecodeOne(inp, d, x);
      var next := same && b == BitAt(guide, n - 1);
      AfterCons(inp, d, x, GuidedBits(base, n - 1, 2 * m + b, Rest(n, sym), guide, next));
      if a == b {
        GuidedParses(inp, d1, base, n - 1, 2 * m + b, Rest(n, sym), guide, next);
      }
    }
  }

  function TreeBits(base: nat, n: nat, sym: nat): seq<Decision>
    requires sym < Pow2(n)
  {
    GuidedBits(base, n, 1, sym, 0, false)
  }

  function ParseTree(inp: seq<Byte>, d: Dec, base: nat, n: nat): (r: (nat, Dec))
    ensures r.0 < Pow2(n)
  {
    ParseGuided(inp, d, base, n, 1, 0, false)
  }

  // ----- Bit trees, least significant bit first -------------------------------------

  function ReverseBits(base: nat, n: nat, m: nat, sym: nat): seq<Decision>
    decreases n
  {
    if n == 0 then []
    else [Model(base + m, sym % 2)] + ReverseBits(base, n - 1, 2 * m + sym % 2, sym / 2)
  }

  function ParseReverse(inp: seq<Byte>, d: Dec, base: nat, n: nat, m: nat): (r: (nat, Dec))
    ensures r.0 < Pow2(n)
    decreases n
  {
    if n == 0 then (0, d)
    else
      var (b, d1) := DecodeModel(inp, d, base + m);
      var (r, d2) := ParseReverse(inp, d1, base, n - 1, 2 * m + b);
      (b + 2 * r, d2)
  }

  lemma {:induction false} ReverseParses(inp: seq<Byte>, d: Dec, base: nat, n: nat, m: nat, sym: nat)
    requires sym < Pow2(n)
    ensures var (r, d') := ParseReverse(inp, d, base, n, m);
      After(inp, d, ReverseBits(base, n, m, sym)) == When(r == sym, d')
    decreases n
  {
    hide DecodeModel;
    if n > 0 {
      var x := Model(base + m, sym % 2);
      var (b, d1) := DecodeOne(inp, d, x);
      AfterCons(inp, d, x, ReverseBits(base, n - 1, 2 * m + sym % 2, sym / 2));
      if b == x.bit {
        ReverseParses(inp, d1, base, n - 1, 2 * m + b, sym / 2);
      }
    }
  }

  // ----- Direct bits ----------------------------------------------------------------

  function DirectBits(n: nat, v: nat): seq<Decision>
    requires v < Pow2(n)
    decreases n
  {
    if n == 0 then [] else [Direct(Top(n, v))] + DirectBits(n - 1, Rest(n, v))
  }

  function ParseDirect(inp: seq<Byte>, d: Dec, n: nat): (r: (nat, Dec))
    ensures r.0 < Pow2(n)
    decreases n
  {
    if n == 0 then (0, d)
    else
      var (b, d1) := DecodeDirect(inp, d);
      var (v, d2) := ParseDirect(inp, d1, n - 1);
      (Join(n, b, v), d2)
  }

  lemma {:induction false} DirectParses(inp: seq<Byte>, d: Dec, n: nat, v: nat)
    requires v < Pow2(n)
    ensures var (r, d') := ParseDirect(inp, d, n);
      After(inp, d, DirectBits(n, v)) == When(r == v, d')
    decreases n
  {
    if n > 0 {
      var b := Top(n, v);
      var (a, d1) := DecodeDirect(inp, d);
      AfterCons(inp, d, Direct(b), DirectBits(n - 1, Rest(n, v)));
      if a == b {
        DirectParses(inp, d1, n - 1, Rest(n, v));
      }
    }
  }

  // ----- Match lengths ----------------------------------------------------------------

  // Lengths are counted from the shortest match: 0..271.
  function LengthBits(base: nat, posState: nat, len: nat): seq<Decision>
    requires len < 272
  {
    if len < 8 then [Model(base, 0)] + TreeBits(base + LEN_LOW + posState * 8, 3, len)
    else if len < 16 then
      [Model(base, 1)] + ([Model(base + 1, 0)] + TreeBits(base + LEN_MID + posState * 8, 3, len - 8))
    else
      [Model(base, 1)] + ([Model(base + 1, 1)] + TreeBits(base + LEN_HIGH, 8, len - 16))
  }

  function ParseLength(inp: seq<Byte>, d: Dec, base: nat, posState: nat): (r: (nat, Dec))
    ensures r.0 < 272
  {
    var (b, d1) := DecodeModel(inp, d, base);
    if b == 0 then ParseTree(inp, d1, base + LEN_LOW + posState * 8, 3)
    else
      var (c, d2) := DecodeModel(inp, d1, base + 1);
      if c == 0 then
        var (v, d3) := ParseTree(inp, d2, base + LEN_MID + posState * 8, 3);
        (v + 8, d3)
      else
        var (v, d3) := ParseTree(inp, d2, base + LEN_HIGH, 8);
        (v + 16, d3)
  }

  lemma LengthParses(inp: seq<Byte>, d: Dec, base: nat, posState: nat, len: nat)
    requires len < 272
    ensures var (r, d') := ParseLength(inp, d, base, posState);
      After(inp, d, LengthBits(base, posState, len)) == When(r == len, d')
  {
    hide DecodeModel, GuidedBits, ParseGuided, After;
    var (b, d1) := DecodeModel(inp, d, base);
    if len < 8 {
      var low := TreeBits(base + LEN_LOW + posState * 8, 3, len);
      AfterCons(inp, d, Model(base, 0), low);
      GuidedParses(inp, d1, base + LEN_LOW + posState * 8, 3, 1, len, 0, false);
    } else {
      var (c, d2) := DecodeModel(inp, d1, base + 1);
      var x := if len < 16 then Model(base + 1, 0) else Model(base + 1, 1);
      var tail := if len < 16 then TreeBits(base + LEN_MID + posState * 8, 3, len - 8)
                  else TreeBits(base + LEN_HIGH, 8, len - 16);
      AfterCons(inp, d, Model(base, 1), [x] + tail);
      AfterCons(inp, d1, x, tail);
      if len < 16 {
        GuidedParses(inp, d2, base + LEN_MID + posState * 8, 3, 1, len - 8, 0, false);
      } else {
        GuidedParses(inp, d2, base + LEN_HIGH, 8, 1, len - 16, 0, false);
      }
    }
  }

  // ----- Distances ------------------------------------------------------------------

  // The slot of a distance: its two leading bits and its magnitude.
  function PosSlot(dist: nat): nat {
    if dist < 4 then dist else PosSlot(dist / 2) + 2
  }

  function SlotBase(slot: nat): nat {
    if slot < 4 then slot else 2 * SlotBase(slot - 2)
  }

  function FooterCount(slot: nat): nat {
    if slot < 4 then 0 else slot / 2 - 1
  }

  // A slot is an interval, and a distance lies in the interval of its slot only.
  lemma {:induction false} SlotInterval(dist: nat, slot: nat)
    ensures SlotBase(slot) <= dist < SlotBase(slot) + Pow2(FooterCount(slot)) <==> slot == PosSlot(dist)
    decreases dist
  {
    if slot >= 4 {
      if dist >= 4 {
        SlotInterval(dist / 2, slot - 2);
        assert Pow2(FooterCount(slot)) == 2 * Pow2(FooterCount(slot - 2));
      } else {
        SlotLarge(slot);
      }
    } else if dist >= 4 {
      SlotAtLeastFour(dist);
    }
  }

  lemma {:induction false} SlotLarge(slot: nat)
    requires slot >= 4
    ensures SlotBase(slot) >= 4
  {
    if slot >= 6 { SlotLarge(slot - 2); }
  }

  lemma {:induction false} SlotAtLeastFour(dist: nat)
    requires dist >= 4
    ensures PosSlot(dist) >= 4
  {
    if dist >= 8 { SlotAtLeastFour(dist / 2); }
  }

  lemma {:induction false} SlotBelow(dist: nat, k: nat)
    requires dist < Pow2(k) && k >= 2
    ensures PosSlot(dist) < 2 * k
  {
    if k == 2 {
      assert Pow2(2) == 4;
    } else if dist >= 4 {
      SlotBelow(dist / 2, k - 1);
    }
  }

  lemma SlotBelow64(dist: nat)
    requires dist <= MAX_DIST
    ensures PosSlot(dist) < Pow2(6) == 64
  {
    Pow2At32();
    SlotBelow(dist, 32);
    assert Pow2(6) == 64;
  }

  // The largest value a slot can stand for still fits in 32 bits.
  lemma {:induction false} SlotTop(slot: nat)
    requires slot < 64
    ensures SlotBase(slot) + Pow2(FooterCount(slot)) <= MAX_DIST + 1
  {
    SlotTopPow(slot);
    PowMonotonic(slot / 2 + 1, 32);
    Pow2At32();
  }

  lemma {:induction false} SlotTopPow(slot: nat)
    ensures SlotBase(slot) + Pow2(FooterCount(slot)) <= Pow2(slot / 2 + 1)
  {
    if slot >= 4 {
      SlotTopPow(slot - 2);
      assert Pow2(FooterCount(slot)) == 2 * Pow2(FooterCount(slot - 2));
    } else {
      assert Pow2(1) == 2 && Pow2(2) == 4;
    }
  }

  // (2 | (slot & 1)) << (slot / 2 - 1).
  function SlotStartOf(slot: nat): (r: nat)
    requires slot >= 4
    ensures r == SlotBase(slot)
  {
    ShlSlot(slot);
    Shl(2 + slot % 2, slot / 2 - 1)
  }

  lemma {:induction false} ShlSlot(slot: nat)
    requires slot >= 4
    ensures Shl(2 + slot % 2, slot / 2 - 1) == SlotBase(slot)
  {
    if slot >= 6 {
      ShlSlot(slot - 2);
      ShlDouble(2 + slot % 2, slot / 2 - 2);
    } else {
      assert Shl(2 + slot % 2, 1) == 2 * (2 + slot % 2);
    }
  }

  // The reverse trees of the short distances lie side by side before the align tree.
  lemma SpecTable(slot: nat)
    requires 4 <= slot < 14
    ensures SlotBase(slot) >= slot
    ensures SPEC_POS + SlotBase(slot) - slot - 1 + Pow2(FooterCount(slot)) <= ALIGN
  {
    assert SlotBase(4) == 4 && SlotBase(5) == 6 && SlotBase(6) == 8 && SlotBase(7) == 12;
    assert SlotBase(8) == 16 && SlotBase(9) == 24 && SlotBase(10) == 32 && SlotBase(11) == 48;
    assert SlotBase(12) == 64 && SlotBase(13) == 96;
    assert Pow2(1) == 2 && Pow2(2) == 4 && Pow2(3) == 8 && Pow2(4) == 16 && Pow2(5) == 32;
  }

  function FooterBits(slot: nat, reduced: nat): seq<Decision>
    requires slot < 64 && reduced < Pow2(FooterCount(slot))
  {
    if slot < 4 then []
    else if slot < 14 then
      ReverseBits(SPEC_POS + SlotBase(slot) - slot - 1, FooterCount(slot), 1, reduced)
    else
      SplitFooter(FooterCount(slot), reduced);
      DirectBits(FooterCount(slot) - 4, reduced / 16) + ReverseBits(ALIGN, 4, 1, reduced % 16)
  }

  lemma SplitFooter(n: nat, v: nat)
    requires n >= 4 && v < Pow2(n)
    ensures v / 16 < Pow2(n - 4) && v % 16 < Pow2(4) == 16
  {
    assert Pow2(n) == 16 * Pow2(n - 4) by {
      assert Pow2(n) == 2 * Pow2(n - 1) && Pow2(n - 1) == 2 * Pow2(n - 2);
      assert Pow2(n - 2) == 2 * Pow2(n - 3) && Pow2(n - 3) == 2 * Pow2(n - 4);
    }
    assert Pow2(4) == 16;
  }

  function ParseFooter(inp: seq<Byte>, d: Dec, slot: nat): (nat, Dec)
    requires slot < 64
  {
    if slot < 4 then (0, d)
    else if slot < 14 then
      ParseReverse(inp, d, SPEC_POS + SlotBase(slot) - slot - 1, FooterCount(slot), 1)
    else
      var (hi, d1) := ParseDirect(inp, d, FooterCount(slot) - 4);
      var (lo, d2) := ParseReverse(inp, d1, ALIGN, 4, 1);
      (hi * 16 + lo, d2)
  }

  lemma FooterParses(inp: seq<Byte>, d: Dec, slot: nat, reduced: nat)
    requires slot < 64 && reduced < Pow2(FooterCount(slot))
    ensures var (r, d') := ParseFooter(inp, d, slot);
      r < Pow2(FooterCount(slot)) && After(inp, d, FooterBits(slot, reduced)) == When(r == reduced, d')
  {
    hide DecodeModel, DecodeDirect, ReverseBits, ParseReverse, DirectBits, ParseDirect, Pow2;
    hide SlotBase, After, PosSlot;
    var n := FooterCount(slot);
    if slot < 4 {
      FooterNone(inp, d);
    } else if slot < 14 {
      ReverseParses(inp, d, SPEC_POS + SlotBase(slot) - slot - 1, n, 1, reduced);
    } else {
      SplitFooter(n, reduced);
      var (hi, d1) := ParseDirect(inp, d, n - 4);
      DirectParses(inp, d, n - 4, reduced / 16);
      AfterConcat(inp, d, DirectBits(n - 4, reduced / 16), ReverseBits(ALIGN, 4, 1, reduced % 16));
      ReverseParses(inp, d1, ALIGN, 4, 1, reduced % 16);
      FooterJoin(n, hi, ParseReverse(inp, d1, ALIGN, 4, 1).0);
    }
  }

  lemma FooterNone(inp: seq<Byte>, d: Dec)
    ensures Pow2(0) == 1 && After(inp, d, []) == Some(d)
  {}

  lemma FooterJoin(n: nat, hi: nat, lo: nat)
    requires n >= 4 && hi < Pow2(n - 4) && lo < Pow2(4)
    ensures hi * 16 + lo < Pow2(n) && (hi * 16 + lo) / 16 == hi && (hi * 16 + lo) % 16 == lo
  {
    assert Pow2(4) == 16;
    assert Pow2(n) == 2 * Pow2(n - 1) && Pow2(n - 1) == 2 * Pow2(n - 2);
    assert Pow2(n - 2) == 2 * Pow2(n - 3) && Pow2(n - 3) == 2 * Pow2(n - 4);
  }

  // Length 5 and up share one slot tree.
  function LenState(len: nat): nat { if len < 4 then len else 3 }

  function DistanceBits(len: nat, dist: nat): seq<Decision>
    requires dist <= MAX_DIST
  {
    SlotBelow64(dist);
    SlotInterval(dist, PosSlot(dist));
    TreeBits(POS_SLOT + LenState(len) * 64, 6, PosSlot(dist)) +
    FooterBits(PosSlot(dist), dist - SlotBase(PosSlot(dist)))
  }

  function ParseDistance(inp: seq<Byte>, d: Dec, len: nat): (nat, Dec) {
    var (slot, d1) := ParseTree(inp, d, POS_SLOT + LenState(len) * 64, 6);
    assert Pow2(6) == 64;
    var (r, d2) := ParseFooter(inp, d1, slot);
    (SlotBase(slot) + r, d2)
  }

  lemma DistanceParses(inp: seq<Byte>, d: Dec, len: nat, dist: nat)
    requires dist <= MAX_DIST
    ensures var (r, d') := ParseDistance(inp, d, len);
      r <= MAX_DIST && After(inp, d, DistanceBits(len, dist)) == When(r == dist, d')
  {
    hide DecodeModel, DecodeDirect, GuidedBits, ParseGuided, After, Pow2;
    hide FooterBits, ParseFooter, PosSlot, SlotBase, FooterCount, LenState;
    var base := POS_SLOT + LenState(len) * 64;
    var want := PosSlot(dist);
    SlotBelow64(dist);
    SlotInterval(dist, want);
    var (slot, d1) := ParseTree(inp, d, base, 6);
    GuidedParses(inp, d, base, 6, 1, want, 0, false);
    AfterConcat(inp, d, TreeBits(base, 6, want), FooterBits(want, dist - SlotBase(want)));
    FooterParses(inp, d1, slot, 0);
    var (r, d2) := ParseFooter(inp, d1, slot);
    SlotTop(slot);
    SlotInterval(SlotBase(slot) + r, slot);
    if slot == want {
      FooterParses(inp, d1, slot, dist - SlotBase(slot));
    }
  }

  // ----- Symbols --------------------------------------------------------------------

  // What a symbol's contexts depend on: the coder state, the position bits, the literal
  // subtable and the byte at the last distance.
  datatype View = View(state: nat, posState: nat, litBase: nat, guide: Byte)

  // Lengths are counted from 2, distances from 0; distance 2^32 - 1 is the end marker.
  datatype Symbol =
    | Literal(byte: Byte)
    | ShortRep
    | Rep(index: nat, len: nat)
    | Match(dist: nat, len: nat)

  predicate WellFormed(s: Symbol) {
    match s
    case Literal(_) => true
    case ShortRep => true
    case Rep(i, len) => i < 4 && len < 272
    case Match(dist, len) => dist <= MAX_DIST && len < 272
  }

  const NUM_LIT_STATES := 7

  function LiteralBits(v: View, b: Byte): seq<Decision> {
    assert Pow2(8) == 256;
    if v.state < NUM_LIT_STATES then TreeBits(v.litBase, 8, b)
    else GuidedBits(v.litBase, 8, 1, b, v.guide, true)
  }

  // The decisions between "it is a repeat" and its length.
  function RepBits(v: View, index: nat): seq<Decision>
    requires index < 4
  {
    if index == 0 then [Model(IS_REP_G0 + v.state, 0), Model(IS_REP0_LONG + v.state * 16 + v.posState, 1)]
    else if index == 1 then [Model(IS_REP_G0 + v.state, 1), Model(IS_REP_G1 + v.state, 0)]
    else [Model(IS_REP_G0 + v.state, 1), Model(IS_REP_G1 + v.state, 1), Model(IS_REP_G2 + v.state, index - 2)]
  }

  function SymbolBits(v: View, s: Symbol): seq<Decision>
    requires WellFormed(s)
  {
    var isMatch := IS_MATCH + v.state * 16 + v.posState;
    match s
    case Literal(b) => [Model(isMatch, 0)] + LiteralBits(v, b)
    case Match(dist, len) =>
      [Model(isMatch, 1), Model(IS_REP + v.state, 0)] +
      (LengthBits(LEN_CODER, v.posState, len) + DistanceBits(len, dist))
    case ShortRep =>
      [Model(isMatch, 1), Model(IS_REP + v.state, 1)] +
      [Model(IS_REP_G0 + v.state, 0), Model(IS_REP0_LONG + v.state * 16 + v.posState, 0)]
    case Rep(i, len) =>
      [Model(isMatch, 1), Model(IS_REP + v.state, 1)] +
      (RepBits(v, i) + LengthBits(REP_LEN_CODER, v.posState, len))
  }

  function ParseLiteral(inp: seq<Byte>, d: Dec, v: View): (Symbol, Dec) {
    assert Pow2(8) == 256;
    var (b, d') :=
      if v.state < NUM_LIT_STATES then ParseTree(inp, d, v.litBase, 8)
      else ParseGuided(inp, d, v.litBase, 8, 1, v.guide, true);
    (Literal(b), d')
  }

  function ParseMatch(inp: seq<Byte>, d: Dec, v: View): (Symbol, Dec) {
    var (len, d1) := ParseLength(inp, d, LEN_CODER, v.posState);
    var (dist, d2) := ParseDistance(inp, d1, len);
    (Match(dist, len), d2)
  }

  // None stands for the short repeat.
  function ParseRepIndex(inp: seq<Byte>, d: Dec, v: View): (r: (Option<nat>, Dec))
    ensures r.0.Some? ==> r.0.value < 4
  {
    var (g0, d1) := DecodeModel(inp, d, IS_REP_G0 + v.state);
    if g0 == 0 then
      var (long, d2) := DecodeModel(inp, d1, IS_REP0_LONG + v.state * 16 + v.posState);
      (if long == 0 then None else Some(0), d2)
    else
      var (g1, d2) := DecodeModel(inp, d1, IS_REP_G1 + v.state);
      if g1 == 0 then (Some(1), d2)
      else
        var (g2, d3) := DecodeModel(inp, d2, IS_REP_G2 + v.state);
        (Some(2 + g2), d3)
  }

  function ParseRep(inp: seq<Byte>, d: Dec, v: View): (Symbol, Dec) {
    var (i, d1) := ParseRepIndex(inp, d, v);
    match i
    case None => (ShortRep, d1)
    case Some(index) =>
      var (len, d2) := ParseLength(inp, d1, REP_LEN_CODER, v.posState);
      (Rep(index, len), d2)
  }

  function ParseSymbol(inp: seq<Byte>, d: Dec, v: View): (Symbol, Dec) {
    var (m, d1) := DecodeModel(inp, d, IS_MATCH + v.state * 16 + v.posState);
    if m == 0 then ParseLiteral(inp, d1, v)
    else
      var (r, d2) := DecodeModel(inp, d1, IS_REP + v.state);
      if r == 0 then ParseMatch(inp, d2, v) else ParseRep(inp, d2, v)
  }

  lemma LiteralParses(inp: seq<Byte>, d: Dec, v: View, b: Byte)
    ensures var (r, d') := ParseLiteral(inp, d, v);
      After(inp, d, LiteralBits(v, b)) == When(r == Literal(b), d')
  {
    hide DecodeModel, GuidedBits, ParseGuided, After;
    assert Pow2(8) == 256;
    GuidedParses(inp, d, v.litBase, 8, 1, b, 0, false);
    GuidedParses(inp, d, v.litBase, 8, 1, b, v.guide, true);
  }

  lemma MatchParses(inp: seq<Byte>, d: Dec, v: View, dist: nat, len: nat)
    requires dist <= MAX_DIST && len < 272
    ensures var (r, d') := ParseMatch(inp, d, v);
      && WellFormed(r) && r.Match?
      && After(inp, d, LengthBits(LEN_CODER, v.posState, len) + DistanceBits(len, dist))
         == When(r == Match(dist, len), d')
  {
    hide DecodeModel, DistanceBits, ParseDistance, LengthBits, ParseLength, After;
    var (l, d1) := ParseLength(inp, d, LEN_CODER, v.posState);
    LengthParses(inp, d, LEN_CODER, v.posState, len);
    AfterConcat(inp, d, LengthBits(LEN_CODER, v.posState, len), DistanceBits(len, dist));
    DistanceParses(inp, d1, l, 0);
    if l == len { DistanceParses(inp, d1, len, dist); }
  }

  lemma RepIndexParses(inp: seq<Byte>, d: Dec, v: View, index: nat)
    requires index < 4
    ensures var (i, d') := ParseRepIndex(inp, d, v);
      && After(inp, d, RepBits(v, index)) == When(i == Some(index), d')
      && After(inp, d, [Model(IS_REP_G0 + v.state, 0), Model(IS_REP0_LONG + v.state * 16 + v.posState, 0)])
         == When(i == None, d')
  {
    hide DecodeModel;
    var g0 := IS_REP_G0 + v.state;
    var long := IS_REP0_LONG + v.state * 16 + v.posState;
    AfterPair(inp, d, Model(g0, 0), Model(long, 0));
    AfterPair(inp, d, Model(g0, 0), Model(long, 1));
    AfterPair(inp, d, Model(g0, 1), Model(IS_REP_G1 + v.state, 0));
    if index >= 2 {
      var y, z := Model(IS_REP_G1 + v.state, 1), Model(IS_REP_G2 + v.state, index - 2);
      assert RepBits(v, index) == [Model(g0, 1)] + [y, z];
      var (a, d1) := DecodeOne(inp, d, Model(g0, 1));
      var (b, d2) := DecodeOne(inp, d1, y);
      var (c, d3) := DecodeOne(inp, d2, z);
      AfterCons(inp, d, Model(g0, 1), [y, z]);
      AfterPair(inp, d1, y, z);
      assert After(inp, d, RepBits(v, index)) == When(a == 1 && b == 1 && c == index - 2, d3);
    }
  }

  lemma AfterPair(inp: seq<Byte>, d: Dec, x: Decision, y: Decision)
    ensures After(inp, d, [x, y]) ==
            var (a, d1) := DecodeOne(inp, d, x);
            var (b, d2) := DecodeOne(inp, d1, y);
            When(a == x.bit && b == y.bit, d2)
  {
    hide DecodeModel, DecodeDirect;
    assert [x, y] == [x] + [y] && [y] == [y] + [];
    AfterCons(inp, d, x, [y]);
    AfterCons(inp, DecodeOne(inp, d, x).1, y, []);
  }

  lemma RepParses(inp: seq<Byte>, d: Dec, v: View, index: nat, len: nat)
    requires index < 4 && len < 272
    ensures var (r, d') := ParseRep(inp, d, v);
      && WellFormed(r) && (r.Rep? || r.ShortRep?)
      && After(inp, d, RepBits(v, index) + LengthBits(REP_LEN_CODER, v.posState, len))
         == When(r == Rep(index, len), d')
  {
    hide DecodeModel, RepBits, ParseRepIndex, LengthBits, ParseLength, After;
    var (i, d1) := ParseRepIndex(inp, d, v);
    RepIndexParses(inp, d, v, index);
    AfterConcat(inp, d, RepBits(v, index), LengthBits(REP_LEN_CODER, v.posState, len));
    LengthParses(inp, d1, REP_LEN_CODER, v.posState, len);
  }

  // Main result of this module: on any input at all, the parser returns a symbol exactly
  // when the symbol's decisions are what the input holds, and leaves the same state.
  lemma SymbolParses(inp: seq<Byte>, d: Dec, v: View, s: Symbol)
    requires WellFormed(s)
    ensures var (r, d') := ParseSymbol(inp, d, v);
      WellFormed(r) && After(inp, d, SymbolBits(v, s)) == When(r == s, d')
  {
    hide DecodeModel, LiteralBits, ParseLiteral, RepBits, ParseRepIndex, ParseRep, ParseMatch;
    hide LengthBits, DistanceBits, After;
    var x := Model(IS_MATCH + v.state * 16 + v.posState, if s.Literal? then 0 else 1);
    var (m, d1) := DecodeOne(inp, d, x);
    if s.Literal? {
      AfterCons(inp, d, x, LiteralBits(v, s.byte));
      LiteralParses(inp, d1, v, s.byte);
    } else {
      var y := Model(IS_REP + v.state, if s.Match? then 0 else 1);
      var (r, d2) := DecodeOne(inp, d1, y);
      AfterPair(inp, d, x, y);
      AfterConcat(inp, d, [x, y], Tail(v, s));
      assert SymbolBits(v, s) == [x, y] + Tail(v, s);
      TailParses(inp, d2, v, s);
    }
    ParsedWellFormed(inp, d, v);
    SymbolKinds(inp, d, v);
  }

  // What follows the first two decisions of a symbol that is not a literal.
  function Tail(v: View, s: Symbol): seq<Decision>
    requires WellFormed(s) && !s.Literal?
  {
    match s
    case Match(dist, len) => LengthBits(LEN_CODER, v.posState, len) + DistanceBits(len, dist)
    case ShortRep => [Model(IS_REP_G0 + v.state, 0), Model(IS_REP0_LONG + v.state * 16 + v.posState, 0)]
    case Rep(i, len) => RepBits(v, i) + LengthBits(REP_LEN_CODER, v.posState, len)
  }

  lemma TailParses(inp: seq<Byte>, d: Dec, v: View, s: Symbol)
    requires WellFormed(s) && !s.Literal?
    ensures var (r, d') := if s.Match? then ParseMatch(inp, d, v) else ParseRep(inp, d, v);
      After(inp, d, Tail(v, s)) == When(r == s, d')
  {
    hide DecodeModel, RepBits, ParseRepIndex, ParseRep, ParseMatch, LengthBits, DistanceBits, After;
    match s {
      case Match(dist, len) =>
        MatchParses(inp, d, v, dist, len);
      case ShortRep =>
        RepIndexParses(inp, d, v, 0);
        ShortRepParses(inp, d, v);
      case Rep(i, len) =>
        RepParses(inp, d, v, i, len);
    }
  }

  lemma SymbolKinds(inp: seq<Byte>, d: Dec, v: View)
    ensures var (m, d1) := DecodeModel(inp, d, IS_MATCH + v.state * 16 + v.posState);
      var (r, d2) := DecodeModel(inp, d1, IS_REP + v.state);
      && (ParseSymbol(inp, d, v).0.Literal? <==> m == 0)
      && (ParseSymbol(inp, d, v).0.Match? <==> m == 1 && r == 0)
  {
    hide DecodeModel, ParseLiteral, ParseRep, ParseMatch, LengthBits, DistanceBits, RepBits, After;
    var (_, d1) := DecodeModel(inp, d, IS_MATCH + v.state * 16 + v.posState);
    var (_, d2) := DecodeModel(inp, d1, IS_REP + v.state);
    LiteralShape(inp, d1, v);
    MatchParses(inp, d2, v, 0, 0);
    RepParses(inp, d2, v, 0, 0);
  }

  lemma ShortRepParses(inp: seq<Byte>, d: Dec, v: View)
    ensures ParseRep(inp, d, v).0 == ShortRep <==> ParseRepIndex(inp, d, v).0 == None
    ensures ParseRepIndex(inp, d, v).0 == None ==> ParseRep(inp, d, v).1 == ParseRepIndex(inp, d, v).1
  {
    hide ParseRepIndex, ParseLength;
  }

  lemma ParsedWellFormed(inp: seq<Byte>, d: Dec, v: View)
    ensures WellFormed(ParseSymbol(inp, d, v).0)
  {
    hide DecodeModel, ParseLiteral, ParseRep, ParseMatch, LengthBits, DistanceBits, RepBits, After;
    var (_, d1) := DecodeModel(inp, d, IS_MATCH + v.state * 16 + v.posState);
    var (_, d2) := DecodeModel(inp, d1, IS_REP + v.state);
    LiteralShape(inp, d1, v);
    MatchParses(inp, d2, v, 0, 0);
    RepParses(inp, d2, v, 0, 0);
  }

  lemma LiteralShape(inp: seq<Byte>, d: Dec, v: View)
    ensures ParseLiteral(inp, d, v).0.Literal?
  {}
}
