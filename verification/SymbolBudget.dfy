// No LZMA symbol costs more than 22 adaptive and 26 direct decisions, or 23 adaptive ones
// alone, so none takes more than 20 bytes of input.

module SymbolBudget {
  import opened RangeCoder
  import opened RangeBudget
  import opened LzmaSymbols
  import opened Words

  ghost predicate Within(xs: seq<Decision>, models: nat, directs: nat) {
    Models(xs) <= models && Directs(xs) <= directs
  }

  lemma WithinConcat(xs: seq<Decision>, ys: seq<Decision>, m: nat, k: nat, m': nat, k': nat)
    requires Within(xs, m, k) && Within(ys, m', k')
    ensures Within(xs + ys, m + m', k + k')
  {
    CountsConcat(xs, ys);
  }

  lemma CountsCons(x: Decision, ys: seq<Decision>)
    ensures Models([x] + ys) == (if x.Model? then 1 else 0) + Models(ys)
    ensures Directs([x] + ys) == (if x.Direct? then 1 else 0) + Directs(ys)
  {
    assert ([x] + ys)[1..] == ys;
  }

  lemma {:induction false} GuidedCount(base: nat, n: nat, m: nat, sym: nat, guide: nat, same: bool)
    requires sym < Pow2(n)
    ensures Within(GuidedBits(base, n, m, sym, guide, same), n, 0)
    decreases n
  {
    if n > 0 {
      var b := Top(n, sym);
      var next := same && b == BitAt(guide, n - 1);
      CountsCons(Model(NodeCtx(base, n, m, guide, same), b),
                 GuidedBits(base, n - 1, 2 * m + b, Rest(n, sym), guide, next));
      GuidedCount(base, n - 1, 2 * m + b, Rest(n, sym), guide, next);
    }
  }

  lemma {:induction false} ReverseCount(base: nat, n: nat, m: nat, sym: nat)
    ensures Within(ReverseBits(base, n, m, sym), n, 0)
    decreases n
  {
    if n > 0 {
      CountsCons(Model(base + m, sym % 2), ReverseBits(base, n - 1, 2 * m + sym % 2, sym / 2));
      ReverseCount(base, n - 1, 2 * m + sym % 2, sym / 2);
    }
  }

  lemma {:induction false} DirectCount(n: nat, v: nat)
    requires v < Pow2(n)
    ensures Within(DirectBits(n, v), 0, n)
    decreases n
  {
    if n > 0 {
      CountsCons(Direct(Top(n, v)), DirectBits(n - 1, Rest(n, v)));
      DirectCount(n - 1, Rest(n, v));
    }
  }

  lemma LengthCount(base: nat, posState: nat, len: nat)
    requires len < 272
    ensures Within(LengthBits(base, posState, len), 10, 0)
  {
    hide GuidedBits;
    TreeSizes();
    if len < 8 {
      GuidedCount(base + LEN_LOW + posState * 8, 3, 1, len, 0, false);
      CountsCons(Model(base, 0), TreeBits(base + LEN_LOW + posState * 8, 3, len));
    } else {
      var x := if len < 16 then Model(base + 1, 0) else Model(base + 1, 1);
      var t := if len < 16 then TreeBits(base + LEN_MID + posState * 8, 3, len - 8)
               else TreeBits(base + LEN_HIGH, 8, len - 16);
      if len < 16 {
        GuidedCount(base + LEN_MID + posState * 8, 3, 1, len - 8, 0, false);
      } else {
        GuidedCount(base + LEN_HIGH, 8, 1, len - 16, 0, false);
      }
      CountsCons(x, t);
      CountsCons(Model(base, 1), [x] + t);
    }
  }

  lemma DistanceCount(len: nat, dist: nat)
    requires dist <= MAX_DIST
    ensures Within(DistanceBits(len, dist), 10, 26) || Within(DistanceBits(len, dist), 11, 0)
  {
    hide GuidedBits, ReverseBits, DirectBits, PosSlot, SlotBase, Pow2;
    var slot := PosSlot(dist);
    SlotBelow64(dist);
    SlotInterval(dist, slot);
    var tree := TreeBits(POS_SLOT + LenState(len) * 64, 6, slot);
    GuidedCount(POS_SLOT + LenState(len) * 64, 6, 1, slot, 0, false);
    FooterCounted(slot, dist - SlotBase(slot));
    WithinConcat(tree, FooterBits(slot, dist - SlotBase(slot)), 6, 0, if slot < 14 then 5 else 4,
                 if slot < 14 then 0 else 26);
  }

  lemma FooterCounted(slot: nat, v: nat)
    requires slot < 64 && v < Pow2(FooterCount(slot))
    ensures if slot < 14 then Within(FooterBits(slot, v), 5, 0) else Within(FooterBits(slot, v), 4, 26)
  {
    hide ReverseBits, DirectBits, SlotBase, Pow2;
    var n := FooterCount(slot);
    if slot >= 14 {
      SplitFooter(n, v);
      DirectCount(n - 4, v / 16);
      ReverseCount(ALIGN, 4, 1, v % 16);
      WithinConcat(DirectBits(n - 4, v / 16), ReverseBits(ALIGN, 4, 1, v % 16), 0, 26, 4, 0);
    } else if slot >= 4 {
      ReverseCount(SPEC_POS + SlotBase(slot) - slot - 1, n, 1, v);
    }
  }

  lemma PairCount(x: Decision, y: Decision, ys: seq<Decision>, m: nat, k: nat)
    requires x.Model? && y.Model? && Within(ys, m, k)
    ensures Within([x, y] + ys, m + 2, k)
  {
    assert [x, y] + ys == [x] + ([y] + ys);
    CountsCons(x, [y] + ys);
    CountsCons(y, ys);
  }

  lemma SymbolCount(v: View, s: Symbol)
    requires WellFormed(s)
    ensures Affordable(SymbolBits(v, s))
  {
    hide GuidedBits, LengthBits, DistanceBits, Models, Directs;
    var isMatch := IS_MATCH + v.state * 16 + v.posState;
    match s {
      case Literal(b) =>
        TreeSizes();
        GuidedCount(v.litBase, 8, 1, b, 0, false);
        GuidedCount(v.litBase, 8, 1, b, v.guide, true);
        CountsCons(Model(isMatch, 0), LiteralBits(v, b));
      case Match(dist, len) =>
        LengthCount(LEN_CODER, v.posState, len);
        DistanceCount(len, dist);
        var m := if Within(DistanceBits(len, dist), 10, 26) then 10 else 11;
        var k := if Within(DistanceBits(len, dist), 10, 26) then 26 else 0;
        WithinConcat(LengthBits(LEN_CODER, v.posState, len), DistanceBits(len, dist), 10, 0, m, k);
        PairCount(Model(isMatch, 1), Model(IS_REP + v.state, 0),
                  LengthBits(LEN_CODER, v.posState, len) + DistanceBits(len, dist), 10 + m, k);
      case ShortRep =>
        var t := [Model(IS_REP_G0 + v.state, 0), Model(IS_REP0_LONG + v.state * 16 + v.posState, 0)];
        ShortCount(t);
        PairCount(Model(isMatch, 1), Model(IS_REP + v.state, 1), t, 3, 0);
      case Rep(i, len) =>
        ShortCount(RepBits(v, i));
        LengthCount(REP_LEN_CODER, v.posState, len);
        WithinConcat(RepBits(v, i), LengthBits(REP_LEN_CODER, v.posState, len), 3, 0, 10, 0);
        PairCount(Model(isMatch, 1), Model(IS_REP + v.state, 1),
                  RepBits(v, i) + LengthBits(REP_LEN_CODER, v.posState, len), 13, 0);
    }
  }

  lemma {:induction false} ShortCount(xs: seq<Decision>)
    requires |xs| <= 3 && forall x :: x in xs ==> x.Model?
    ensures Within(xs, 3, 0)
  {
    if |xs| >= 1 { CountsCons(xs[0], xs[1..]); assert xs == [xs[0]] + xs[1..]; }
    if |xs| >= 2 { CountsCons(xs[1], xs[2..]); assert xs[1..] == [xs[1]] + xs[2..]; }
    if |xs| >= 3 { CountsCons(xs[2], xs[3..]); assert xs[2..] == [xs[2]] + xs[3..]; }
  }

  // Main result: whatever the input holds, one symbol with its final normalisation takes
  // at most LZMA_REQUIRED_INPUT_MAX bytes.
  lemma SymbolTwentyBytes(inp: seq<Byte>, d: Dec, v: View)
    requires 0x10000 < d.range < WORD
    ensures Normalize(inp, ParseSymbol(inp, d, v).1).pos <= Normalize(inp, d).pos + 20
  {
    hide ParseSymbol, SymbolBits, After, DecodeOne;
    ParsedWellFormed(inp, d, v);
    var s := ParseSymbol(inp, d, v).0;
    SymbolParses(inp, d, v, s);
    SymbolCount(v, s);
    SymbolStart(inp, d, v, s);
    TwentyBytes(inp, Normalize(inp, d), SymbolBits(v, s));
  }

  lemma SymbolStart(inp: seq<Byte>, d: Dec, v: View, s: Symbol)
    requires WellFormed(s) && 0x10000 < d.range
    ensures After(inp, Normalize(inp, d), SymbolBits(v, s)) == After(inp, d, SymbolBits(v, s))
  {
    hide LiteralBits, LengthBits, DistanceBits, RepBits;
    DecodeNormalized(inp, d, SymbolBits(v, s)[0]);
  }
}
