// The LZMA format in numbers: which context each decision of a symbol uses, what the decision is, and
// what a symbol does to the data, the distances and the state.

module LzmaFormat {
  import opened RangeCoder
  import opened LzmaSymbols
  import opened LzmaModel
  import opened RangeEncoder
  import opened Words

  // An adaptive probability moves a 32nd part, rounded down, towards the outcome seen.
  lemma AdaptMeans(p: Prob)
    ensures 0 <= 2048 - p - 32 * (Adapt(p, 0) - p) < 32
    ensures 0 <= p - 32 * (p - Adapt(p, 1)) < 32
  {}

  // ----- Bits of trees ---------------------------------------------------------------------------

  // What is above bit j, with and without the leading bit.
  lemma {:induction false} RestAbove(n: nat, v: nat, j: nat)
    requires j < n && v < Pow2(n)
    ensures Shr(v, j) == Shr(Rest(n, v), j) + Pow2(n - 1 - j) * Top(n, v)
    decreases j
  {
    if j > 0 {
      assert Pow2(n - 1) == 2 * Pow2(n - 2);
      assert Rest(n, v) / 2 == Rest(n - 1, v / 2) && Top(n, v) == Top(n - 1, v / 2);
      RestAbove(n - 1, v / 2, j - 1);
    }
  }

  lemma {:induction false} NothingAbove(n: nat, v: nat)
    requires v < Pow2(n)
    ensures Shr(v, n) == 0
    decreases n
  {
    if n > 0 { NothingAbove(n - 1, v / 2); }
  }

  // The bits from i up to n are the same.
  ghost predicate Agree(v: nat, w: nat, i: nat, n: nat) {
    forall x: nat :: i <= x < n ==> BitAt(v, x) == BitAt(w, x)
  }

  lemma AgreeRest(n: nat, v: nat, w: nat, i: nat)
    requires i < n && v < Pow2(n)
    ensures Agree(v, w, i, n) <==> Top(n, v) == BitAt(w, n - 1) && Agree(Rest(n, v), w, i, n - 1)
  {
    hide Pow2;
    TopIsBit(n, v);
    forall x: nat | x < n - 1
      ensures BitAt(Rest(n, v), x) == BitAt(v, x)
    {
      RestKeepsBits(n, v, x);
    }
  }

  // Decision k of a tree is bit n - 1 - k of the value, in the context of the bits before it; while these
  // are those of the guiding byte, its next bit chooses another tree.
  lemma {:induction false} GuidedDecision(base: nat, n: nat, m: nat, v: nat, guide: nat, same: bool, k: nat)
    requires v < Pow2(n) && k < n
    ensures |GuidedBits(base, n, m, v, guide, same)| == n
    ensures GuidedBits(base, n, m, v, guide, same)[k] == Model(
      base + (if same && Agree(v, guide, n - k, n) then 0x100 + 0x100 * BitAt(guide, n - 1 - k) else 0)
        + Pow2(k) * m + Shr(v, n - k),
      BitAt(v, n - 1 - k))
    decreases n
  {
    hide GuidedBits, BitAt, Shr, Agree, Pow2;
    var b := Top(n, v);
    var next := same && b == BitAt(guide, n - 1);
    GuidedFirst(base, n, m, v, guide, same);
    GuidedLength(base, n - 1, 2 * m + b, Rest(n, v), guide, next);
    if k == 0 {
      NothingAbove(n, v);
      TopIsBit(n, v);
      NoneDiffer(v, guide, n);
    } else {
      GuidedDecision(base, n - 1, 2 * m + b, Rest(n, v), guide, next, k - 1);
      RestAbove(n, v, n - k);
      RestKeepsBits(n, v, n - 1 - k);
      AgreeRest(n, v, guide, n - k);
      NodeOn(m, b, k);
    }
  }

  lemma NoneDiffer(v: nat, w: nat, n: nat)
    ensures Agree(v, w, n, n) && Pow2(0) == 1
  {}

  lemma NodeOn(m: nat, b: Bit, k: nat)
    requires k > 0
    ensures Pow2(k - 1) * (2 * m + b) == Pow2(k) * m + Pow2(k - 1) * b
  {
    assert Pow2(k) == 2 * Pow2(k - 1);
  }

  lemma GuidedFirst(base: nat, n: nat, m: nat, v: nat, guide: nat, same: bool)
    requires n > 0 && v < Pow2(n)
    ensures GuidedBits(base, n, m, v, guide, same) ==
      [Model(base + (if same then 0x100 + 0x100 * BitAt(guide, n - 1) else 0) + m, Top(n, v))] +
      GuidedBits(base, n - 1, 2 * m + Top(n, v), Rest(n, v), guide, same && Top(n, v) == BitAt(guide, n - 1))
  {}

  lemma {:induction false} GuidedLength(base: nat, n: nat, m: nat, v: nat, guide: nat, same: bool)
    requires v < Pow2(n)
    ensures |GuidedBits(base, n, m, v, guide, same)| == n
    decreases n
  {
    if n > 0 {
      GuidedLength(base, n - 1, 2 * m + Top(n, v), Rest(n, v), guide, same && Top(n, v) == BitAt(guide, n - 1));
    }
  }

  // In a tree read from the bottom, the bits come in the opposite order.
  lemma {:induction false} ReverseDecision(base: nat, n: nat, m: nat, v: nat, k: nat)
    requires k < n
    ensures var xs := ReverseBits(base, n, m, v);
      && |xs| == n && xs[k].Model? && xs[k].bit == BitAt(v, k) && xs[0].ctx == base + m
      && (k + 1 < n ==> xs[k + 1].Model? && xs[k + 1].ctx as int - base == 2 * (xs[k].ctx - base) + xs[k].bit)
    decreases n
  {
    var rest := ReverseBits(base, n - 1, 2 * m + v % 2, v / 2);
    if k > 0 {
      ReverseDecision(base, n - 1, 2 * m + v % 2, v / 2, k - 1);
    } else if n > 1 {
      ReverseDecision(base, n - 1, 2 * m + v % 2, v / 2, 0);
    }
  }

  lemma {:induction false} DirectDecision(n: nat, v: nat, k: nat)
    requires v < Pow2(n) && k < n
    ensures |DirectBits(n, v)| == n && DirectBits(n, v)[k] == Direct(BitAt(v, n - 1 - k))
    decreases n
  {
    hide Pow2;
    TopIsBit(n, v);
    if k > 0 {
      RestKeepsBits(n, v, n - 1 - k);
      DirectDecision(n - 1, Rest(n, v), k - 1);
    } else if n > 1 {
      DirectDecision(n - 1, Rest(n, v), 0);
    }
  }

  // ----- Symbols -------------------------------------------------------------------------------------

  // Main result: a literal takes nine decisions. After a literal they depend on the literal alone, after a
  // match also on the byte at the last distance, as long as the two agree.
  lemma LiteralDecisions(v: View, b: Byte, k: nat)
    requires k < 8
    ensures var xs := SymbolBits(v, Literal(b));
      && |xs| == 9 && xs[0] == Model(16 * v.state + v.posState, 0)
      && xs[k + 1] == Model(
           v.litBase + Pow2(k) + Shr(b, 8 - k) +
             if v.state >= 7 && Agree(b, v.guide, 8 - k, 8) then 0x100 + 0x100 * BitAt(v.guide, 7 - k) else 0,
           BitAt(b, 7 - k))
  {
    hide GuidedBits, Pow2, Agree, BitAt, Shr;
    assert 256 == Pow2(8) by { PowEight(); }
    GuidedDecision(v.litBase, 8, 1, b, 0, false, k);
    GuidedDecision(v.litBase, 8, 1, b, v.guide, true, k);
  }

  lemma PowEight()
    ensures Pow2(8) == 256
  {}

  // A length counts from 2. It takes one decision, or two, and a tree of 3 or of 8 bits.
  lemma LengthDecisions(base: nat, posState: nat, len: nat)
    requires len < 272
    ensures Pow2(3) == 8 && Pow2(8) == 256
    ensures LengthBits(base, posState, len) ==
      if len < 8 then [Model(base, 0)] + TreeBits(base + 2 + 8 * posState, 3, len)
      else if len < 16 then [Model(base, 1), Model(base + 1, 0)] + TreeBits(base + 130 + 8 * posState, 3, len - 8)
      else [Model(base, 1), Model(base + 1, 1)] + TreeBits(base + 258, 8, len - 16)
  {
    hide GuidedBits;
    assert Pow2(3) == 8 && Pow2(8) == 256;
    var x, y, z := Model(base, 1), Model(base + 1, 0), Model(base + 1, 1);
    assert [x, y] == [x] + [y] && [x, z] == [x] + [z];
  }

  // The slot of a distance is its magnitude and the bit after the leading one.
  lemma {:induction false} SlotIs(dist: nat, m: nat)
    requires 1 <= m && Pow2(m) <= dist < Pow2(m + 1)
    ensures PosSlot(dist) == 2 * m + Shr(dist, m - 1) % 2
    ensures SlotBase(PosSlot(dist)) == dist - dist % Pow2(m - 1)
    decreases m
  {
    if m == 1 {
      assert Pow2(1) == 2 && Pow2(2) == 4 && Pow2(0) == 1;
    } else {
      assert Pow2(m) == 2 * Pow2(m - 1) && Pow2(m + 1) == 2 * Pow2(m) && Pow2(m - 1) == 2 * Pow2(m - 2);
      assert Pow2(m - 1) >= 2;
      SlotIs(dist / 2, m - 1);
      HalfRest(dist, Pow2(m - 2));
    }
  }

  lemma HalfRest(v: nat, p: nat)
    requires p > 0
    ensures v - v % (2 * p) == 2 * (v / 2 - v / 2 % p)
  {
    var q, r := v / 2 / p, v / 2 % p;
    assert v == 2 * (p * q) + (2 * r + v % 2);
    ModUnique(v, 2 * p, q, 2 * r + v % 2);
  }

  // A distance below 4 is its slot; up to 127 the bits after the slot's two have trees of their own, read
  // from the bottom; beyond, all but the last four of them are sent as they are.
  lemma DistanceDecisions(len: nat, dist: nat, m: nat)
    requires dist <= MAX_DIST && (dist >= 4 ==> 2 <= m && Pow2(m) <= dist < Pow2(m + 1))
    ensures var start := 432 + 64 * if len < 4 then len else 3;
      if dist < 4 then dist < Pow2(6) && DistanceBits(len, dist) == TreeBits(start, 6, dist)
      else
        var slot, low := 2 * m + Shr(dist, m - 1) % 2, dist % Pow2(m - 1);
        && slot < Pow2(6) && low <= dist && (m >= 7 ==> low / 16 < Pow2(m - 5))
        && DistanceBits(len, dist) == TreeBits(start, 6, slot) +
           if m < 7 then ReverseBits(688 + (dist - low) - slot - 1, m - 1, 1, low)
           else DirectBits(m - 5, low / 16) + ReverseBits(802, 4, 1, low % 16)
  {
    hide GuidedBits, ReverseBits, DirectBits, Pow2;
    SlotBelow64(dist);
    SlotInterval(dist, PosSlot(dist));
    var tree := TreeBits(432 + 64 * (if len < 4 then len else 3), 6, PosSlot(dist));
    if dist < 4 {
      assert tree + [] == tree;
    } else {
      hide PosSlot, SlotBase;
      SlotIs(dist, m);
      assert FooterCount(PosSlot(dist)) == m - 1;
      if m >= 7 { SplitFooter(m - 1, dist % Pow2(m - 1)); }
    }
  }

  // Main result: a match or a repeat begins with a path to its kind, in contexts of the state.
  lemma MatchDecisions(v: View, s: Symbol)
    requires WellFormed(s) && !s.Literal?
    ensures var m, r, g := Model(16 * v.state + v.posState, 1), 192 + v.state, 204 + v.state;
      match s
      case Match(dist, len) =>
        SymbolBits(v, s) == [m, Model(r, 0)] + LengthBits(818, v.posState, len) + DistanceBits(len, dist)
      case ShortRep => SymbolBits(v, s) == [m, Model(r, 1), Model(g, 0), Model(240 + 16 * v.state + v.posState, 0)]
      case Rep(i, len) =>
        SymbolBits(v, s) == [m, Model(r, 1)] +
          (if i == 0 then [Model(g, 0), Model(240 + 16 * v.state + v.posState, 1)]
           else if i == 1 then [Model(g, 1), Model(g + 12, 0)]
           else [Model(g, 1), Model(g + 12, 1), Model(g + 24, i - 2)]) + LengthBits(1332, v.posState, len)
  {
    hide LengthBits, DistanceBits;
    if s.Match? {
      var a, b, c := [Model(16 * v.state + v.posState, 1), Model(192 + v.state, 0)],
                     LengthBits(818, v.posState, s.len), DistanceBits(s.len, s.dist);
      assert a + (b + c) == a + b + c;
    } else if s.Rep? {
      var a, b, c := [Model(16 * v.state + v.posState, 1), Model(192 + v.state, 1)],
                     RepBits(v, s.index), LengthBits(1332, v.posState, s.len);
      assert a + (b + c) == a + b + c;
    }
  }

  // The contexts depend on the lowest bits of the position, the state, the highest bits of the last byte
  // and the byte at the last distance.
  lemma ViewNumbers(p: Props, z: Lz)
    requires ValidLz(p, z)
    ensures var v, n := ViewOf(p, z), |z.hist|;
      && v.state == z.state && v.posState == n % Pow2(p.pb)
      && v.litBase == 1846 + 768 * (Pow2(p.lc) * (n % Pow2(p.lp)) + if n == 0 then 0 else Shr(z.hist[n - 1], 8 - p.lc))
      && v.guide == (if n == 0 then 0 else z.hist[n - 1 - z.rep0])
      && v.litBase + 768 <= 1846 + 768 * Pow2(p.lc + p.lp) == NumProbs(p)
  {
    ShlIs(|z.hist| % Pow2(p.lp), p.lc);
    if z.hist == [] { ShrZero(8 - p.lc); }
    LiteralInTable(p, z.hist);
  }

  lemma {:induction false} ShlIs(v: nat, n: nat)
    ensures Shl(v, n) == Pow2(n) * v
    decreases n
  {
    if n > 0 {
      ShlIs(2 * v, n - 1);
      assert Pow2(n) * v == Pow2(n - 1) * (2 * v);
    } else {
      assert Pow2(0) == 1;
    }
  }

  // ----- What a symbol does ----------------------------------------------------------------------------

  lemma StatesTurn(z: Lz, s: Symbol)
    requires z.state < 12 && WellFormed(s)
    ensures Turn(z, s).state ==
      match s
      case Literal(_) => [0, 0, 0, 0, 1, 2, 3, 4, 5, 6, 4, 5][z.state]
      case Match(_, _) => [7, 7, 7, 7, 7, 7, 7, 10, 10, 10, 10, 10][z.state]
      case Rep(_, _) => [8, 8, 8, 8, 8, 8, 8, 11, 11, 11, 11, 11][z.state]
      case ShortRep => [9, 9, 9, 9, 9, 9, 9, 11, 11, 11, 11, 11][z.state]
  {}

  // The four last distances, the latest first.
  function Last(z: Lz): (r: seq<nat>)
    ensures |r| == 4
  {
    [z.rep0, z.rep1, z.rep2, z.rep3]
  }

  // A new distance comes first and the oldest is dropped; one that is repeated moves to the front.
  lemma LastTurn(z: Lz, s: Symbol)
    requires z.state < 12 && WellFormed(s)
    ensures Last(Turn(z, s)) ==
      if s.Match? then [s.dist] + Last(z)[..3]
      else if s.Rep? then [Last(z)[s.index]] + Last(z)[..s.index] + Last(z)[s.index + 1..]
      else Last(z)
  {}

  // Main result: a literal adds its byte; any other symbol adds as many bytes as its length, each the same
  // as the one its distance before it, also where that is a byte just added.
  lemma BytesAdded(p: Props, z: Lz, s: Symbol, n: nat, k: nat)
    requires ValidLz(p, z) && WellFormed(s) && Allowed(p, z, s) && k < n <= SymbolSize(s)
    ensures SymbolSize(s) == if s.Literal? || s.ShortRep? then 1 else s.len + 2
    ensures var hist, i := Apply(p, z, s, n).hist, |z.hist| + k;
      var dist := if s.Match? then s.dist else if s.Rep? then Last(z)[s.index] else z.rep0;
      && |hist| == |z.hist| + n && hist[..|z.hist|] == z.hist
      && (if s.Literal? then hist[i] == s.byte else dist < i && hist[i] == hist[i - 1 - dist])
  {
    if !s.Literal? {
      TurnReach(p, z, s);
      CopyRepeats(z.hist, Turn(z, s).rep0, n, k);
    }
  }

  lemma {:induction false} CopyRepeats(hist: seq<Byte>, dist: nat, n: nat, k: nat)
    requires dist < |hist| && k < n
    ensures Copy(hist, dist, n)[|hist| + k] == Copy(hist, dist, n)[|hist| + k - 1 - dist]
    decreases n
  {
    var more := hist + [Back(hist, dist)];
    assert Copy(hist, dist, n) == Copy(more, dist, n - 1);
    if k > 0 {
      CopyRepeats(more, dist, n - 1, k - 1);
    } else {
      assert more <= Copy(more, dist, n - 1);
    }
  }

  // Main result: a symbol is refused exactly when it reaches back before the data or out of the
  // dictionary, the end marker never.
  lemma RefusedWhen(p: Props, limit: nat, inp: seq<Byte>, s: St)
    requires ValidSt(p, s) && |s.z.hist| < limit
    ensures var (sym, d) := ParseSymbol(inp, s.d, ViewOf(p, s.z));
      Step(p, limit, inp, s).Failed? <==>
        && Normalize(inp, d).pos <= |inp|
        && (((sym.ShortRep? || sym.Rep?) && s.z.hist == []) ||
            (sym.Match? && sym.dist != 0xFFFF_FFFF && (sym.dist >= |s.z.hist| || sym.dist >= p.dicSize)))
  {
    hide Normalize, ViewOf, ParseLiteral, ParseMatch, ParseRep, DecodeModel;
    SymbolParses(inp, s.d, ViewOf(p, s.z), Literal(0));
  }
}
