// The byte-level range decoder of the LZMA decoder, reading through a window on the
// stream, and the tree decoders built on it.

module RangeDecoder {
  import opened RangeCoder
  import opened RangeBudget
  import opened LzmaSymbols
  import opened LzmaModel
  import opened Words

  // ----- Positions never go back ------------------------------------------------------

  ghost predicate Wide(d: Dec) { 0x10000 < d.range < WORD && d.code < WORD }

  // e is a later state than d: it has consumed at least as much.
  ghost predicate Later(inp: seq<Byte>, d: Dec, e: Dec) {
    Wide(e) && Normalize(inp, d).pos <= Normalize(inp, e).pos
  }

  lemma RunLater(inp: seq<Byte>, d: Dec, xs: seq<Decision>)
    requires Wide(d) && After(inp, d, xs).Some?
    ensures Later(inp, d, After(inp, d, xs).value)
  {
    PosGrows(inp, d, xs);
    CodeIsWord(inp, d, xs);
  }

  lemma ModelLater(inp: seq<Byte>, d: Dec, ctx: nat)
    requires Wide(d)
    ensures Later(inp, d, DecodeModel(inp, d, ctx).1)
  {
    var x := Model(ctx, DecodeModel(inp, d, ctx).0);
    assert [x][1..] == [];
    assert After(inp, d, [x]) == Some(DecodeModel(inp, d, ctx).1);
    RunLater(inp, d, [x]);
  }

  lemma GuidedLater(inp: seq<Byte>, d: Dec, base: nat, n: nat, m: nat, guide: nat, same: bool)
    requires Wide(d)
    ensures Later(inp, d, ParseGuided(inp, d, base, n, m, guide, same).1)
  {
    hide DecodeModel, After, ParseGuided, GuidedBits;
    var r := ParseGuided(inp, d, base, n, m, guide, same).0;
    GuidedParses(inp, d, base, n, m, r, guide, same);
    RunLater(inp, d, GuidedBits(base, n, m, r, guide, same));
  }

  lemma ReverseLater(inp: seq<Byte>, d: Dec, base: nat, n: nat, m: nat)
    requires Wide(d)
    ensures Later(inp, d, ParseReverse(inp, d, base, n, m).1)
  {
    hide DecodeModel, After, ParseReverse, ReverseBits;
    var r := ParseReverse(inp, d, base, n, m).0;
    ReverseParses(inp, d, base, n, m, r);
    RunLater(inp, d, ReverseBits(base, n, m, r));
  }

  lemma DirectLater(inp: seq<Byte>, d: Dec, n: nat)
    requires Wide(d)
    ensures Later(inp, d, ParseDirect(inp, d, n).1)
  {
    hide DecodeDirect, After, ParseDirect, DirectBits;
    var r := ParseDirect(inp, d, n).0;
    DirectParses(inp, d, n, r);
    RunLater(inp, d, DirectBits(n, r));
  }

  lemma LengthLater(inp: seq<Byte>, d: Dec, base: nat, posState: nat)
    requires Wide(d)
    ensures Later(inp, d, ParseLength(inp, d, base, posState).1)
  {
    hide DecodeModel, After, ParseLength, LengthBits;
    var r := ParseLength(inp, d, base, posState).0;
    LengthParses(inp, d, base, posState, r);
    RunLater(inp, d, LengthBits(base, posState, r));
  }

  lemma FooterLater(inp: seq<Byte>, d: Dec, slot: nat)
    requires Wide(d) && slot < 64
    ensures Later(inp, d, ParseFooter(inp, d, slot).1)
  {
    hide DecodeModel, After, ParseFooter, FooterBits;
    var r := ParseFooter(inp, d, slot).0;
    FooterParses(inp, d, slot, 0);
    FooterParses(inp, d, slot, r);
    RunLater(inp, d, FooterBits(slot, r));
  }

  // The states between the decisions of a length are not later than its end.
  lemma LengthShape(inp: seq<Byte>, d: Dec, base: nat, posState: nat)
    requires Wide(d)
    ensures var (b, d1) := DecodeModel(inp, d, base);
      var (c, d2) := DecodeModel(inp, d1, base + 1);
      var e := ParseLength(inp, d, base, posState).1;
      && Later(inp, d, e) && Wide(d1)
      && (b == 1 ==> Later(inp, d1, e) && Wide(d2))
  {
    hide DecodeModel, Normalize, ParseGuided;
    var (b, d1) := DecodeModel(inp, d, base);
    var (c, d2) := DecodeModel(inp, d1, base + 1);
    ModelLater(inp, d, base);
    ModelLater(inp, d1, base + 1);
    if b == 0 {
      GuidedLater(inp, d1, base + LEN_LOW + posState * 8, 3, 1, 0, false);
    } else if c == 0 {
      GuidedLater(inp, d2, base + LEN_MID + posState * 8, 3, 1, 0, false);
    } else {
      GuidedLater(inp, d2, base + LEN_HIGH, 8, 1, 0, false);
    }
  }

  lemma RepIndexShape(inp: seq<Byte>, d: Dec, v: View)
    requires Wide(d)
    ensures var (a, d1) := DecodeModel(inp, d, IS_REP_G0 + v.state);
      var (b, d2) := DecodeModel(inp, d1, IS_REP_G1 + v.state);
      var e := ParseRepIndex(inp, d, v).1;
      && Later(inp, d, e) && Later(inp, d1, e) && Wide(d1)
      && (a == 1 && b == 1 ==> Later(inp, d2, e) && Wide(d2))
  {
    hide DecodeModel, Normalize;
    var (a, d1) := DecodeModel(inp, d, IS_REP_G0 + v.state);
    var (b, d2) := DecodeModel(inp, d1, IS_REP_G1 + v.state);
    ModelLater(inp, d, IS_REP_G0 + v.state);
    ModelLater(inp, d1, IS_REP_G1 + v.state);
    ModelLater(inp, d1, IS_REP0_LONG + v.state * 16 + v.posState);
    ModelLater(inp, d2, IS_REP_G2 + v.state);
  }

  lemma MatchShape(inp: seq<Byte>, d: Dec, v: View)
    requires Wide(d)
    ensures var (len, d1) := ParseLength(inp, d, LEN_CODER, v.posState);
      var e := ParseMatch(inp, d, v).1;
      Later(inp, d, e) && Later(inp, d1, e) && Wide(d1)
  {
    hide DecodeModel, Normalize, ParseLength, ParseDistance;
    var (len, d1) := ParseLength(inp, d, LEN_CODER, v.posState);
    LengthLater(inp, d, LEN_CODER, v.posState);
    DistanceLater(inp, d1, len);
  }

  lemma DistanceLater(inp: seq<Byte>, d: Dec, len: nat)
    requires Wide(d)
    ensures Later(inp, d, ParseDistance(inp, d, len).1)
  {
    hide DecodeModel, Normalize, ParseGuided, ParseFooter;
    var base := POS_SLOT + LenState(len) * 64;
    var (slot, d1) := ParseTree(inp, d, base, 6);
    TreeSizes();
    GuidedLater(inp, d, base, 6, 1, 0, false);
    FooterLater(inp, d1, slot);
  }

  lemma RepShape(inp: seq<Byte>, d: Dec, v: View)
    requires Wide(d)
    ensures var (i, d1) := ParseRepIndex(inp, d, v);
      var e := ParseRep(inp, d, v).1;
      Later(inp, d, e) && Later(inp, d1, e) && Wide(d1)
  {
    hide DecodeModel, Normalize, ParseLength;
    var (i, d1) := ParseRepIndex(inp, d, v);
    RepIndexShape(inp, d, v);
    var (a, e1) := DecodeModel(inp, d, IS_REP_G0 + v.state);
    var (b, e2) := DecodeModel(inp, e1, IS_REP_G1 + v.state);
    ModelLater(inp, d, IS_REP_G0 + v.state);
    ModelLater(inp, e1, IS_REP0_LONG + v.state * 16 + v.posState);
    ModelLater(inp, e1, IS_REP_G1 + v.state);
    ModelLater(inp, e2, IS_REP_G2 + v.state);
    LengthLater(inp, d1, REP_LEN_CODER, v.posState);
  }

  lemma SymbolShape(inp: seq<Byte>, d: Dec, v: View)
    requires Wide(d)
    ensures var (m, d1) := DecodeModel(inp, d, IS_MATCH + v.state * 16 + v.posState);
      var (r, d2) := DecodeModel(inp, d1, IS_REP + v.state);
      var e := ParseSymbol(inp, d, v).1;
      && Later(inp, d, e) && Wide(d1)
      && (m == 1 ==> Later(inp, d1, e) && Wide(d2))
  {
    hide DecodeModel, Normalize, ParseLiteral, ParseMatch, ParseRep;
    var (m, d1) := DecodeModel(inp, d, IS_MATCH + v.state * 16 + v.posState);
    var (r, d2) := DecodeModel(inp, d1, IS_REP + v.state);
    ModelLater(inp, d, IS_MATCH + v.state * 16 + v.posState);
    ModelLater(inp, d1, IS_REP + v.state);
    LiteralLater(inp, d1, v);
    MatchShape(inp, d2, v);
    RepShape(inp, d2, v);
  }

  lemma LiteralLater(inp: seq<Byte>, d: Dec, v: View)
    requires Wide(d)
    ensures Later(inp, d, ParseLiteral(inp, d, v).1)
  {
    hide DecodeModel, Normalize, ParseGuided;
    GuidedLater(inp, d, v.litBase, 8, 1, 0, false);
    GuidedLater(inp, d, v.litBase, 8, 1, v.guide, true);
  }

  // ----- The node numbers the loops compute -------------------------------------------

  // The node n levels below node m that the value v leads to.
  function Descend(m: nat, n: nat, v: nat): nat
    requires v < Pow2(n)
    decreases n
  {
    if n == 0 then m else Descend(2 * m + Top(n, v), n - 1, Rest(n, v))
  }

  lemma {:induction false} DescendIsShift(m: nat, n: nat, v: nat)
    requires v < Pow2(n)
    ensures Descend(m, n, v) == Shl(m, n) + v
    decreases n
  {
    if n > 0 {
      DescendIsShift(2 * m + Top(n, v), n - 1, Rest(n, v));
      ShlAdd(2 * m, Top(n, v), n - 1);
      ShlZero(n - 1);
      ShlOne(n - 1);
    }
  }

  class RangeDec {
    var range: nat
    var code: nat
    var src: seq<Byte>
    var buf: nat

    // src is the part of the stream from position base on.
    ghost var stream: seq<Byte>
    ghost var base: nat

    constructor ()
      ensures Valid() && src == [] && buf == 0 && stream == [] && base == 0
    {
      range, code, src, buf := 0xFFFF_FFFF, 0, [], 0;
      stream, base := [], 0;
    }

    // Points the reader at the bytes that follow in the stream.
    method Attach(chunk: seq<Byte>, ghost full: seq<Byte>)
      requires 0x10000 < range < WORD && code < WORD
      requires base + buf + |chunk| <= |full| && full[base + buf..base + buf + |chunk|] == chunk
      modifies this`src, this`buf, this`stream, this`base
      ensures Valid() && src == chunk && stream == full && buf == 0 && base == old(base + buf)
    {
      stream, base := full, base + buf;
      src, buf := chunk, 0;
    }

    // Starts on the five header bytes of a stream.
    method InitRc(data: seq<Byte>, ghost full: seq<Byte>)
      requires |data| == 5 && 5 <= |full| && full[..5] == data
      modifies this`range, this`code, this`src, this`buf, this`stream, this`base
      ensures range >= TOP && range < WORD && code < WORD && base + buf == 5
      ensures forall probs: Probs :: Dec(range, code, base + buf, probs) == DecStart(full, probs)
    {
      code := Word(data[1], data[2], data[3], data[4]);
      range := 0xFFFF_FFFF;
      src, buf := [], 0;
      stream, base := full, 5;
    }

    ghost function D(probs: array<Prob>): Dec
      reads this, probs
    {
      Dec(range, code, base + buf, probs[..])
    }

    ghost predicate Valid()
      reads this
    {
      && 0x10000 < range < WORD && code < WORD && buf <= |src|
      && base + |src| <= |stream| && stream[base..base + |src|] == src
    }

    // Decoding up to state e reads inside src only.
    ghost predicate Fits(e: Dec)
      reads this
    {
      Normalize(stream, e).pos <= base + |src|
    }

    method NormalizeRange(ghost probs: array<Prob>)
      requires Valid() && Fits(D(probs))
      modifies this`range, this`code, this`buf
      ensures Valid() && range >= TOP && D(probs) == Normalize(stream, old(D(probs)))
    {
      if range < TOP {
        assert src[buf] == stream[base + buf];
        range := range * 256;
        code := (code * 256 + src[buf]) % WORD;
        buf := buf + 1;
      }
    }

    method GetBit(probs: array<Prob>, i: nat) returns (b: Bit)
      requires Valid() && i < probs.Length && Fits(D(probs))
      modifies this`range, this`code, this`buf, probs
      ensures Valid() && (b, D(probs)) == DecodeModel(stream, old(D(probs)), i)
    {
      ghost var d := D(probs);
      NormalizeRange(probs);
      var ttt: int := probs[i];
      var bound := Split(range, ttt);
      SplitBounds(range, ttt);
      if code < bound {
        range := bound;
        probs[i] := ttt + (2048 - ttt) / 32;
        b := 0;
      } else {
        range := range - bound;
        code := code - bound;
        probs[i] := ttt - ttt / 32;
        b := 1;
      }
    }

    // The node number i starts at 1; the bit at limit marks the end.
    method TreeDecode(probs: array<Prob>, tree: nat, n: nat) returns (v: nat)
      requires Valid() && tree + Pow2(n) <= probs.Length
      requires Fits(ParseTree(stream, D(probs), tree, n).1)
      modifies this`range, this`code, this`buf, probs
      ensures Valid() && (v, D(probs)) == ParseTree(stream, old(D(probs)), tree, n)
    {
      hide DecodeModel, Normalize, Descend, ParseGuided, Pow2, BitAt;
      var limit := Pow2(n);
      var i: nat := 1;
      ghost var k := n;
      ghost var want := ParseTree(stream, D(probs), tree, n);
      NodeStart(n, want.0);
      while i < limit
        invariant Valid() && 0 <= k <= n && NodeAt(i, n, k)
        invariant var r := ParseGuided(stream, D(probs), tree, k, i, 0, false);
          r.1 == want.1 && Descend(i, k, r.0) == limit + want.0
        decreases k
      {
        NodeInside(i, n, k);
        GuidedLater(stream, D(probs), tree, k, i, 0, false);
        GuidedStep(stream, D(probs), tree, k, i, 0, false);
        var b := GetBit(probs, tree + i);
        DescendJoin(i, k, b, ParseGuided(stream, D(probs), tree, k - 1, 2 * i + b, 0, false).0);
        i := i + i + b;
        k := k - 1;
      }
      NodeInside(i, n, k);
      GuidedStep(stream, D(probs), tree, k, i, 0, false);
      v := i - limit;
    }

    // offs is the mask of bit 8 while all bits agree with the guiding byte, then 0.
    method LitDecodeMatched(probs: array<Prob>, tree: nat, guide: Byte) returns (v: nat)
      requires Valid() && tree + 0x300 <= probs.Length
      requires Fits(ParseGuided(stream, D(probs), tree, 8, 1, guide, true).1)
      modifies this`range, this`code, this`buf, probs
      ensures Valid() && (v, D(probs)) == ParseGuided(stream, old(D(probs)), tree, 8, 1, guide, true)
    {
      hide DecodeModel, Normalize, Descend, ParseGuided, Pow2, BitAt, Guiding;
      TreeSizes();
      var matchByte: nat, offs: nat, symbol: nat := guide, 0x100, 1;
      ghost var k := 8;
      ghost var want := ParseGuided(stream, D(probs), tree, 8, 1, guide, true);
      NodeStart(8, want.0);
      GuideStart(guide);
      while symbol < 0x100
        invariant Valid() && 0 <= k <= 8 && NodeAt(symbol, 8, k)
        invariant (offs == 0 || offs == 0x100) && Guiding(matchByte, k, guide)
        invariant var r := ParseGuided(stream, D(probs), tree, k, symbol, guide, offs == 0x100);
          r.1 == want.1 && Descend(symbol, k, r.0) == 0x100 + want.0
        decreases k
      {
        NodeInside(symbol, 8, k);
        GuidedLater(stream, D(probs), tree, k, symbol, guide, offs == 0x100);
        GuidedStep(stream, D(probs), tree, k, symbol, guide, offs == 0x100);
        GuideShift(matchByte, k, guide);
        matchByte := matchByte * 2;
        var bit := MaskedBit(matchByte, offs);
        var b := GetBit(probs, tree + offs + bit + symbol);
        ghost var same := offs == 0x100 && b == BitAt(guide, k - 1);
        DescendJoin(symbol, k, b, ParseGuided(stream, D(probs), tree, k - 1, 2 * symbol + b, guide, same).0);
        symbol := symbol + symbol + b;
        offs := if b == 0 then (if bit == 0 then offs else 0) else (if bit == 0 then 0 else offs);
        k := k - 1;
      }
      NodeInside(symbol, 8, k);
      GuidedStep(stream, D(probs), tree, k, symbol, guide, offs == 0x100);
      v := symbol - 0x100;
    }

    // The low bits of a distance: mask walks up as bits come in.
    method ReverseDecode(probs: array<Prob>, tree: nat, numBits: nat, start: nat) returns (v: nat)
      requires Valid() && tree + Pow2(numBits) <= probs.Length
      requires Fits(ParseReverse(stream, D(probs), tree, numBits, 1).1)
      modifies this`range, this`code, this`buf, probs
      ensures Valid()
      ensures var r := ParseReverse(stream, old(D(probs)), tree, numBits, 1);
        v == start + r.0 && D(probs) == r.1
    {
      hide DecodeModel, Normalize, ParseReverse, Pow2;
      var mask: nat, i: nat, j: nat := 1, 1, 0;
      v := start;
      ghost var want := ParseReverse(stream, D(probs), tree, numBits, 1);
      PowZero();
      Pow2Low();
      while j < numBits
        invariant Valid() && 0 <= j <= numBits && mask == Pow2(j) && 1 <= i < Pow2(j + 1)
        invariant var r := ParseReverse(stream, D(probs), tree, numBits - j, i);
          r.1 == want.1 && v + Shl(r.0, j) == start + want.0
      {
        PowMonotonic(j + 1, numBits);
        ReverseLater(stream, D(probs), tree, numBits - j, i);
        ReverseStep(stream, D(probs), tree, numBits - j, i);
        var b := GetBit(probs, tree + i);
        ReverseJoin(b, ParseReverse(stream, D(probs), tree, numBits - j - 1, 2 * i + b).0, j, i);
        v := v + b * mask;
        i := i + i + b;
        mask := mask * 2;
        j := j + 1;
      }
      ReverseStep(stream, D(probs), tree, 0, i);
      ShlZero(j);
    }

    // Bits with equal odds, shifted into distance; the sign of code - range is the bit.
    method DirectDecode(ghost probs: array<Prob>, numBits: nat, start: nat) returns (distance: nat)
      requires Valid() && Fits(ParseDirect(stream, D(probs), numBits).1)
      modifies this`range, this`code, this`buf
      ensures Valid()
      ensures var r := ParseDirect(stream, old(D(probs)), numBits);
        distance == Shl(start, numBits) + r.0 && D(probs) == r.1
    {
      hide DecodeDirect, ParseDirect, Descend, Pow2;
      distance := start;
      var left := numBits;
      ghost var want := ParseDirect(stream, D(probs), numBits);
      DescendIsShift(start, numBits, want.0);
      while left != 0
        invariant Valid() && 0 <= left <= numBits
        invariant var r := ParseDirect(stream, D(probs), left);
          r.1 == want.1 && Descend(distance, left, r.0) == Shl(start, numBits) + want.0
      {
        DirectLater(stream, D(probs), left);
        DirectStep(stream, D(probs), left);
        var b := GetDirectBit(probs);
        DescendJoin(distance, left, b, ParseDirect(stream, D(probs), left - 1).0);
        distance := distance * 2 + b;
        left := left - 1;
      }
      DirectStep(stream, D(probs), 0);
      DescendIsShift(distance, 0, 0);
    }

    method GetDirectBit(ghost probs: array<Prob>) returns (b: Bit)
      requires Valid() && Fits(D(probs))
      modifies this`range, this`code, this`buf
      ensures Valid() && (b, D(probs)) == DecodeDirect(stream, old(D(probs)))
    {
      ghost var d := D(probs);
      NormalizeRange(probs);
      range := range / 2;
      code := (code - range) % WORD;
      if code / 0x8000_0000 == 1 {
        code := (code + range) % WORD;
        b := 0;
      } else {
        b := 1;
      }
    }
  }

  // ----- Steps of the loops ------------------------------------------------------------

  // i is a node with k of n levels below it.
  ghost predicate NodeAt(i: nat, n: nat, k: nat) {
    k <= n && Pow2(n - k) <= i < 2 * Pow2(n - k)
  }

  lemma NodeStart(n: nat, v: nat)
    requires v < Pow2(n)
    ensures NodeAt(1, n, n) && Descend(1, n, v) == Pow2(n) + v
  {
    DescendIsShift(1, n, v);
    ShlOne(n);
  }

  lemma NodeInside(i: nat, n: nat, k: nat)
    requires NodeAt(i, n, k)
    ensures i < Pow2(n) <==> k > 0
    ensures k > 0 ==> NodeAt(2 * i, n, k - 1) && NodeAt(2 * i + 1, n, k - 1)
  {
    if k > 0 { PowMonotonic(n - k + 1, n); }
  }

  lemma DescendJoin(m: nat, n: nat, b: Bit, v: nat)
    requires n > 0 && v < Pow2(n - 1)
    ensures Join(n, b, v) < Pow2(n) && Descend(m, n, Join(n, b, v)) == Descend(2 * m + b, n - 1, v)
  {}

  lemma GuidedStep(inp: seq<Byte>, d: Dec, base: nat, n: nat, m: nat, guide: nat, same: bool)
    ensures n == 0 ==> ParseGuided(inp, d, base, n, m, guide, same) == (0, d)
    ensures n == 0 ==> Descend(m, 0, 0) == m
    ensures n > 0 ==>
      var (b, d1) := DecodeModel(inp, d, NodeCtx(base, n, m, guide, same));
      var (v, d2) := ParseGuided(inp, d1, base, n - 1, 2 * m + b, guide, same && b == BitAt(guide, n - 1));
      ParseGuided(inp, d, base, n, m, guide, same) == (Join(n, b, v), d2)
  {
    hide DecodeModel;
  }

  lemma ReverseStep(inp: seq<Byte>, d: Dec, base: nat, n: nat, m: nat)
    ensures n == 0 ==> ParseReverse(inp, d, base, n, m) == (0, d)
    ensures n > 0 ==>
      var (b, d1) := DecodeModel(inp, d, base + m);
      var (r, d2) := ParseReverse(inp, d1, base, n - 1, 2 * m + b);
      ParseReverse(inp, d, base, n, m) == (b + 2 * r, d2)
  {
    hide DecodeModel;
  }

  lemma ReverseJoin(b: Bit, r: nat, j: nat, i: nat)
    requires i < Pow2(j + 1)
    ensures Shl(b + 2 * r, j) == b * Pow2(j) + Shl(r, j + 1)
    ensures Pow2(j + 1) == 2 * Pow2(j) && 2 * i + b < Pow2(j + 2)
  {
    ShlAdd(b, 2 * r, j);
    ShlOne(j);
    ShlZero(j);
  }

  lemma DirectStep(inp: seq<Byte>, d: Dec, n: nat)
    ensures n == 0 ==> ParseDirect(inp, d, n) == (0, d)
    ensures n > 0 ==>
      var (b, d1) := DecodeDirect(inp, d);
      var (v, d2) := ParseDirect(inp, d1, n - 1);
      ParseDirect(inp, d, n) == (Join(n, b, v), d2)
  {
    hide DecodeDirect;
  }
}
