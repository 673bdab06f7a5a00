// The dry run of the symbol parser: it works on copies of range, code and position, stops
// when the input ends, and never writes a probability back. Reading stale probabilities
// does no harm because no symbol uses a context twice.

module RangeProbe {
  import opened RangeCoder
  import opened RangeBudget
  import opened LzmaSymbols
  import opened LzmaModel
  import opened RangeDecoder
  import opened Words

  class Probe {
    var range: nat
    var code: nat
    var buf: nat
    const src: seq<Byte>
    const probs: array<Prob>

    // The state of a decoder that does update its probabilities, and the contexts in which
    // the two tables may differ.
    ghost const stream: seq<Byte>
    ghost var d: Dec
    ghost var used: set<nat>

    ghost predicate Valid()
      reads this, probs
    {
      && Wide(d) && d.range == range && d.code == code
      && buf <= |src| && |src| <= |stream| && stream[|stream| - |src|..] == src
      && d.pos == |stream| - |src| + buf
      && |d.probs| == probs.Length
      && forall i :: 0 <= i < probs.Length && i !in used ==> d.probs[i] == probs[i]
    }

    // No context from lo up to hi has been used.
    ghost predicate Unused(lo: nat, hi: nat)
      reads this
    {
      forall c :: c in used ==> c < lo || hi <= c
    }

    // Whatever has been used since lies from lo up to hi.
    ghost predicate Grown(before: set<nat>, lo: nat, hi: nat)
      reads this
    {
      forall c :: c in used ==> c in before || lo <= c < hi
    }

    ghost predicate Runs(e: Dec)
    {
      Normalize(stream, e).pos <= |stream|
    }

    constructor (range: nat, code: nat, src: seq<Byte>, probs: array<Prob>, ghost stream: seq<Byte>)
      requires 0x10000 < range < WORD && code < WORD
      requires |src| <= |stream| && stream[|stream| - |src|..] == src
      ensures Valid() && used == {} && this.stream == stream && this.probs == probs
      ensures d == Dec(range, code, |stream| - |src|, probs[..])
    {
      this.range, this.code, this.buf, this.src, this.probs := range, code, 0, src, probs;
      this.stream, this.d, this.used := stream, Dec(range, code, |stream| - |src|, probs[..]), {};
    }

    method NormalizeCheck() returns (err: bool)
      requires Valid()
      modifies this`range, this`code, this`buf, this`d
      ensures Valid() && err == !Runs(old(d))
      ensures d == if err then old(d) else Normalize(stream, old(d))
    {
      err := false;
      if range < TOP {
        if buf >= |src| {
          err := true;
          return;
        }
        assert stream[|stream| - |src|..][buf] == stream[|stream| - |src| + buf];
        range := range * 256;
        code := (code * 256 + src[buf]) % WORD;
        buf := buf + 1;
        d := Normalize(stream, d);
      }
    }

    method GetBitCheck(i: nat) returns (err: bool, b: Bit)
      requires Valid() && i < probs.Length && i !in used
      modifies this
      ensures Valid() && err == !Runs(old(d))
      ensures if err then used == old(used)
        else (b, d) == DecodeModel(stream, old(d), i) && used == old(used) + {i}
    {
      b := 0;
      ghost var d0 := d;
      err := NormalizeCheck();
      if err {
        return;
      }
      var bound := Split(range, probs[i]);
      SplitBounds(range, probs[i]);
      DecodeNormalized(stream, d0, Model(i, 0));
      d := DecodeModel(stream, d, i).1;
      used := used + {i};
      if code < bound {
        range := bound;
      } else {
        range := range - bound;
        code := code - bound;
        b := 1;
      }
    }
  
    method TreeDecodeCheck(tree: nat, n: nat) returns (err: bool, v: nat)
      requires Valid() && tree + Pow2(n) <= probs.Length && Unused(tree + 1, tree + Pow2(n))
      modifies this
      ensures Valid()
      ensures var r := ParseTree(stream, old(d), tree, n);
        && (err ==> !Runs(r.1)) && (!err ==> (v, d) == r)
      ensures Grown(old(used), tree + 1, tree + Pow2(n))
    {
      hide DecodeModel, Normalize, Descend, ParseGuided, Pow2, BitAt;
      var limit := Pow2(n);
      var i: nat := 1;
      ghost var k := n;
      ghost var want := ParseTree(stream, d, tree, n);
      NodeStart(n, want.0);
      err, v := false, 0;
      while i < limit
        invariant Valid() && 0 <= k <= n && NodeAt(i, n, k)
        invariant var r := ParseGuided(stream, d, tree, k, i, 0, false);
          r.1 == want.1 && Descend(i, k, r.0) == limit + want.0
        invariant Grown(old(used), tree + 1, tree + i) && 1 <= i
        invariant i <= limit || Grown(old(used), tree + 1, tree + limit)
        decreases k
      {
        NodeInside(i, n, k);
        GuidedLater(stream, d, tree, k, i, 0, false);
        GuidedStep(stream, d, tree, k, i, 0, false);
        var b;
        err, b := GetBitCheck(tree + i);
        if err {
          return;
        }
        DescendJoin(i, k, b, ParseGuided(stream, d, tree, k - 1, 2 * i + b, 0, false).0);
        i := i + i + b;
        k := k - 1;
      }
      NodeInside(i, n, k);
      GuidedStep(stream, d, tree, k, i, 0, false);
      v := i - limit;
    }

    method LitDecodeMatchedCheck(tree: nat, guide: Byte) returns (err: bool)
      requires Valid() && tree + 0x300 <= probs.Length && Unused(tree, tree + 0x300)
      modifies this
      ensures Valid()
      ensures var r := ParseGuided(stream, old(d), tree, 8, 1, guide, true);
        && (err ==> !Runs(r.1)) && (!err ==> d == r.1)
    {
      hide DecodeModel, Normalize, ParseGuided, Pow2, BitAt, Guiding, Learn, SpreadBelow, NodeAt, Descend;
      SpreadStart(used, tree);
      TreeSizes();
      var matchByte: nat, offs: nat, symbol: nat := guide, 0x100, 1;
      ghost var k, start := 8, used;
      ghost var want := ParseGuided(stream, d, tree, 8, 1, guide, true);
      NodeStart(8, want.0);
      GuideStart(guide);
      err := false;
      while symbol < 0x100
        invariant Valid() && 0 <= k <= 8 && NodeAt(symbol, 8, k) && !err
        invariant (offs == 0 || offs == 0x100) && Guiding(matchByte, k, guide)
        invariant ParseGuided(stream, d, tree, k, symbol, guide, offs == 0x100).1 == want.1
        invariant SpreadBelow(start, used, tree, symbol)
        decreases k
      {
        NodeInside(symbol, 8, k);
        GuidedLater(stream, d, tree, k, symbol, guide, offs == 0x100);
        GuidedStep(stream, d, tree, k, symbol, guide, offs == 0x100);
        GuideShift(matchByte, k, guide);
        matchByte := matchByte * 2;
        var bit := MaskedBit(matchByte, offs);
        var b;
        SpreadFresh(start, used, tree, symbol, offs, bit);
        ghost var before := used;
        err, b := GetBitCheck(tree + offs + bit + symbol);
        if err {
          return;
        }
        SpreadNext(start, before, tree, symbol, offs, bit, 2 * symbol + b);
        symbol := symbol + symbol + b;
        offs := if b == 0 then (if bit == 0 then offs else 0) else (if bit == 0 then 0 else offs);
        k := k - 1;
      }
      NodeInside(symbol, 8, k);
      GuidedStep(stream, d, tree, k, symbol, guide, offs == 0x100);
    }

    method ReverseDecodeCheck(tree: nat, numBits: nat) returns (err: bool)
      requires Valid() && tree + Pow2(numBits) <= probs.Length && Unused(tree + 1, tree + Pow2(numBits))
      modifies this
      ensures Valid()
      ensures var r := ParseReverse(stream, old(d), tree, numBits, 1);
        && (err ==> !Runs(r.1)) && (!err ==> d == r.1)
    {
      hide DecodeModel, Normalize, ParseReverse, Pow2;
      var i: nat, left: nat := 1, numBits;
      ghost var want := ParseReverse(stream, d, tree, numBits, 1);
      err := false;
      Pow2Low();
      while left != 0
        invariant Valid() && 0 <= left <= numBits && 1 <= i < Pow2(numBits - left + 1) && !err
        invariant ParseReverse(stream, d, tree, left, i).1 == want.1
        invariant Grown(old(used), tree + 1, tree + i)
      {
        PowMonotonic(numBits - left + 1, numBits);
        ReverseLater(stream, d, tree, left, i);
        ReverseStep(stream, d, tree, left, i);
        var b;
        err, b := GetBitCheck(tree + i);
        if err {
          return;
        }
        ReverseJoin(b, 0, numBits - left, i);
        i := i + i + b;
        left := left - 1;
      }
      ReverseStep(stream, d, tree, 0, i);
    }

    method DirectDecodeCheck(numBits: nat) returns (err: bool)
      requires Valid()
      modifies this
      ensures Valid() && used == old(used)
      ensures var r := ParseDirect(stream, old(d), numBits);
        && (err ==> !Runs(r.1)) && (!err ==> d == r.1)
    {
      hide DecodeDirect, ParseDirect, Normalize;
      var left := numBits;
      ghost var want := ParseDirect(stream, d, numBits);
      err := false;
      while left != 0
        invariant Valid() && 0 <= left <= numBits && !err && used == old(used)
        invariant ParseDirect(stream, d, left).1 == want.1
      {
        DirectLater(stream, d, left);
        DirectStep(stream, d, left);
        err := GetDirectBitCheck();
        if err {
          return;
        }
        left := left - 1;
      }
      DirectStep(stream, d, 0);
    }

    method GetDirectBitCheck() returns (err: bool)
      requires Valid()
      modifies this
      ensures Valid() && err == !Runs(old(d)) && used == old(used)
      ensures !err ==> d == DecodeDirect(stream, old(d)).1
    {
      ghost var d0 := d;
      err := NormalizeCheck();
      if err {
        return;
      }
      DecodeNormalized(stream, d0, Direct(0));
      d := DecodeDirect(stream, d).1;
      range := range / 2;
      var diff := (code - range) % WORD;
      if diff / 0x8000_0000 == 0 {
        code := diff;
      }
    }

    method LengthCheck(prob: nat, posState: nat) returns (err: bool, len: nat)
      requires Valid() && posState < 16 && prob + 514 <= probs.Length && Unused(prob, prob + 514)
      modifies this
      ensures Valid() && Grown(old(used), prob, prob + 514)
      ensures var r := ParseLength(stream, old(d), prob, posState);
        && (err ==> !Runs(r.1)) && (!err ==> (len, d) == r)
    {
      hide DecodeModel, Normalize, ParseGuided, Pow2, Learn;
      TreeSizes();
      LengthShape(stream, d, prob, posState);
      len := 0;
      var bit;
      err, bit := GetBitCheck(prob);
      if err { return; }
      if bit == 0 {
        err, len := TreeDecodeCheck(prob + LEN_LOW + posState * 8, 3);
      } else {
        err, bit := GetBitCheck(prob + 1);
        if err { return; }
        if bit == 0 {
          err, len := TreeDecodeCheck(prob + LEN_MID + posState * 8, 3);
          len := len + 8;
        } else {
          err, len := TreeDecodeCheck(prob + LEN_HIGH, 8);
          len := len + 16;
        }
      }
    }

    method DistanceCheck(len: nat) returns (err: bool)
      requires Valid() && probs.Length >= LITERAL && Unused(POS_SLOT, LEN_CODER)
      modifies this
      ensures Valid()
      ensures var r := ParseDistance(stream, old(d), len);
        && (err ==> !Runs(r.1)) && (!err ==> d == r.1)
    {
      hide DecodeModel, Normalize, ParseGuided, Pow2, ParseReverse, ParseDirect, SlotBase, Learn;
      TreeSizes();
      var prob := POS_SLOT + LenState(len) * 64;
      ghost var (slot, d1) := ParseTree(stream, d, prob, 6);
      GuidedLater(stream, d, prob, 6, 1, 0, false);
      FooterLater(stream, d1, slot);
      var posSlot;
      err, posSlot := TreeDecodeCheck(prob, 6);
      if err { return; }
      if posSlot >= 4 {
        var numDirectBits := posSlot / 2 - 1;
        if posSlot < 14 {
          SpecTable(posSlot);
          err := ReverseDecodeCheck(SPEC_POS + SlotStartOf(posSlot) - posSlot - 1, numDirectBits);
        } else {
          ghost var d2 := ParseDirect(stream, d, numDirectBits - 4).1;
          DirectLater(stream, d, numDirectBits - 4);
          ReverseLater(stream, d2, ALIGN, 4, 1);
          err := DirectDecodeCheck(numDirectBits - 4);
          if err { return; }
          err := ReverseDecodeCheck(ALIGN, 4);
        }
      }
    }

    method RepIndexCheck(ghost v: View, state: nat, posState: nat) returns (err: bool, short: bool)
      requires Valid() && probs.Length >= LITERAL && state < 12 && posState < 16
      requires v.state == state && v.posState == posState && forall c :: c in used ==> c < IS_REP_G0
      modifies this
      ensures Valid() && forall c :: c in used ==> c < POS_SLOT
      ensures var (i, e) := ParseRepIndex(stream, old(d), v);
        && (err ==> !Runs(e)) && (!err ==> d == e && (short <==> i == None))
    {
      hide DecodeModel, Normalize, Learn;
      RepIndexShape(stream, d, v);
      short := false;
      var bit;
      err, bit := GetBitCheck(IS_REP_G0 + state);
      if err { return; }
      if bit == 0 {
        err, bit := GetBitCheck(IS_REP0_LONG + state * 16 + posState);
        short := bit == 0;
      } else {
        err, bit := GetBitCheck(IS_REP_G1 + state);
        if err { return; }
        if bit == 1 {
          err, bit := GetBitCheck(IS_REP_G2 + state);
        }
      }
    }
  }

  // In the three literal trees that lie 0x100 apart, only nodes below m have been used.
  ghost predicate SpreadBelow(before: set<nat>, used: set<nat>, tree: nat, m: nat) {
    forall c :: c in used ==> (c in before && (c < tree || tree + 0x300 <= c)) ||
                              (tree <= c < tree + 0x300 && (c - tree) % 0x100 < m)
  }

  lemma SpreadFresh(before: set<nat>, used: set<nat>, tree: nat, m: nat, offs: nat, bit: nat)
    requires SpreadBelow(before, used, tree, m) && m < 0x100
    requires (offs == 0 && bit == 0) || (offs == 0x100 && (bit == 0 || bit == 0x100))
    ensures tree + offs + bit + m !in used
  {
    var c := tree + offs + bit + m;
    assert c - tree == offs + bit + m;
    assert (c - tree) % 0x100 == m;
  }

  lemma SpreadNext(before: set<nat>, used: set<nat>, tree: nat, m: nat, offs: nat, bit: nat, m': nat)
    requires SpreadBelow(before, used, tree, m) && m < 0x100 && m < m'
    requires (offs == 0 && bit == 0) || (offs == 0x100 && (bit == 0 || bit == 0x100))
    ensures SpreadBelow(before, used + {tree + offs + bit + m}, tree, m')
  {
    assert (tree + offs + bit + m - tree) % 0x100 == m;
  }

  lemma SpreadStart(used: set<nat>, tree: nat)
    requires forall c :: c in used ==> c < tree || tree + 0x300 <= c
    ensures SpreadBelow(used, used, tree, 1)
  {}
}
