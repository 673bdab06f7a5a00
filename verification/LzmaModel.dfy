// The LZMA state machine over whole streams: what a symbol does to the history, how a
// valid parse of the data is coded, and the round trip through the decoder.

module LzmaModel {
  import opened RangeCoder
  import opened RangeBudget
  import opened LzmaSymbols
  import opened Words

  datatype Props = Props(lc: nat, lp: nat, pb: nat, dicSize: nat)

  predicate ValidProps(p: Props) {
    p.lc <= 8 && p.lp <= 4 && p.pb <= 4 && 4096 <= p.dicSize < WORD
  }

  function NumProbs(p: Props): nat { LITERAL + LIT_SIZE * Pow2(p.lc + p.lp) }

  // The part of the coder that both sides keep: distances count from 0, hist is all the
  // data so far.
  datatype Lz = Lz(state: nat, rep0: nat, rep1: nat, rep2: nat, rep3: nat, hist: seq<Byte>)

  const LZ_START := Lz(0, 0, 0, 0, 0, [])

  // Distances that may be used: inside the history and inside the dictionary.
  function Reach(p: Props, hist: seq<Byte>): nat {
    if |hist| < p.dicSize then |hist| else p.dicSize
  }

  predicate ValidLz(p: Props, z: Lz) {
    && ValidProps(p) && z.state < 12
    && (z.hist == [] ==> z.state == 0 && z.rep0 == z.rep1 == z.rep2 == z.rep3 == 0)
    && (z.hist != [] ==> z.rep0 < Reach(p, z.hist) && z.rep1 < Reach(p, z.hist) &&
                         z.rep2 < Reach(p, z.hist) && z.rep3 < Reach(p, z.hist))
  }

  function Back(hist: seq<Byte>, dist: nat): Byte
    requires dist < |hist|
  {
    hist[|hist| - 1 - dist]
  }

  function LiteralBase(p: Props, hist: seq<Byte>): nat {
    var prev := if hist == [] then 0 else Back(hist, 0);
    LITERAL + LIT_SIZE * (Shl(|hist| % Pow2(p.lp), p.lc) + Shr(prev, 8 - if p.lc <= 8 then p.lc else 8))
  }

  // The literal subtable lies inside the probability table.
  lemma LiteralInTable(p: Props, hist: seq<Byte>)
    requires ValidProps(p)
    ensures LiteralBase(p, hist) + LIT_SIZE <= NumProbs(p)
  {
    var prev := if hist == [] then 0 else Back(hist, 0);
    var low := |hist| % Pow2(p.lp);
    assert Pow2(8) == 256;
    ShrRange(prev, 8 - p.lc, p.lc);
    ShlSum(low, 1, p.lp, p.lc);
    ShlOne(p.lc);
  }

  lemma TableSize(p: Props)
    ensures NumProbs(p) >= LITERAL + LIT_SIZE
  {}

  function ViewOf(p: Props, z: Lz): View {
    View(z.state, |z.hist| % Pow2(p.pb), LiteralBase(p, z.hist),
         if z.rep0 < |z.hist| then Back(z.hist, z.rep0) else 0)
  }

  lemma ViewIs(p: Props, z: Lz)
    ensures ViewOf(p, z).state == z.state && ViewOf(p, z).posState == |z.hist| % Pow2(p.pb)
  {}

  lemma FirstView(p: Props)
    requires ValidProps(p)
    ensures ViewOf(p, LZ_START) == View(0, 0, LITERAL, 0)
  {
    ShrZero(8 - p.lc);
    ShlZero(p.lc);
    assert 0 % Pow2(p.pb) == 0 && 0 % Pow2(p.lp) == 0;
  }

  function FreshProbs(n: nat): Probs { seq(n, _ => 1024) }

  function AfterLiteral(state: nat): nat
    requires state < 12
  {
    if state < 4 then 0 else if state < 10 then state - 3 else state - 6
  }

  function AfterOther(state: nat, low: nat, high: nat): nat {
    if state < NUM_LIT_STATES then low else high
  }

  // Bytes are copied one at a time, so a copy may feed on itself.
  function Copy(hist: seq<Byte>, dist: nat, n: nat): (r: seq<Byte>)
    requires dist < |hist|
    ensures |r| == |hist| + n && hist <= r
    decreases n
  {
    if n == 0 then hist else Copy(hist + [Back(hist, dist)], dist, n - 1)
  }

  predicate IsEndMark(s: Symbol) { s.Match? && s.dist == MAX_DIST }

  // Symbols the decoder accepts at this point.
  predicate Allowed(p: Props, z: Lz, s: Symbol) {
    match s
    case Literal(_) => true
    case ShortRep => z.hist != []
    case Rep(i, len) => z.hist != [] && i < 4
    case Match(dist, len) => dist < Reach(p, z.hist)
  }

  function SymbolSize(s: Symbol): nat {
    match s
    case Literal(_) => 1
    case ShortRep => 1
    case Rep(_, len) => len + 2
    case Match(_, len) => len + 2
  }

  function RepAt(z: Lz, i: nat): nat {
    if i == 0 then z.rep0 else if i == 1 then z.rep1 else if i == 2 then z.rep2 else z.rep3
  }

  // The four distances and the state after a symbol; the history is not touched.
  function Turn(z: Lz, s: Symbol): Lz
    requires z.state < 12
  {
    match s
    case Literal(_) => z.(state := AfterLiteral(z.state))
    case ShortRep => z.(state := AfterOther(z.state, 9, 11))
    case Rep(i, _) =>
      var r := RepAt(z, i);
      Lz(AfterOther(z.state, 8, 11), r, if i == 0 then z.rep1 else z.rep0,
         if i < 2 then z.rep2 else z.rep1, if i < 3 then z.rep3 else z.rep2, z.hist)
    case Match(dist, _) => Lz(AfterOther(z.state, 7, 10), dist, z.rep0, z.rep1, z.rep2, z.hist)
  }

  // The first n bytes a symbol produces.
  function Produce(p: Props, z: Lz, s: Symbol, n: nat): (r: seq<Byte>)
    requires ValidLz(p, z) && Allowed(p, z, s) && n <= SymbolSize(s)
    ensures |r| == |z.hist| + n && z.hist <= r
  {
    if s.Literal? then z.hist + [s.byte][..n] else Copy(z.hist, Turn(z, s).rep0, n)
  }

  function Apply(p: Props, z: Lz, s: Symbol, n: nat): (r: Lz)
    requires ValidLz(p, z) && Allowed(p, z, s) && 1 <= n <= SymbolSize(s)
    ensures ValidLz(p, r) && |r.hist| == |z.hist| + n
  {
    var t := Turn(z, s);
    var hist := Produce(p, z, s, n);
    assert Reach(p, z.hist) <= Reach(p, hist) && 1 <= Reach(p, hist);
    Lz(t.state, t.rep0, t.rep1, t.rep2, t.rep3, hist)
  }

  lemma ApplyShort(p: Props, z: Lz)
    requires ValidLz(p, z) && z.hist != []
    ensures Allowed(p, z, ShortRep) && Turn(z, ShortRep).rep0 < |z.hist|
    ensures Apply(p, z, ShortRep, 1) ==
      Turn(z, ShortRep).(hist := z.hist + [Back(z.hist, Turn(z, ShortRep).rep0)])
  {
    assert Copy(z.hist, z.rep0, 1) == Copy(z.hist + [Back(z.hist, z.rep0)], z.rep0, 0);
  }

  lemma TurnReach(p: Props, z: Lz, s: Symbol)
    requires ValidLz(p, z) && Allowed(p, z, s) && !s.Literal?
    ensures Turn(z, s).rep0 < Reach(p, z.hist) && Turn(z, s).hist == z.hist
  {}

  lemma ApplyTurn(p: Props, z: Lz, s: Symbol, n: nat)
    requires ValidLz(p, z) && Allowed(p, z, s) && (s.Match? || s.Rep?) && 1 <= n <= SymbolSize(s)
    ensures Turn(z, s).rep0 < |z.hist|
    ensures Apply(p, z, s, n) == Turn(z, s).(hist := Copy(z.hist, Turn(z, s).rep0, n))
  {}

  // ----- Decoder on whole streams -----------------------------------------------------

  // Between symbols: rem is what the output limit cut off the last match, done is set by
  // the end marker, and the range is normalised.
  datatype St = St(d: Dec, z: Lz, rem: nat, done: bool)

  datatype Outcome =
    | Stopped(s: St)   // at the output limit, or at the end marker
    | Starved(s: St)   // the next symbol is not complete in the input
    | Failed           // the next symbol is not allowed

  predicate ValidSt(p: Props, s: St) {
    ValidLz(p, s.z) && TOP <= s.d.range < WORD && s.d.code < WORD
  }

  function Step(p: Props, limit: nat, inp: seq<Byte>, s: St): (r: Outcome)
    requires ValidLz(p, s.z) && |s.z.hist| < limit
    ensures r.Stopped? && !r.s.done ==> |s.z.hist| < |r.s.z.hist| <= limit
    ensures r.Stopped? ==> ValidLz(p, r.s.z)
  {
    var (sym, d') := ParseSymbol(inp, s.d, ViewOf(p, s.z));
    var d := Normalize(inp, d');
    if d.pos > |inp| then Starved(s)
    else if IsEndMark(sym) then Stopped(St(d, s.z, s.rem, true))
    else if !Allowed(p, s.z, sym) then Failed
    else
      var size := SymbolSize(sym);
      var n := if size <= limit - |s.z.hist| then size else limit - |s.z.hist|;
      Stopped(St(d, Apply(p, s.z, sym, n), size - n, false))
  }

  // All the symbols the input holds, up to the limit.
  function Run(p: Props, limit: nat, inp: seq<Byte>, s: St): Outcome
    requires ValidLz(p, s.z) && |s.z.hist| <= limit
    decreases limit - |s.z.hist|
  {
    if s.done || |s.z.hist| == limit then Stopped(s)
    else
      match Step(p, limit, inp, s)
      case Stopped(s') => if s'.done then Stopped(s') else Run(p, limit, inp, s')
      case other => other
  }

  // ----- Encoder on whole streams -----------------------------------------------------

  // A parse of data from position |z.hist|: each symbol is well formed, allowed, and
  // produces exactly the next bytes.
  predicate ParseOf(p: Props, z: Lz, syms: seq<Symbol>, data: seq<Byte>)
    requires ValidLz(p, z)
    decreases |syms|
  {
    if syms == [] then z.hist == data
    else
      && WellFormed(syms[0]) && !IsEndMark(syms[0]) && Allowed(p, z, syms[0])
      && ParseOf(p, Apply(p, z, syms[0], SymbolSize(syms[0])), syms[1..], data)
  }

  function StreamBits(p: Props, z: Lz, syms: seq<Symbol>, data: seq<Byte>): seq<Decision>
    requires ValidLz(p, z) && ParseOf(p, z, syms, data)
    decreases |syms|
  {
    if syms == [] then []
    else
      SymbolBits(ViewOf(p, z), syms[0]) +
      StreamBits(p, Apply(p, z, syms[0], SymbolSize(syms[0])), syms[1..], data)
  }

  function Finish(p: Props, z: Lz, syms: seq<Symbol>, data: seq<Byte>): Lz
    requires ValidLz(p, z) && ParseOf(p, z, syms, data)
    decreases |syms|
  {
    if syms == [] then z else Finish(p, Apply(p, z, syms[0], SymbolSize(syms[0])), syms[1..], data)
  }

  lemma {:induction false} FinishHist(p: Props, z: Lz, syms: seq<Symbol>, data: seq<Byte>)
    requires ValidLz(p, z) && ParseOf(p, z, syms, data)
    ensures ValidLz(p, Finish(p, z, syms, data)) && Finish(p, z, syms, data).hist == data
    ensures |z.hist| <= |data|
    decreases |syms|
  {
    if syms != [] {
      FinishHist(p, Apply(p, z, syms[0], SymbolSize(syms[0])), syms[1..], data);
    }
  }

  // Everything the encoder sends: the symbols, then the end marker if wanted.
  function AllBits(p: Props, syms: seq<Symbol>, data: seq<Byte>, mark: bool): seq<Decision>
    requires ValidProps(p) && ParseOf(p, LZ_START, syms, data)
  {
    StreamBits(p, LZ_START, syms, data) +
    if mark then SymbolBits(ViewOf(p, Finish(p, LZ_START, syms, data)), Match(MAX_DIST, 0)) else []
  }

  // ----- Round trip --------------------------------------------------------------------

  // One symbol: if its decisions are next in the input, Step performs it.
  lemma StepReads(p: Props, limit: nat, inp: seq<Byte>, s: St, sym: Symbol)
    requires ValidSt(p, s) && |s.z.hist| < limit && WellFormed(sym)
    requires After(inp, s.d, SymbolBits(ViewOf(p, s.z), sym)).Some?
    requires Normalize(inp, After(inp, s.d, SymbolBits(ViewOf(p, s.z), sym)).value).pos <= |inp|
    requires IsEndMark(sym) || (Allowed(p, s.z, sym) && |s.z.hist| + SymbolSize(sym) <= limit)
    ensures var d := Normalize(inp, After(inp, s.d, SymbolBits(ViewOf(p, s.z), sym)).value);
      Step(p, limit, inp, s) == Stopped(
        if IsEndMark(sym) then St(d, s.z, s.rem, true)
        else St(d, Apply(p, s.z, sym, SymbolSize(sym)), 0, false))
  {
    hide SymbolBits, ParseSymbol, After, Normalize, ViewOf;
    SymbolParses(inp, s.d, ViewOf(p, s.z), sym);
  }

  // After ignores whether the state it starts from has been normalised.
  lemma AfterNormalized(inp: seq<Byte>, d: Dec, xs: seq<Decision>)
    requires d.range > 0x10000 && xs != []
    ensures After(inp, Normalize(inp, d), xs) == After(inp, d, xs)
  {
    DecodeNormalized(inp, d, xs[0]);
  }

  lemma {:induction false} PosGrows(inp: seq<Byte>, d: Dec, xs: seq<Decision>)
    requires 0x10000 < d.range < WORD && After(inp, d, xs).Some?
    ensures 0x10000 < After(inp, d, xs).value.range < WORD
    ensures Normalize(inp, d).pos <= Normalize(inp, After(inp, d, xs).value).pos
    decreases |xs|
  {
    if xs != [] {
      DecodeNormalized(inp, d, xs[0]);
      DecodeOneCost(inp, Normalize(inp, d), xs[0]);
      PosGrows(inp, DecodeOne(inp, d, xs[0]).1, xs[1..]);
    }
  }

  lemma NormalizedIsValid(inp: seq<Byte>, d: Dec, xs: seq<Decision>)
    requires TOP <= d.range < WORD && d.code < WORD && After(inp, d, xs).Some?
    ensures var n := Normalize(inp, After(inp, d, xs).value);
      TOP <= n.range < WORD && n.code < WORD
  {
    PosGrows(inp, d, xs);
    CodeIsWord(inp, d, xs);
  }

  lemma {:induction false} CodeIsWord(inp: seq<Byte>, d: Dec, xs: seq<Decision>)
    requires d.code < WORD && After(inp, d, xs).Some?
    ensures After(inp, d, xs).value.code < WORD
    decreases |xs|
  {
    if xs != [] {
      assert Normalize(inp, d).code < WORD;
      CodeIsWord(inp, DecodeOne(inp, d, xs[0]).1, xs[1..]);
    }
  }

  function MarkBits(p: Props, z: Lz, mark: bool): seq<Decision> {
    if mark then SymbolBits(ViewOf(p, z), Match(MAX_DIST, 0)) else []
  }

  // If the decisions of a whole parse are next in the input, Run performs them all.
  lemma {:induction false} RunReads(p: Props, limit: nat, inp: seq<Byte>, s: St, syms: seq<Symbol>,
                                    data: seq<Byte>, mark: bool, e: Dec)
    requires ValidSt(p, s) && !s.done && s.rem == 0 && ParseOf(p, s.z, syms, data)
    requires if mark then |data| < limit else |data| == limit
    requires After(inp, s.d, StreamBits(p, s.z, syms, data) + MarkBits(p, Finish(p, s.z, syms, data), mark)) == Some(e)
    requires Normalize(inp, e).pos <= |inp|
    ensures |s.z.hist| <= limit
    ensures Run(p, limit, inp, s) == Stopped(St(Normalize(inp, e), Finish(p, s.z, syms, data), 0, mark))
    decreases |syms|
  {
    hide SymbolBits, ViewOf, After, Normalize, Step, Apply;
    FinishHist(p, s.z, syms, data);
    var z' := Finish(p, s.z, syms, data);
    if syms == [] {
      assert StreamBits(p, s.z, syms, data) + MarkBits(p, z', mark) == MarkBits(p, z', mark);
      RunEnds(p, limit, inp, s, mark, e);
    } else {
      var bits := SymbolBits(ViewOf(p, s.z), syms[0]);
      var z1 := Apply(p, s.z, syms[0], SymbolSize(syms[0]));
      var rest := StreamBits(p, z1, syms[1..], data) + MarkBits(p, z', mark);
      assert StreamBits(p, s.z, syms, data) + MarkBits(p, z', mark) == bits + rest;
      AfterConcat(inp, s.d, bits, rest);
      var d1 := After(inp, s.d, bits).value;
      FinishHist(p, z1, syms[1..], data);
      RunOne(p, limit, inp, s, syms[0], rest, e);
      RunReads(p, limit, inp, St(Normalize(inp, d1), z1, 0, false), syms[1..], data, mark,
               if rest == [] then Normalize(inp, d1) else e);
    }
  }

  lemma RunEnds(p: Props, limit: nat, inp: seq<Byte>, s: St, mark: bool, e: Dec)
    requires ValidSt(p, s) && !s.done && s.rem == 0
    requires if mark then |s.z.hist| < limit else |s.z.hist| == limit
    requires After(inp, s.d, MarkBits(p, s.z, mark)) == Some(e) && Normalize(inp, e).pos <= |inp|
    ensures Run(p, limit, inp, s) == Stopped(St(Normalize(inp, e), s.z, 0, mark))
  {
    hide SymbolBits, ViewOf;
    if mark {
      hide After, Normalize, Step;
      StepReads(p, limit, inp, s, Match(MAX_DIST, 0));
    }
  }

  lemma RunOne(p: Props, limit: nat, inp: seq<Byte>, s: St, sym: Symbol, rest: seq<Decision>, e: Dec)
    requires ValidSt(p, s) && !s.done && s.rem == 0 && WellFormed(sym) && !IsEndMark(sym)
    requires Allowed(p, s.z, sym) && |s.z.hist| + SymbolSize(sym) <= limit
    requires After(inp, s.d, SymbolBits(ViewOf(p, s.z), sym)).Some?
    requires After(inp, After(inp, s.d, SymbolBits(ViewOf(p, s.z), sym)).value, rest) == Some(e)
    requires Normalize(inp, e).pos <= |inp|
    ensures var n := Normalize(inp, After(inp, s.d, SymbolBits(ViewOf(p, s.z), sym)).value);
      var s1 := St(n, Apply(p, s.z, sym, SymbolSize(sym)), 0, false);
      && ValidSt(p, s1) && |s1.z.hist| <= limit && Run(p, limit, inp, s) == Run(p, limit, inp, s1)
      && var e' := if rest == [] then n else e;
         After(inp, n, rest) == Some(e') && Normalize(inp, e') == Normalize(inp, e)
  {
    hide SymbolBits, ViewOf;
    var bits := SymbolBits(ViewOf(p, s.z), sym);
    var d1 := After(inp, s.d, bits).value;
    NormalizedIsValid(inp, s.d, bits);
    PosGrows(inp, s.d, bits);
    PosGrows(inp, d1, rest);
    StepReads(p, limit, inp, s, sym);
    if rest != [] { AfterNormalized(inp, d1, rest); }
    hide After, Normalize, Step;
  }

  // What the encoder leaves behind: the interval's low end, written out in full.
  ghost predicate Flushed(e: Enc, out: seq<Byte>) {
    |out| == e.c.shifts + 5 && BigEndian(out) == e.c.low
  }

  // The coder state both sides start from.
  function EncStart(probs: Probs): Enc { Enc(START, probs) }

  function Word(a: nat, b: nat, c: nat, d: nat): nat {
    a * 0x100_0000 + b * 0x1_0000 + c * 0x100 + d
  }

  function DecStart(inp: seq<Byte>, probs: Probs): Dec
    requires |inp| >= 5
  {
    Dec(0xFFFF_FFFF, Word(inp[1], inp[2], inp[3], inp[4]), 5, probs)
  }

  lemma FlushedSync(probs: Probs, xs: seq<Decision>, out: seq<Byte>)
    requires Flushed(EncodeAll(EncStart(probs), xs), out)
    ensures out[0] == 0
    ensures Sync(out, EncStart(probs), DecStart(out, probs))
    ensures Contains(out, EncodeAll(EncStart(probs), xs).c)
  {
    var e := EncStart(probs);
    AllReady(e, xs);
    assert out[..|out|] == out;
    ContainsStart(out, e, xs);
    FirstWord(out[..5]);
  }

  lemma {:induction false} AllReady(e: Enc, xs: seq<Decision>)
    requires Ready(e.c)
    ensures Ready(EncodeAll(e, xs).c) && EncodeAll(e, xs).c.shifts >= e.c.shifts
    decreases |xs|
  {
    if xs != [] {
      EncodeOneReady(e, xs[0]);
      AllReady(EncodeOne(e, xs[0]), xs[1..]);
    }
  }

  lemma FirstWord(s: seq<Byte>)
    requires |s| == 5
    ensures BigEndian(s) == 0x1_0000_0000 * s[0] as int + Word(s[1], s[2], s[3], s[4])
  {
    assert s[..4][..3] == s[..3] && s[..3][..2] == s[..2] && s[..2][..1] == s[..1] && s[..1][..0] == [];
    assert BigEndian(s[..1]) == Word(0, 0, 0, s[0]);
    assert BigEndian(s[..2]) == Word(0, 0, s[0], s[1]);
    assert BigEndian(s[..3]) == Word(0, s[0], s[1], s[2]);
    assert BigEndian(s[..4]) == Word(s[0], s[1], s[2], s[3]);
  }

  // Main result: for every lc/lp/pb and every valid parse of the data, decoding what the
  // encoder wrote gives the data, the same distances and state, the same probabilities,
  // a code of 0, and every byte consumed.
  lemma RoundTrip(p: Props, syms: seq<Symbol>, data: seq<Byte>, mark: bool, limit: nat, probs: Probs,
                  out: seq<Byte>)
    requires ValidProps(p) && ParseOf(p, LZ_START, syms, data)
    requires if mark then |data| < limit else |data| == limit
    requires Flushed(EncodeAll(EncStart(probs), AllBits(p, syms, data, mark)), out)
    ensures out[0] == 0
    ensures Run(p, limit, out, St(DecStart(out, probs), LZ_START, 0, false)).Stopped?
    ensures var s := Run(p, limit, out, St(DecStart(out, probs), LZ_START, 0, false)).s;
      && s.z == Finish(p, LZ_START, syms, data) && s.z.hist == data
      && s.rem == 0 && s.done == mark
      && s.d.probs == EncodeAll(EncStart(probs), AllBits(p, syms, data, mark)).probs
      && s.d.code == 0 && s.d.pos == |out|
  {
    var xs := AllBits(p, syms, data, mark);
    var e := EncStart(probs);
    var d := DecStart(out, probs);
    FlushedSync(probs, xs, out);
    DecodeAll(out, e, d, xs);
    var d' := After(out, d, xs).value;
    assert out[..|out|] == out;
    assert Normalize(out, d').code == 0 && Normalize(out, d').pos == |out|;
    FinishHist(p, LZ_START, syms, data);
    RunReads(p, limit, out, St(d, LZ_START, 0, false), syms, data, mark, d');
  }
}
