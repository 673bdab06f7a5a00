// Decoding a stream that arrives in pieces: what is decided on a prefix stays decided, and
// a match cut at a dictionary boundary is completed later with the same result.

module LzmaStream {
  import opened RangeCoder
  import opened RangeBudget
  import opened LzmaSymbols
  import opened LzmaModel
  import opened RangeDecoder
  import opened Words

  // ----- More input does not change what has been read ---------------------------------

  lemma {:induction false} AfterExtends(a: seq<Byte>, b: seq<Byte>, d: Dec, xs: seq<Decision>)
    requires Wide(d) && After(a, d, xs).Some? && Normalize(a, After(a, d, xs).value).pos <= |a|
    ensures After(a + b, d, xs) == After(a, d, xs)
    ensures Normalize(a + b, After(a, d, xs).value) == Normalize(a, After(a, d, xs).value)
    decreases |xs|
  {
    if xs != [] {
      PosGrows(a, d, xs);
      var d1 := DecodeOne(a, d, xs[0]).1;
      assert Normalize(a + b, d) == Normalize(a, d);
      assert DecodeOne(a + b, d, xs[0]) == DecodeOne(a, d, xs[0]);
      OneWide(a, d, xs[0]);
      AfterExtends(a, b, d1, xs[1..]);
    }
  }

  lemma OneWide(inp: seq<Byte>, d: Dec, x: Decision)
    requires Wide(d)
    ensures Wide(DecodeOne(inp, d, x).1)
  {
    DecodeOneCost(inp, d, x);
    assert Normalize(inp, d).code < WORD;
  }

  lemma SymbolExtends(a: seq<Byte>, b: seq<Byte>, d: Dec, v: View)
    requires Wide(d) && Normalize(a, ParseSymbol(a, d, v).1).pos <= |a|
    ensures ParseSymbol(a + b, d, v) == ParseSymbol(a, d, v)
    ensures Normalize(a + b, ParseSymbol(a, d, v).1) == Normalize(a, ParseSymbol(a, d, v).1)
  {
    hide ParseSymbol, SymbolBits, After, Normalize;
    var (s, d') := ParseSymbol(a, d, v);
    ParsedWellFormed(a, d, v);
    SymbolParses(a, d, v, s);
    AfterExtends(a, b, d, SymbolBits(v, s));
    SymbolParses(a + b, d, v, s);
  }

  lemma StepExtends(p: Props, limit: nat, a: seq<Byte>, b: seq<Byte>, s: St)
    requires ValidLz(p, s.z) && Wide(s.d) && |s.z.hist| < limit
    ensures !Step(p, limit, a, s).Starved? ==> Step(p, limit, a + b, s) == Step(p, limit, a, s)
    ensures Step(p, limit, a, s).Stopped? ==> Wide(Step(p, limit, a, s).s.d)
  {
    hide ParseSymbol, ViewOf, Normalize, Apply;
    var v := ViewOf(p, s.z);
    var (sym, d') := ParseSymbol(a, s.d, v);
    SymbolShape(a, s.d, v);
    NormalWide(a, d');
    if Normalize(a, d').pos <= |a| {
      SymbolExtends(a, b, s.d, v);
    }
  }

  lemma NormalWide(inp: seq<Byte>, d: Dec)
    requires Wide(d)
    ensures Wide(Normalize(inp, d)) && Normalize(inp, d).range >= TOP
    ensures Normalize(inp, Normalize(inp, d)) == Normalize(inp, d)
  {}

  lemma {:induction false} RunExtends(p: Props, limit: nat, a: seq<Byte>, b: seq<Byte>, s: St)
    requires ValidLz(p, s.z) && Wide(s.d) && |s.z.hist| <= limit
    ensures var r := Run(p, limit, a, s);
      if r.Starved? then
        && ValidLz(p, r.s.z) && Wide(r.s.d) && |r.s.z.hist| <= limit
        && Run(p, limit, a + b, s) == Run(p, limit, a + b, r.s)
      else Run(p, limit, a + b, s) == r
    decreases limit - |s.z.hist|
  {
    hide Step;
    if !s.done && |s.z.hist| < limit {
      StepExtends(p, limit, a, b, s);
      var r := Step(p, limit, a, s);
      if r.Starved? { StarvedSame(p, limit, a, s); }
      if r.Stopped? && !r.s.done {
        RunExtends(p, limit, a, b, r.s);
      }
    }
  }

  lemma StarvedSame(p: Props, limit: nat, inp: seq<Byte>, s: St)
    requires ValidLz(p, s.z) && |s.z.hist| < limit && Step(p, limit, inp, s).Starved?
    ensures Step(p, limit, inp, s) == Starved(s)
  {}

  // ----- Matches written in two parts ----------------------------------------------------

  lemma {:induction false} CopyAdd(hist: seq<Byte>, dist: nat, m: nat, n: nat)
    requires dist < |hist|
    ensures Copy(Copy(hist, dist, m), dist, n) == Copy(hist, dist, m + n)
    decreases m
  {
    if m > 0 { CopyAdd(hist + [Back(hist, dist)], dist, m - 1, n); }
  }

  // The state with the rest of its last match written out, as far as the limit allows.
  function Complete(limit: nat, s: St): St
    requires s.rem > 0 ==> s.z.rep0 < |s.z.hist|
  {
    if s.rem == 0 || |s.z.hist| >= limit then s
    else
      var room := limit - |s.z.hist|;
      var n := if s.rem <= room then s.rem else room;
      s.(z := s.z.(hist := Copy(s.z.hist, s.z.rep0, n)), rem := s.rem - n)
  }

  // A step up to a nearer limit, completed, is a step up to the limit.
  lemma StepInParts(p: Props, near: nat, limit: nat, inp: seq<Byte>, s: St)
    requires ValidLz(p, s.z) && |s.z.hist| < near <= limit && s.rem == 0
    ensures var r := Step(p, near, inp, s);
      if r.Stopped? then
        && (r.s.rem > 0 ==> r.s.z.rep0 < |r.s.z.hist| == near)
        && ValidLz(p, Complete(limit, r.s).z)
        && Step(p, limit, inp, s) == Stopped(Complete(limit, r.s))
      else Step(p, limit, inp, s) == r
  {
    hide ParseSymbol, ViewOf, Normalize, Turn, Copy;
    var (sym, d') := ParseSymbol(inp, s.d, ViewOf(p, s.z));
    if !IsEndMark(sym) && Allowed(p, s.z, sym) && Normalize(inp, d').pos <= |inp| {
      var size := SymbolSize(sym);
      var n := if size <= near - |s.z.hist| then size else near - |s.z.hist|;
      var m := if size <= limit - |s.z.hist| then size else limit - |s.z.hist|;
      if n < size {
        TurnReach(p, s.z, sym);
        CopyAdd(s.z.hist, Turn(s.z, sym).rep0, n, m - n);
      }
    }
  }

  // ----- Lazy normalisation ----------------------------------------------------------------

  function Norm(inp: seq<Byte>, s: St): St { s.(d := Normalize(inp, s.d)) }

  lemma StepNorm(p: Props, limit: nat, inp: seq<Byte>, s: St)
    requires ValidLz(p, s.z) && Wide(s.d) && |s.z.hist| < limit
    ensures if Step(p, limit, inp, s).Starved? then Step(p, limit, inp, Norm(inp, s)) == Starved(Norm(inp, s))
            else Step(p, limit, inp, Norm(inp, s)) == Step(p, limit, inp, s)
  {
    hide Normalize, DecodeModel, ViewOf, Apply, ParseLiteral, ParseMatch, ParseRep;
    DecodeNormalized(inp, s.d, Model(IS_MATCH + s.z.state * 16 + ViewOf(p, s.z).posState, 0));
    ViewIs(p, s.z);
    assert ParseSymbol(inp, Normalize(inp, s.d), ViewOf(p, s.z)) == ParseSymbol(inp, s.d, ViewOf(p, s.z));
  }

  // Run, seen from a state that is not normalised and a step up to a nearer limit.
  lemma RunByPart(p: Props, near: nat, limit: nat, inp: seq<Byte>, s: St)
    requires ValidLz(p, s.z) && Wide(s.d) && |s.z.hist| < near <= limit && s.rem == 0 && !s.done
    requires !Step(p, near, inp, s).Starved?
    ensures var r := Step(p, near, inp, s);
      if r.Failed? then Run(p, limit, inp, Norm(inp, s)) == Failed
      else
        && (r.s.rem > 0 ==> r.s.z.rep0 < |r.s.z.hist| == near)
        && (r.s.done ==> |r.s.z.hist| < near && r.s.rem == 0)
        && |r.s.z.hist| <= near && ValidLz(p, Complete(limit, r.s).z)
        && |Complete(limit, r.s).z.hist| <= limit
        && Run(p, limit, inp, Norm(inp, s)) == Run(p, limit, inp, Complete(limit, r.s))
  {
    hide Normalize, Step, Copy;
    StepInParts(p, near, limit, inp, s);
    StepNorm(p, limit, inp, s);
    StepDone(p, near, inp, s);
  }

  lemma StepDone(p: Props, limit: nat, inp: seq<Byte>, s: St)
    requires ValidLz(p, s.z) && |s.z.hist| < limit
    ensures var r := Step(p, limit, inp, s);
      r.Stopped? && r.s.done ==> r.s.z == s.z && r.s.rem == s.rem
  {}

  // ----- A symbol that was not complete ends beyond the input it was tried on ---------------

  lemma {:induction false} AfterShrinks(a: seq<Byte>, b: seq<Byte>, d: Dec, xs: seq<Decision>)
    requires Wide(d) && After(a + b, d, xs).Some? && Normalize(a + b, After(a + b, d, xs).value).pos <= |a|
    ensures After(a, d, xs) == After(a + b, d, xs)
    ensures Normalize(a, After(a, d, xs).value) == Normalize(a + b, After(a, d, xs).value)
    decreases |xs|
  {
    if xs != [] {
      PosGrows(a + b, d, xs);
      var d1 := DecodeOne(a + b, d, xs[0]).1;
      assert Normalize(a, d) == Normalize(a + b, d);
      assert DecodeOne(a, d, xs[0]) == DecodeOne(a + b, d, xs[0]);
      OneWide(a + b, d, xs[0]);
      AfterShrinks(a, b, d1, xs[1..]);
    }
  }

  lemma StarvedEnds(a: seq<Byte>, b: seq<Byte>, d: Dec, v: View)
    requires Wide(d) && Normalize(a, ParseSymbol(a, d, v).1).pos > |a|
    ensures Normalize(a + b, ParseSymbol(a + b, d, v).1).pos > |a|
  {
    hide ParseSymbol, SymbolBits, After, Normalize;
    var (s, d') := ParseSymbol(a + b, d, v);
    if Normalize(a + b, d').pos <= |a| {
      ParsedWellFormed(a + b, d, v);
      SymbolParses(a + b, d, v, s);
      AfterShrinks(a, b, d, SymbolBits(v, s));
      SymbolParses(a, d, v, s);
    }
  }

  // Run performs at least the next step, so it ends no earlier.
  lemma {:induction false} RunForward(p: Props, limit: nat, inp: seq<Byte>, s: St)
    requires ValidLz(p, s.z) && Wide(s.d) && s.d.range >= TOP && |s.z.hist| <= limit
    ensures Run(p, limit, inp, s).Stopped? ==> Run(p, limit, inp, s).s.d.pos >= s.d.pos
    decreases limit - |s.z.hist|
  {
    if !s.done && |s.z.hist| < limit {
      StepForward(p, limit, inp, s);
      hide Step;
      var r := Step(p, limit, inp, s);
      if r.Stopped? && !r.s.done {
        RunForward(p, limit, inp, r.s);
      }
    }
  }

  lemma StepForward(p: Props, limit: nat, inp: seq<Byte>, s: St)
    requires ValidLz(p, s.z) && Wide(s.d) && s.d.range >= TOP && |s.z.hist| < limit
    ensures var r := Step(p, limit, inp, s);
      r.Stopped? ==> r.s.d.pos >= s.d.pos && Wide(r.s.d) && r.s.d.range >= TOP
  {
    hide ParseSymbol, ViewOf, Apply, DecodeModel;
    var v := ViewOf(p, s.z);
    SymbolShape(inp, s.d, v);
    assert Normalize(inp, s.d) == s.d;
    NormalWide(inp, ParseSymbol(inp, s.d, v).1);
  }

  // ----- Other limits, less input: what Run has done so far is all that matters --------------

  // Run to a near limit, the cut match completed, and on to a farther limit.
  lemma {:induction false} RunGrows(p: Props, near: nat, limit: nat, inp: seq<Byte>, s: St)
    requires ValidLz(p, s.z) && |s.z.hist| <= near <= limit && s.rem == 0 && !s.done
    requires Run(p, near, inp, s).Stopped?
    ensures var r := Run(p, near, inp, s).s;
      && (r.rem > 0 ==> r.z.rep0 < |r.z.hist|)
      && ValidLz(p, Complete(limit, r).z) && |Complete(limit, r).z.hist| <= limit
      && Run(p, limit, inp, s) == Run(p, limit, inp, Complete(limit, r))
    decreases near - |s.z.hist|
  {
    hide Step, Copy, ValidLz;
    if |s.z.hist| < near {
      StepInParts(p, near, limit, inp, s);
      StepDone(p, near, inp, s);
      StepGrows(p, near, inp, s);
      var r := Step(p, near, inp, s);
      if !r.s.done && |r.s.z.hist| < near {
        RunGrows(p, near, limit, inp, r.s);
      }
    }
  }

  lemma StepGrows(p: Props, limit: nat, inp: seq<Byte>, s: St)
    requires ValidLz(p, s.z) && |s.z.hist| < limit
    ensures var r := Step(p, limit, inp, s);
      r.Stopped? && !r.s.done ==> |s.z.hist| < |r.s.z.hist| && (r.s.rem > 0 ==> |r.s.z.hist| == limit)
  {}

  // The nearest limit that leads to state s: one more than its data if the end marker was read.
  function Nearest(s: St): nat { |s.z.hist| + if s.done then 1 else 0 }

  // A run that has ended, for want of room or of input, ends in the same state when the limit
  // is the nearest one.
  lemma {:induction false} RunLowers(p: Props, limit: nat, inp: seq<Byte>, s: St)
    requires ValidLz(p, s.z) && |s.z.hist| <= limit && s.rem == 0 && !s.done
    requires !Run(p, limit, inp, s).Failed?
    ensures var r := Run(p, limit, inp, s);
      && |s.z.hist| <= Nearest(r.s) <= limit && Run(p, Nearest(r.s), inp, s) == Stopped(r.s)
      && (r.Starved? ==> r.s.rem == 0 && !r.s.done && |r.s.z.hist| < limit)
      && (r.Stopped? && !r.s.done ==> |r.s.z.hist| == limit) && (r.s.done ==> r.s.rem == 0)
    decreases limit - |s.z.hist|
  {
    hide Step;
    if |s.z.hist| < limit {
      var r := Step(p, limit, inp, s);
      StepGrows(p, limit, inp, s);
      StepDone(p, limit, inp, s);
      if r.Starved? {
        StarvedSame(p, limit, inp, s);
      } else if r.s.done || |r.s.z.hist| == limit {
        if r.s.done { StepNearer(p, |s.z.hist| + 1, limit, inp, s); }
      } else {
        RunLowers(p, limit, inp, r.s);
        StepNearer(p, Nearest(Run(p, limit, inp, r.s).s), limit, inp, s);
      }
    }
  }

  lemma StepNearer(p: Props, near: nat, limit: nat, inp: seq<Byte>, s: St)
    requires ValidLz(p, s.z) && |s.z.hist| < near <= limit
    requires Step(p, limit, inp, s).Stopped? && |Step(p, limit, inp, s).s.z.hist| <= near
    ensures Step(p, near, inp, s) == Step(p, limit, inp, s)
  {
    hide ParseSymbol, ViewOf, Normalize, Turn, Copy;
  }

  // What a farther limit cannot change: a symbol that is missing or not allowed, the end marker.
  lemma StepSame(p: Props, near: nat, limit: nat, inp: seq<Byte>, s: St)
    requires ValidLz(p, s.z) && |s.z.hist| < near <= limit
    requires var r := Step(p, near, inp, s); r.Stopped? ==> r.s.done || |r.s.z.hist| < near
    ensures Step(p, limit, inp, s) == Step(p, near, inp, s)
  {
    hide ParseSymbol, ViewOf, Normalize, Turn, Copy;
  }

  lemma {:induction false} RunSettled(p: Props, near: nat, limit: nat, inp: seq<Byte>, s: St)
    requires ValidLz(p, s.z) && |s.z.hist| <= near <= limit
    requires var r := Run(p, near, inp, s); r.Stopped? ==> r.s.done
    ensures Run(p, limit, inp, s) == Run(p, near, inp, s)
    decreases near - |s.z.hist|
  {
    hide Step;
    if !s.done && |s.z.hist| < near {
      var r := Step(p, near, inp, s);
      StepSame(p, near, limit, inp, s);
      if r.Stopped? && !r.s.done { RunSettled(p, near, limit, inp, r.s); }
    }
  }

  lemma StepAppends(p: Props, limit: nat, inp: seq<Byte>, s: St)
    requires ValidLz(p, s.z) && |s.z.hist| < limit && !Step(p, limit, inp, s).Failed?
    ensures s.z.hist <= Step(p, limit, inp, s).s.z.hist
  {
    hide ParseSymbol, ViewOf, Normalize;
  }

  // Decoding only adds to the data.
  lemma {:induction false} RunAppends(p: Props, limit: nat, inp: seq<Byte>, s: St)
    requires ValidLz(p, s.z) && |s.z.hist| <= limit && !Run(p, limit, inp, s).Failed?
    ensures s.z.hist <= Run(p, limit, inp, s).s.z.hist
    decreases limit - |s.z.hist|
  {
    hide Step;
    if !s.done && |s.z.hist| < limit {
      StepAppends(p, limit, inp, s);
      var r := Step(p, limit, inp, s);
      if r.Stopped? && !r.s.done { RunAppends(p, limit, inp, r.s); }
    }
  }

  // A run that wants more input does so under any limit that its data do not reach.
  lemma {:induction false} StarvedLower(p: Props, near: nat, limit: nat, inp: seq<Byte>, s: St)
    requires ValidLz(p, s.z) && |s.z.hist| <= near <= limit && Run(p, limit, inp, s).Starved?
    requires |Run(p, limit, inp, s).s.z.hist| < near
    ensures Run(p, near, inp, s) == Run(p, limit, inp, s)
    decreases limit - |s.z.hist|
  {
    hide Step;
    if !s.done && |s.z.hist| < limit {
      RunAppends(p, limit, inp, s);
      var r := Step(p, limit, inp, s);
      if r.Stopped? && !r.s.done {
        RunAppends(p, limit, inp, r.s);
        StepNearer(p, near, limit, inp, s);
        StarvedLower(p, near, limit, inp, r.s);
      } else if r.Starved? {
        StarvedAnyLimit(p, near, limit, inp, s);
        StarvedSame(p, near, inp, s);
        StarvedSame(p, limit, inp, s);
      }
    }
  }

  lemma StarvedAnyLimit(p: Props, near: nat, limit: nat, inp: seq<Byte>, s: St)
    requires ValidLz(p, s.z) && |s.z.hist| < near && |s.z.hist| < limit
    ensures Step(p, near, inp, s).Starved? <==> Step(p, limit, inp, s).Starved?
  {}

  lemma RunStarved(p: Props, limit: nat, inp: seq<Byte>, s: St)
    requires ValidLz(p, s.z) && |s.z.hist| < limit && !s.done && Step(p, limit, inp, s) == Starved(s)
    ensures Run(p, limit, inp, s) == Starved(s)
  {}

  lemma RunDone(p: Props, limit: nat, inp: seq<Byte>, s: St)
    requires ValidLz(p, s.z) && |s.z.hist| <= limit && (s.done || |s.z.hist| == limit)
    ensures Run(p, limit, inp, s) == Stopped(s)
  {}

  lemma StepShrinks(p: Props, limit: nat, a: seq<Byte>, b: seq<Byte>, s: St)
    requires ValidLz(p, s.z) && Wide(s.d) && |s.z.hist| < limit
    requires Step(p, limit, a + b, s).Stopped? && Step(p, limit, a + b, s).s.d.pos <= |a|
    ensures Step(p, limit, a, s) == Step(p, limit, a + b, s)
  {
    hide ParseSymbol, SymbolBits, After, ViewOf, Normalize, Apply;
    var v := ViewOf(p, s.z);
    var (sym, d') := ParseSymbol(a + b, s.d, v);
    ParsedWellFormed(a + b, s.d, v);
    SymbolParses(a + b, s.d, v, sym);
    AfterShrinks(a, b, s.d, SymbolBits(v, sym));
    SymbolParses(a, s.d, v, sym);
  }

  // Input beyond the place where a run stopped does not matter.
  lemma {:induction false} RunShrinks(p: Props, limit: nat, a: seq<Byte>, b: seq<Byte>, s: St)
    requires ValidLz(p, s.z) && Wide(s.d) && s.d.range >= TOP && |s.z.hist| <= limit
    requires Run(p, limit, a + b, s).Stopped? && Run(p, limit, a + b, s).s.d.pos <= |a|
    ensures Run(p, limit, a, s) == Run(p, limit, a + b, s)
    decreases limit - |s.z.hist|
  {
    hide Step;
    if !s.done && |s.z.hist| < limit {
      StepForward(p, limit, a + b, s);
      var r := Step(p, limit, a + b, s);
      if !r.s.done { RunForward(p, limit, a + b, r.s); }
      StepShrinks(p, limit, a, b, s);
      if !r.s.done { RunShrinks(p, limit, a, b, r.s); }
    }
  }

  // A step that needs more input than it has still does so, whatever more comes, before it ends.
  lemma StarvedStep(p: Props, limit: nat, a: seq<Byte>, b: seq<Byte>, s: St)
    requires ValidLz(p, s.z) && Wide(s.d) && |s.z.hist| < limit && Step(p, limit, a, s).Starved?
    ensures Normalize(a + b, ParseSymbol(a + b, s.d, ViewOf(p, s.z)).1).pos > |a|
  {
    hide ParseSymbol, ViewOf, Normalize, Apply;
    StarvedEnds(a, b, s.d, ViewOf(p, s.z));
  }

  // Going on with a farther limit and more input from a state that was left.
  lemma Resume(p: Props, limit: nat, a: seq<Byte>, b: seq<Byte>, s0: St, s: St)
    requires ValidLz(p, s0.z) && Wide(s0.d) && s0.rem == 0 && !s0.done
    requires |s0.z.hist| <= Nearest(s) <= limit && Run(p, Nearest(s), a, s0) == Stopped(s)
    ensures s.rem > 0 ==> s.z.rep0 < |s.z.hist|
    ensures ValidLz(p, Complete(limit, s).z) && |Complete(limit, s).z.hist| <= limit
    ensures Run(p, limit, a + b, s0) == Run(p, limit, a + b, Complete(limit, s))
  {
    hide Run, Step, Complete;
    RunExtends(p, Nearest(s), a, b, s0);
    RunGrows(p, Nearest(s), limit, a + b, s0);
  }

  // Leaving a state, with the first k bytes of the input taken.
  lemma Leave(p: Props, limit: nat, full: seq<Byte>, k: nat, s0: St)
    requires ValidLz(p, s0.z) && Wide(s0.d) && s0.d.range >= TOP && s0.rem == 0 && !s0.done
    requires |s0.z.hist| <= limit && !Run(p, limit, full, s0).Failed?
    requires var r := Run(p, limit, full, s0); r.s.d.pos <= k <= |full| && (r.Starved? ==> k == |full|)
    ensures var s := Run(p, limit, full, s0).s;
      |s0.z.hist| <= Nearest(s) && Run(p, Nearest(s), full[..k], s0) == Stopped(s)
  {
    hide Run, Step;
    var s := Run(p, limit, full, s0).s;
    RunLowers(p, limit, full, s0);
    assert full[..k] + full[k..] == full;
    RunShrinks(p, Nearest(s), full[..k], full[k..], s0);
  }

  // If the first input was too short and the whole is not, the run ends beyond the first.
  lemma EndsBeyond(p: Props, limit: nat, a: seq<Byte>, b: seq<Byte>, s: St)
    requires ValidLz(p, s.z) && Wide(s.d) && s.d.range >= TOP && |s.z.hist| <= limit
    requires Run(p, limit, a, s).Starved? && Run(p, limit, a + b, s).Stopped?
    ensures Run(p, limit, a + b, s).s.d.pos > |a|
  {
    hide Run;
    if Run(p, limit, a + b, s).s.d.pos <= |a| {
      RunShrinks(p, limit, a, b, s);
    }
  }

  lemma StartWide(inp: seq<Byte>, probs: Probs)
    requires |inp| >= 5
    ensures Wide(DecStart(inp, probs)) && DecStart(inp, probs).range >= TOP && DecStart(inp, probs).pos == 5
    ensures forall b: seq<Byte> :: DecStart(inp + b, probs) == DecStart(inp, probs)
  {}

  // ----- A limit anywhere in the data --------------------------------------------------------

  // How much of the symbol around it a limit cuts off, when the symbols begin at pos.
  function CutOff(syms: seq<Symbol>, pos: nat, limit: nat): nat
    decreases |syms|
  {
    if syms == [] || pos >= limit then 0
    else
      var end := pos + SymbolSize(syms[0]);
      if end > limit then end - limit else CutOff(syms[1..], end, limit)
  }

  lemma StepCuts(p: Props, limit: nat, inp: seq<Byte>, s: St, sym: Symbol)
    requires ValidSt(p, s) && |s.z.hist| < limit < |s.z.hist| + SymbolSize(sym) && WellFormed(sym)
    requires !IsEndMark(sym) && Allowed(p, s.z, sym)
    requires After(inp, s.d, SymbolBits(ViewOf(p, s.z), sym)).Some?
    requires Normalize(inp, After(inp, s.d, SymbolBits(ViewOf(p, s.z), sym)).value).pos <= |inp|
    ensures var r := Step(p, limit, inp, s);
      && r.Stopped? && !r.s.done && r.s.rem == |s.z.hist| + SymbolSize(sym) - limit
      && r.s.z == Apply(p, s.z, sym, limit - |s.z.hist|)
  {
    hide SymbolBits, ParseSymbol, After, Normalize, ViewOf;
    SymbolParses(inp, s.d, ViewOf(p, s.z), sym);
  }

  lemma ApplyBegins(p: Props, z: Lz, sym: Symbol, n: nat)
    requires ValidLz(p, z) && Allowed(p, z, sym) && 1 <= n <= SymbolSize(sym)
    ensures Apply(p, z, sym, n).hist <= Apply(p, z, sym, SymbolSize(sym)).hist
  {
    if !sym.Literal? {
      TurnReach(p, z, sym);
      CopyAdd(z.hist, Turn(z, sym).rep0, n, SymbolSize(sym) - n);
    }
  }

  lemma {:induction false} HistBegins(p: Props, z: Lz, syms: seq<Symbol>, data: seq<Byte>)
    requires ValidLz(p, z) && ParseOf(p, z, syms, data)
    ensures z.hist <= data
    decreases |syms|
  {
    hide Produce;
    if syms != [] {
      HistBegins(p, Apply(p, z, syms[0], SymbolSize(syms[0])), syms[1..], data);
    }
  }

  // A run up to any limit gives the data up to there, and keeps what is cut off a symbol.
  lemma {:induction false} RunCuts(p: Props, limit: nat, inp: seq<Byte>, s: St, syms: seq<Symbol>, data: seq<Byte>,
                                   more: seq<Decision>, e: Dec)
    requires ValidSt(p, s) && !s.done && s.rem == 0 && ParseOf(p, s.z, syms, data) && |s.z.hist| <= limit <= |data|
    requires After(inp, s.d, StreamBits(p, s.z, syms, data) + more) == Some(e) && Normalize(inp, e).pos <= |inp|
    ensures var r := Run(p, limit, inp, s);
      r.Stopped? && !r.s.done && r.s.z.hist == data[..limit] && r.s.rem == CutOff(syms, |s.z.hist|, limit)
    decreases |syms|
  {
    hide SymbolBits, ViewOf, After, Normalize, Step, Apply;
    HistBegins(p, s.z, syms, data);
    if |s.z.hist| < limit {
      var sym, size := syms[0], SymbolSize(syms[0]);
      var bits, z1 := SymbolBits(ViewOf(p, s.z), sym), Apply(p, s.z, sym, size);
      var rest := StreamBits(p, z1, syms[1..], data) + more;
      assert StreamBits(p, s.z, syms, data) + more == bits + rest;
      AfterConcat(inp, s.d, bits, rest);
      var d1 := After(inp, s.d, bits).value;
      HistBegins(p, z1, syms[1..], data);
      if |s.z.hist| + size <= limit {
        RunOne(p, limit, inp, s, sym, rest, e);
        RunCuts(p, limit, inp, St(Normalize(inp, d1), z1, 0, false), syms[1..], data, more,
                if rest == [] then Normalize(inp, d1) else e);
      } else {
        BitsInside(p, inp, s, sym, rest, e);
        StepCuts(p, limit, inp, s, sym);
        ApplyBegins(p, s.z, sym, limit - |s.z.hist|);
      }
    }
  }

  // A symbol that others follow ends inside the input.
  lemma BitsInside(p: Props, inp: seq<Byte>, s: St, sym: Symbol, rest: seq<Decision>, e: Dec)
    requires ValidSt(p, s) && WellFormed(sym) && After(inp, s.d, SymbolBits(ViewOf(p, s.z), sym)).Some?
    requires After(inp, After(inp, s.d, SymbolBits(ViewOf(p, s.z), sym)).value, rest) == Some(e)
    requires Normalize(inp, e).pos <= |inp|
    ensures Normalize(inp, After(inp, s.d, SymbolBits(ViewOf(p, s.z), sym)).value).pos <= |inp|
  {
    hide SymbolBits, ViewOf;
    var bits := SymbolBits(ViewOf(p, s.z), sym);
    PosGrows(inp, s.d, bits);
    PosGrows(inp, After(inp, s.d, bits).value, rest);
  }

  // Main result: what was encoded decodes, up to any limit, to the data up to there.
  lemma RoundTripPart(p: Props, syms: seq<Symbol>, data: seq<Byte>, mark: bool, limit: nat, probs: Probs,
                      out: seq<Byte>)
    requires ValidProps(p) && ParseOf(p, LZ_START, syms, data) && limit <= |data|
    requires Flushed(EncodeAll(EncStart(probs), AllBits(p, syms, data, mark)), out)
    ensures |out| >= 5 && out[0] == 0
    ensures var r := Run(p, limit, out, St(DecStart(out, probs), LZ_START, 0, false));
      r.Stopped? && !r.s.done && r.s.z.hist == data[..limit] && r.s.rem == CutOff(syms, 0, limit)
  {
    hide Run, StreamBits, SymbolBits;
    var xs := AllBits(p, syms, data, mark);
    var e := EncStart(probs);
    var d := DecStart(out, probs);
    FlushedSync(probs, xs, out);
    DecodeAll(out, e, d, xs);
    var d' := After(out, d, xs).value;
    assert out[..|out|] == out;
    assert Normalize(out, d').pos == |out|;
    var more := if mark then SymbolBits(ViewOf(p, Finish(p, LZ_START, syms, data)), Match(MAX_DIST, 0)) else [];
    RunCuts(p, limit, out, St(d, LZ_START, 0, false), syms, data, more, d');
  }
}
