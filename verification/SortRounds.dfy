// One round of the block sort: all groups in turn, the finished ones run together.

module SortRounds {
  import opened Words
  import opened Rotations
  import opened GroupOrder
  import opened GroupWords
  import opened Permutations
  import opened GroupSorting
  import opened KeySorting
  import opened RangeSorting

  // ----- The groups at the start of a round ----------------------------------------------------

  // The least number above v, or top.
  function NextAbove(g: seq<nat>, v: nat, top: nat): (r: nat)
    requires v < top
    ensures v < r <= top
  {
    if g == [] then top else
    var r := NextAbove(g[1..], v, top);
    if v < g[0] < r then g[0] else r
  }

  lemma {:induction false} NextIsLeast(g: seq<nat>, v: nat, top: nat, q: nat)
    requires v < top && q < |g| && g[q] > v
    ensures NextAbove(g, v, top) <= g[q]
  {
    if q > 0 { NextIsLeast(g[1..], v, top, q - 1); }
  }

  lemma {:induction false} NextAfterGap(g: seq<nat>, v: nat, top: nat, b: nat)
    requires v < top && b <= top && forall q: nat :: q < |g| ==> g[q] <= v || g[q] >= b
    ensures b <= NextAbove(g, v, top)
  {
    if g != [] { NextAfterGap(g[1..], v, top, b); }
  }

  predicate Numbers(g: seq<nat>) { forall p :: 0 <= p < |g| ==> g[p] < |g| }

  function Begin(data: seq<Byte>, h: nat, g: seq<nat>): Round
    requires Numbers(g)
  {
    Round(data, h, g, seq(|g|, p requires 0 <= p < |g| => NextAbove(g, g[p], |g|)))
  }

  lemma BeginSound(data: seq<Byte>, h: nat, g: seq<nat>)
    requires Numbers(g) && Ordered(data, g) && Level(data, g, h)
    ensures Sound(Begin(data, h, g), g)
  {
    hide Ordered, Level;
    assert |g| == |data| by { OrderedLength(data, g); }
    var c := Begin(data, h, g);
    forall p: nat, q: nat | p < |g| && q < |g|
      ensures Apart(c, p, q)
    {
      if g[p] < g[q] { NextIsLeast(g, g[p], |g|, q); }
      if g[q] < g[p] { NextIsLeast(g, g[q], |g|, p); }
    }
  }

  lemma OrderedLength(data: seq<Byte>, g: seq<nat>)
    requires Ordered(data, g)
    ensures |g| == |data| && data != []
  {}

  // ----- The state of a round ------------------------------------------------------------------

  ghost predicate Weak(data: seq<Byte>, g: seq<nat>) {
    && data != [] && |g| == |data|
    && forall p: nat, q: nat :: p < |g| && q < |g| && g[p] < g[q] ==> !Less(data, q, p)
  }

  // Numbers from i on are still those of the beginning of the round.
  ghost predicate Untouched(c: Round, g: seq<nat>, i: nat) {
    |g| == |c.start| && forall q: nat :: q < |g| && g[q] >= i ==> c.start[q] == g[q]
  }

  // The groups below i are done: deeper by another h bytes, or in the last round just in order.
  ghost predicate Progress(c: Round, g: seq<nat>, i: nat) {
    && Untouched(c, g, i)
    && if c.h < |c.data| then Sound(c, g) && DeepBelow(c, g, i) else Level(c.data, c.start, c.h) && Weak(c.data, g)
  }

  // A run of finished groups under one size, or nothing.
  ghost predicate Run(s: seq<nat>, g: seq<nat>, a: nat) { s == [] || (Tile(s, false) && Numbered(s, g, a, false)) }

  // The words left of i, a run of f finished places at their end; and those from i on.
  ghost predicate Layout(w: seq<nat>, g: seq<nat>, i: nat, f: nat) {
    && f <= i <= |w| == |g| <= INDEXES && IsPermutation(Raw(w))
    && Tiled(w[..i - f], g, 0) && Run(w[i - f..i], g, i - f) && Tiled(w[i..], g, i)
  }

  ghost predicate InRound(c: Round, w: seq<nat>, g: seq<nat>, i: nat, f: nat, again: bool) {
    && |g| == |c.data| && Layout(w, g, i, f) && Progress(c, g, i) && (!again ==> Numbered(w[..i], g, 0, false))
  }

  lemma RunTiled(s: seq<nat>, g: seq<nat>, a: nat)
    requires Run(s, g, a)
    ensures Tiled(s, g, a)
  {
    if s != [] { TiledOne(s, g, a, false); }
  }

  lemma LeftTiled(w: seq<nat>, g: seq<nat>, i: nat, f: nat)
    requires Layout(w, g, i, f)
    ensures Tiled(w[..i], g, 0)
  {
    hide Tiled, Run, IsPermutation, Raw;
    RunTiled(w[i - f..i], g, i - f);
    TiledConcat(w[..i - f], w[i - f..i], g, 0);
    assert w[..i] == w[..i - f] + w[i - f..i];
  }

  // ----- A group between the others ------------------------------------------------------------

  // The words are l, then the group s without size bits, then r.
  ghost predicate Between(l: seq<nat>, s: seq<nat>, r: seq<nat>, g: seq<nat>, open: bool) {
    && |l| + |s| + |r| == |g| <= INDEXES && s != [] && IsPermutation(Raw(l) + s + Raw(r)) && Plain(s)
    && Tiled(l, g, 0) && Numbered(s, g, |l|, open) && Tiled(r, g, |l| + |s|)
  }

  lemma BetweenOnce(l: seq<nat>, s: seq<nat>, r: seq<nat>, g: seq<nat>, open: bool)
    requires Between(l, s, r, g, open)
    ensures Once(s) && Once(Raw(l) + s + Raw(r)) && Once(Raw(l) + s)
    ensures forall q: nat :: q < |g| ==> q in Raw(l) || q in s || q in Raw(r)
  {
    hide IsPermutation, Once;
    var x := Raw(l) + s + Raw(r);
    PermutationFacts(x);
    OnceParts(Raw(l) + s, Raw(r));
    OnceParts(Raw(l), s);
    forall q: nat | q < |g|
      ensures q in Raw(l) || q in s || q in Raw(r)
    {
      assert q in x;
    }
  }

  // The positions outside the group have numbers outside it.
  lemma BetweenNumbers(l: seq<nat>, s: seq<nat>, r: seq<nat>, g: seq<nat>, open: bool, q: nat)
    requires Between(l, s, r, g, open) && q < |g|
    ensures q in Raw(l) ==> g[q] < |l|
    ensures q in Raw(r) ==> g[q] >= |l| + |s|
    ensures q in Raw(l) || q in s || q in Raw(r)
  {
    hide Tiled, Numbered, IsPermutation, Once;
    BetweenOnce(l, s, r, g, open);
    if q in Raw(l) {
      var k: nat :| k < |l| && Raw(l)[k] == q;
      TiledBounds(l, g, 0, k);
    }
    if q in Raw(r) {
      var k: nat :| k < |r| && Raw(r)[k] == q;
      TiledBounds(r, g, |l| + |s|, k);
    }
  }

  lemma OutsideNumbers(l: seq<nat>, s: seq<nat>, r: seq<nat>, g: seq<nat>, open: bool)
    requires Between(l, s, r, g, open)
    ensures forall q: nat :: q < |g| && q !in s ==> g[q] < |l| || g[q] >= |l| + |s|
    ensures forall k: nat :: k < |s| ==> s[k] < |g| && g[s[k]] == if open then |l| else |l| + k
  {
    hide Tiled, IsPermutation, Once;
    forall q: nat | q < |g| && q !in s
      ensures g[q] < |l| || g[q] >= |l| + |s|
    {
      BetweenNumbers(l, s, r, g, open, q);
    }
  }

  // New numbers for the group leave the words around it tiled.
  lemma AroundTiled(l: seq<nat>, s: seq<nat>, r: seq<nat>, g: seq<nat>, g': seq<nat>, open: bool)
    requires Between(l, s, r, g, open) && |g'| == |g|
    requires forall q: nat :: q < |g| && q !in s ==> g'[q] == g[q]
    ensures Tiled(l, g', 0) && Tiled(r, g', |l| + |s|)
    ensures Numbered(l, g, 0, false) ==> Numbered(l, g', 0, false)
  {
    hide Tiled, IsPermutation, Once;
    BetweenOnce(l, s, r, g, open);
    forall k | 0 <= k < |l|
      ensures IndexOf(l[k]) !in s
    {
      assert Raw(l)[k] in Raw(l);
      if Raw(l)[k] in s { OnceHalves(Raw(l), s, Raw(l)[k]); }
    }
    forall k | 0 <= k < |r|
      ensures IndexOf(r[k]) !in s
    {
      assert Raw(r)[k] in Raw(r);
      if Raw(r)[k] in s { OnceHalves(Raw(l) + s, Raw(r), Raw(r)[k]); }
    }
    TiledFrame(l, g, g', 0);
    TiledFrame(r, g, g', |l| + |s|);
  }

  // An open group waits to be sorted.
  lemma GroupWaits(c: Round, l: seq<nat>, s: seq<nat>, r: seq<nat>, g: seq<nat>)
    requires Between(l, s, r, g, true) && Sound(c, g) && Untouched(c, g, |l|) && |g| == |c.data|
    requires Numbers(c.start) && c == Begin(c.data, c.h, c.start)
    ensures Waiting(c, s, g, |l|) && |c.start| == |c.end| == |c.data| && AllMeet(c, Members(s), 0, |g|)
  {
    hide Tiled, IsPermutation, Once, Ordered, ValidRound, Between;
    Lengths(c, g);
    OutsideNumbers(l, s, r, g, true);
    BetweenOnce(l, s, r, g, true);
    BetweenSize(l, s, r, g, true);
    forall q: nat | q in s
      ensures |l| + |s| <= c.end[q]
    {
      forall p: nat | p < |g|
        ensures c.start[p] <= |l| || c.start[p] >= |l| + |s|
      {
        assert c.start[p] <= g[p];
      }
      NextAfterGap(c.start, |l|, |g|, |l| + |s|);
    }
    forall p: nat | p in s
      ensures Meets(c, p, 0, |g|)
    {
      assert c.start[Ahead(|g|, p, c.h)] < c.end[Ahead(|g|, p, c.h)];
    }
  }

  lemma BetweenSize(l: seq<nat>, s: seq<nat>, r: seq<nat>, g: seq<nat>, open: bool)
    requires Between(l, s, r, g, open)
    ensures 1 <= |s| <= |g| <= INDEXES && |l| + |s| + |r| == |g| && Plain(s)
  {}

  // ----- Progress ------------------------------------------------------------------------------

  lemma UntouchedOn(c: Round, l: seq<nat>, s: seq<nat>, r: seq<nat>, g: seq<nat>, g': seq<nat>, open: bool)
    requires Between(l, s, r, g, open) && Untouched(c, g, |l|) && |g'| == |g|
    requires forall q: nat :: q < |g| ==> if q in s then g'[q] < |l| + |s| else g'[q] == g[q]
    ensures Untouched(c, g', |l| + |s|)
  {}

  lemma FinishedProgress(c: Round, l: seq<nat>, s: seq<nat>, r: seq<nat>, g: seq<nat>)
    requires Between(l, s, r, g, false) && Progress(c, g, |l|) && |g| == |c.data|
    ensures Progress(c, g, |l| + |s|)
  {
    hide Sound, Weak, Level, Between, Key;
    OutsideNumbers(l, s, r, g, false);
    if c.h < |c.data| {
      Lengths(c, g);
      forall p: nat, q: nat | p < |g| && q < |g| && g[p] == g[q] < |l| + |s|
        ensures Key(c, c.start, p) == Key(c, c.start, q)
      {
        if g[p] >= |l| {
          var i: nat :| i < |s| && s[i] == p;
          var j: nat :| j < |s| && s[j] == q;
        }
      }
    }
  }

  lemma SortedProgress(c: Round, l: seq<nat>, s: seq<nat>, r: seq<nat>, g: seq<nat>, s': seq<nat>, g': seq<nat>,
                       more: bool)
    requires Between(l, s, r, g, true) && Progress(c, g, |l|) && c.h < |c.data| == |g|
    requires Waiting(c, s, g, |l|) && Sorted(c, s, g, s', g', |l|, more)
    ensures Progress(c, g', |l| + |s|) && |g'| == |g| && forall q: nat :: q < |g| && q !in s ==> g'[q] == g[q]
  {
    hide Sound, Between, Key, Tiled, Numbered, Deeper, DeepBelow, Block, Once;
    SettledDeep(c, g, g', Members(s), |l|, |l| + |s|);
    Lengths(c, g);
    assert forall q: nat :: q < |g| ==> if q in s then g'[q] < |l| + |s| else g'[q] == g[q];
    UntouchedOn(c, l, s, r, g, g', true);
  }

  lemma LastUntouched(c: Round, l: seq<nat>, s: seq<nat>, r: seq<nat>, g: seq<nat>, g': seq<nat>)
    requires Between(l, s, r, g, true) && Untouched(c, g, |l|) && |g'| == |g|
    requires forall q: nat :: q in s ==> q < |g| && g'[q] < |l| + |s|
    requires forall q: nat :: q < |g| && q !in s ==> g'[q] == g[q]
    ensures Untouched(c, g', |l| + |s|)
  {
    hide Between, Untouched;
    UntouchedOn(c, l, s, r, g, g', true);
  }

  // In the last round the rotations of a group are equal, so any order of them will do.
  lemma LastWeak(c: Round, g: seq<nat>, g': seq<nat>, s: seq<nat>, a: nat, b: nat)
    requires Level(c.data, c.start, c.h) && Weak(c.data, g) && c.h >= |c.data|
    requires Renumbered(g, g', Members(s), a, b) && a < b
    requires forall q: nat :: q in s ==> q < |g| && g[q] == a == c.start[q]
    requires forall q: nat :: q < |g| && q !in s ==> g[q] < a || g[q] >= b
    ensures Weak(c.data, g')
  {
    hide Less, Shares;
    forall p: nat, q: nat | p < |g| && q < |g| && g'[p] < g'[q]
      ensures !Less(c.data, q, p)
    {
      if p in s && q in s {
        SharesLess(c.data, q, p, c.h, |c.data|);
        EqualNotLess(c.data, q, p);
      } else {
        assert g[p] < g[q];
      }
    }
  }

  lemma LastMembers(c: Round, l: seq<nat>, s: seq<nat>, g: seq<nat>, g': seq<nat>)
    requires |g'| == |g| && Plain(s) && Untouched(c, g, |l|) && Numbered(s, g', |l|, false)
    requires forall k: nat :: k < |s| ==> s[k] < |g| && g[s[k]] == |l|
    ensures |c.start| == |g|
    ensures forall q: nat :: q in s ==> q < |g| && g[q] == |l| == c.start[q] && |l| <= g'[q] < |l| + |s|
  {
    forall q: nat | q in s
      ensures q < |g| && g[q] == |l| == c.start[q] && |l| <= g'[q] < |l| + |s|
    {
      var k: nat :| k < |s| && s[k] == q;
      assert IndexOf(s[k]) == q;
    }
  }

  lemma LastProgress(c: Round, l: seq<nat>, s: seq<nat>, r: seq<nat>, g: seq<nat>, g': seq<nat>)
    requires Between(l, s, r, g, true) && Progress(c, g, |l|) && c.h >= |c.data| == |g| && |g'| == |g|
    requires Numbered(s, g', |l|, false) && forall q: nat :: q < |g| && q !in s ==> g'[q] == g[q]
    ensures Progress(c, g', |l| + |s|)
  {
    hide Between, Weak, Level, Untouched, Numbered;
    OutsideNumbers(l, s, r, g, true);
    BetweenSize(l, s, r, g, true);
    LastMembers(c, l, s, g, g');
    LastUntouched(c, l, s, r, g, g');
    LastWeak(c, g, g', s, |l|, |l| + |s|);
  }

  // ----- The words of a group ------------------------------------------------------------------

  lemma FirstGroup(s: seq<nat>, g: seq<nat>, a: nat)
    requires Tiled(s, g, a) && s != []
    ensures var n := SizeAt(s);
            && n <= |s| && Tiled(s[n..], g, a + n) && Numbered(Raw(s[..n]), g, a, OpenAt(s)) && (OpenAt(s) ==> n >= 2)
            && (TagOf(s[0]) / EXTRA % 2 == 1 ==> |s| > 1)
            && Raw(s[..n]) == if TagOf(s[0]) / EXTRA % 2 == 1 then [IndexOf(s[0]), IndexOf(s[1])] + s[2..n]
                              else [IndexOf(s[0])] + s[1..n]
  {
    hide Tiled, Numbered;
    var n := SizeAt(s);
    TiledHead(s, g, a);
    var t := s[..n];
    TagReads((n - 1) % EXTRA, n > EXTRA, OpenAt(s));
    RawNumbered(t, g, a, OpenAt(s));
  }

  lemma TiledHead(s: seq<nat>, g: seq<nat>, a: nat)
    requires Tiled(s, g, a) && s != []
    ensures var n := SizeAt(s);
            n <= |s| && Tiled(s[n..], g, a + n) && Tile(s[..n], OpenAt(s)) && Numbered(s[..n], g, a, OpenAt(s))
  {}

  lemma RawNumbered(s: seq<nat>, g: seq<nat>, a: nat, open: bool)
    requires Numbered(s, g, a, open)
    ensures Numbered(Raw(s), g, a, open)
  {}

  lemma HeadSlices(w: seq<nat>, s: seq<nat>, i: nat, n: nat)
    requires i + n <= |w| && s == w[i..]
    ensures w[i..i + n] == s[..n] && w[i + n..] == s[n..]
  {}

  // Reads the size of the group at place i and clears the size bits.
  method ReadHead(indices: array<nat>, i: nat, ghost g: seq<nat>) returns (size: nat, open: bool)
    requires i < indices.Length && Tiled(indices[i..], g, i)
    modifies indices
    ensures 1 <= size && i + size <= indices.Length && (open ==> size >= 2)
    ensures indices[..i] == old(indices[..i]) && indices[i + size..] == old(indices[i + size..])
    ensures indices[i..i + size] == Raw(old(indices[i..i + size])) && Tiled(indices[i + size..], g, i + size)
    ensures Numbered(indices[i..i + size], g, i, open)
  {
    hide Tiled, Numbered, Raw;
    ghost var w, s := indices[..], indices[i..];
    FirstGroup(s, g, i);
    size := TagOf(indices[i]) % EXTRA;
    open := TagOf(indices[i]) / (2 * EXTRA) % 2 == 1;
    if TagOf(indices[i]) / EXTRA % 2 == 1 {
      size := size + TagOf(indices[i + 1]) * EXTRA;
      indices[i + 1] := IndexOf(indices[i + 1]);
    }
    indices[i] := IndexOf(indices[i]);
    size := size + 1;
    assert size == SizeAt(s);
    HeadSlices(w, s, i, size);
    assert indices[i..i + size] == Raw(s[..size]);
    assert indices[i + size..] == w[i + size..];
  }

  // Takes size finished places into the run of f before place i.
  method ExtendRun(indices: array<nat>, i: nat, f: nat, size: nat, ghost g: seq<nat>)
    requires f <= i && 1 <= size && i + size <= indices.Length <= INDEXES
    requires Run(indices[i - f..i], g, i - f) && Plain(indices[i..i + size])
    requires Numbered(indices[i..i + size], g, i, false)
    modifies indices
    ensures indices[..i - f] == old(indices[..i - f]) && indices[i + size..] == old(indices[i + size..])
    ensures Run(indices[i - f..i + size], g, i - f)
    ensures Raw(indices[i - f..i + size]) == Raw(old(indices[i - f..i + size]))
  {
    hide Numbered, Raw, IndexOf, Plain, Tile;
    ClearRun(indices, i, f, size, g);
    ghost var u := indices[i - f..i + size];
    SetFinishedGroupSize(indices, i - f, f + size);
    RunNumbered(indices[i - f..i + size], u, g, i - f);
  }

  // Clears the size bits of the run.
  method ClearRun(indices: array<nat>, i: nat, f: nat, ghost size: nat, ghost g: seq<nat>)
    requires f <= i && 1 <= size && i + size <= indices.Length
    requires Run(indices[i - f..i], g, i - f) && Plain(indices[i..i + size])
    requires Numbered(indices[i..i + size], g, i, false)
    modifies indices
    ensures indices[..i - f] == old(indices[..i - f]) && indices[i + size..] == old(indices[i + size..])
    ensures Plain(indices[i - f..i + size]) && indices[i - f..i + size] == Raw(old(indices[i - f..i + size]))
    ensures Numbered(indices[i - f..i + size], g, i - f, false)
  {
    hide Numbered, Raw, IndexOf, Plain, Tile, Run;
    ghost var s, t := indices[i - f..i], indices[i..i + size];
    assert indices[i - f..i + size] == s + t;
    indices[i - f] := IndexOf(indices[i - f]);
    if f > 1 {
      indices[i - f + 1] := IndexOf(indices[i - f + 1]);
    }
    RunCleared(s, t, indices[i - f..i + size], g, i - f);
  }

  lemma RunCleared(s: seq<nat>, t: seq<nat>, u: seq<nat>, g: seq<nat>, a: nat)
    requires Run(s, g, a) && Plain(t) && Numbered(t, g, a + |s|, false) && |u| == |s| + |t| >= 1
    requires forall k :: 0 <= k < |u| ==>
               u[k] == if k == 0 || (k == 1 && |s| > 1) then IndexOf((s + t)[k]) else (s + t)[k]
    ensures Plain(u) && Raw(s + t) == u && Numbered(u, g, a, false)
  {
    hide IndexOf;
    RunPlain(s, g, a);
    SmallIndex();
    assert Numbered(s + t, g, a, false);
    assert Raw(s + t) == u;
    RawNumbered(s + t, g, a, false);
  }

  lemma SmallIndex()
    ensures forall v: nat :: IndexOf(v) < INDEXES && (v < INDEXES ==> IndexOf(v) == v)
  {}

  // Size bits are only in the first two words.
  lemma RunPlain(s: seq<nat>, g: seq<nat>, a: nat)
    requires Run(s, g, a)
    ensures Numbered(s, g, a, false) && (|s| == 1 ==> s[0] < 2 * INDEXES) && forall k :: 2 <= k < |s| ==> s[k] < INDEXES
  {}

  lemma RunNumbered(s: seq<nat>, u: seq<nat>, g: seq<nat>, a: nat)
    requires Raw(s) == u && Numbered(u, g, a, false) && Plain(u)
    ensures Numbered(s, g, a, false)
  {
    forall k | 0 <= k < |s|
      ensures IndexOf(s[k]) < |g| && g[IndexOf(s[k])] == a + k
    {
      assert Raw(s)[k] == IndexOf(u[k]);
    }
  }

  // ----- One group of the round ----------------------------------------------------------------

  lemma RawThree(l: seq<nat>, s: seq<nat>, r: seq<nat>)
    ensures Raw(l + s + r) == Raw(l) + Raw(s) + Raw(r)
  {
    RawConcat(l, s);
    RawConcat(l + s, r);
  }

  lemma NumberedRaw(s: seq<nat>, t: seq<nat>, g: seq<nat>, a: nat, open: bool)
    requires Raw(s) == Raw(t) && Numbered(t, g, a, open)
    ensures Numbered(s, g, a, open)
  {
    forall k | 0 <= k < |s|
      ensures IndexOf(s[k]) == IndexOf(t[k])
    {
      assert Raw(s)[k] == Raw(t)[k];
    }
  }

  lemma GroupRead(c: Round, w: seq<nat>, g: seq<nat>, i: nat, f: nat, again: bool, s: seq<nat>, r: seq<nat>, open: bool)
    requires InRound(c, w, g, i, f, again) && s != [] && i + |s| <= |w|
    requires s == Raw(w[i..i + |s|]) && r == w[i + |s|..] && Numbered(s, g, i, open) && Tiled(r, g, i + |s|)
    ensures Between(w[..i], s, r, g, open) && Progress(c, g, i) && (!again ==> Numbered(w[..i], g, 0, false))
    ensures f <= i && Tiled(w[..i - f], g, 0) && Run(w[i - f..i], g, i - f)
  {
    hide Tiled, Numbered, Progress, IsPermutation, Run;
    LeftTiled(w, g, i, f);
    assert w == w[..i] + w[i..i + |s|] + r;
    RawThree(w[..i], w[i..i + |s|], r);
    assert Plain(s);
  }

  lemma FinishedRaw(w: seq<nat>, l: seq<nat>, s: seq<nat>, r: seq<nat>, f: nat)
    requires f <= |l| && |w| == |l| + |s| + |r| && w[..|l| - f] == l[..|l| - f] && w[|l| + |s|..] == r && Plain(s)
    requires Raw(w[|l| - f..|l| + |s|]) == Raw(l[|l| - f..] + s)
    ensures Raw(w[..|l| + |s|]) == Raw(l + s) && Raw(w) == Raw(l) + s + Raw(r)
  {
    hide Raw, Plain;
    var i, n := |l|, |l| + |s|;
    assert l + s == l[..i - f] + (l[i - f..] + s);
    RawConcat(l[..i - f], l[i - f..] + s);
    assert w[..n] == w[..i - f] + w[i - f..n];
    RawConcat(w[..i - f], w[i - f..n]);
    assert w == w[..n] + r;
    RawConcat(w[..n], r);
    RawConcat(l, s);
    PlainRaw(s);
  }

  lemma AfterFinished(c: Round, w: seq<nat>, l: seq<nat>, s: seq<nat>, r: seq<nat>, g: seq<nat>, f: nat, again: bool)
    requires Between(l, s, r, g, false) && Progress(c, g, |l|) && (!again ==> Numbered(l, g, 0, false)) && f <= |l|
    requires |g| == |c.data| == |w| && w[..|l| - f] == l[..|l| - f] && w[|l| + |s|..] == r && Tiled(l[..|l| - f], g, 0)
    requires Run(w[|l| - f..|l| + |s|], g, |l| - f) && Raw(w[|l| - f..|l| + |s|]) == Raw(l[|l| - f..] + s)
    ensures InRound(c, w, g, |l| + |s|, f + |s|, again)
  {
    hide Tiled, Numbered, Progress, IsPermutation, Run, Raw, Plain;
    FinishedProgress(c, l, s, r, g);
    FinishedRaw(w, l, s, r, f);
    if !again {
      NumberedConcat(l, s, g, g, 0);
      NumberedRaw(w[..|l| + |s|], l + s, g, 0, false);
    }
  }

  lemma OpenLayout(l: seq<nat>, s: seq<nat>, r: seq<nat>, g: seq<nat>, s': seq<nat>, g': seq<nat>)
    requires Between(l, s, r, g, true) && |g'| == |g| && forall q: nat :: q < |g| && q !in s ==> g'[q] == g[q]
    requires |s'| == |s| && multiset(Raw(s')) == multiset(s) && Tiled(s', g', |l|)
    ensures Layout(l + s' + r, g', |l| + |s|, 0)
  {
    hide Tiled, Numbered, Raw, Layout, IsPermutation, Between;
    BetweenSize(l, s, r, g, true);
    BetweenPermuted(l, s, r, g, s');
    AroundTiled(l, s, r, g, g', true);
    TiledConcat(l, s', g', 0);
    ThreeSlices(l, s', r);
    NoRun(l + s' + r, g', |l| + |s|);
  }

  lemma AfterOpen(c: Round, w: seq<nat>, l: seq<nat>, s: seq<nat>, r: seq<nat>, g: seq<nat>, s': seq<nat>, g': seq<nat>,
                  again: bool, more: bool)
    requires Between(l, s, r, g, true) && (!again ==> Numbered(l, g, 0, false)) && |g'| == |g| == |c.data|
    requires forall q: nat :: q < |g| && q !in s ==> g'[q] == g[q]
    requires w == l + s' + r && |s'| == |s| && multiset(Raw(s')) == multiset(s) && Tiled(s', g', |l|)
    requires Progress(c, g', |l| + |s|) && (!more ==> Numbered(s', g', |l|, false))
    ensures InRound(c, w, g', |l| + |s|, 0, again || more)
  {
    hide Tiled, Numbered, Progress, Raw, Layout, IsPermutation, Between;
    OpenLayout(l, s, r, g, s', g');
    LayoutSize(w, g', |l| + |s|);
    if !again && !more {
      AroundTiled(l, s, r, g, g', true);
      NumberedConcat(l, s', g', g', 0);
      ThreeSlices(l, s', r);
    }
  }

  lemma LayoutSize(w: seq<nat>, g: seq<nat>, i: nat)
    requires Layout(w, g, i, 0)
    ensures i <= |w| == |g|
  {}

  lemma NoRun(w: seq<nat>, g: seq<nat>, i: nat)
    requires i <= |w| == |g| <= INDEXES && IsPermutation(Raw(w)) && Tiled(w[..i], g, 0) && Tiled(w[i..], g, i)
    ensures Layout(w, g, i, 0)
  {
    hide Tiled, IsPermutation, Raw;
    EmptyRun(w[i..i], g, i);
    assert w[..i - 0] == w[..i];
  }

  lemma BetweenPermuted(l: seq<nat>, s: seq<nat>, r: seq<nat>, g: seq<nat>, s': seq<nat>)
    requires Between(l, s, r, g, true) && |s'| == |s| && multiset(Raw(s')) == multiset(s)
    ensures IsPermutation(Raw(l + s' + r))
  {
    hide Tiled, Numbered, Raw;
    RawThree(l, s', r);
    SameMiddle(Raw(l), s, Raw(s'), Raw(r));
  }

  lemma SameMiddle(l: seq<nat>, s: seq<nat>, s': seq<nat>, r: seq<nat>)
    requires multiset(s) == multiset(s') && |s| == |s'| && IsPermutation(l + s + r)
    ensures IsPermutation(l + s' + r)
  {}

  lemma ThreeSlices(l: seq<nat>, s: seq<nat>, r: seq<nat>)
    ensures var w, n := l + s + r, |l| + |s|; w[..n] == l + s && w[n..] == r && w[..n - 0] == w[..n]
  {}

  lemma EmptyRun(s: seq<nat>, g: seq<nat>, a: nat)
    requires s == []
    ensures Run(s, g, a)
  {}

  lemma {:induction false} PlainTiled(s: seq<nat>, g: seq<nat>, a: nat)
    requires Plain(s) && Numbered(s, g, a, false)
    ensures Tiled(s, g, a)
    decreases |s|
  {
    if s == [] {
    } else {
      var t := [s[0]];
      assert Numbered(t, g, a, false) && Tile(t, false);
      PlainTiled(s[1..], g, a + 1);
      TiledOne(t, g, a, false);
      TiledConcat(t, s[1..], g, a);
      assert s == t + s[1..];
    }
  }

  // In the last round each position of the group just takes the number of its place.
  method NumberPlaces(indices: array<nat>, i: nat, size: nat, groups: array<nat>, ghost s: seq<nat>)
    requires indices != groups && i + size <= indices.Length && s == indices[i..i + size] && Plain(s) && Once(s)
    requires forall k :: 0 <= k < size ==> s[k] < groups.Length
    modifies groups
    ensures Numbered(s, groups[..], i, false)
    ensures forall q: nat :: q < groups.Length && q !in s ==> groups[q] == old(groups[q])
  {
    var j := 0;
    while j < size
      invariant 0 <= j <= size
      invariant forall k :: 0 <= k < j ==> groups[s[k]] == i + k
      invariant forall q: nat :: q < groups.Length && q !in s ==> groups[q] == old(groups[q])
    {
      forall k | 0 <= k < j
        ensures s[k] != s[j]
      {
        OncePlaces(s, k, j);
      }
      assert indices[i + j] == s[j];
      groups[indices[i + j]] := i + j;
      j := j + 1;
    }
  }

  // The round for c has what its arrays and bounds need.
  ghost predicate RoundArrays(c: Round, h: nat, numRefBits: nat, indices: array<nat>, temp: array<nat>,
                              groups: array<nat>) {
    && indices != temp && temp != groups && groups != indices
    && 1 <= |c.data| == indices.Length == groups.Length <= INDEXES && TEMP_SIZE <= temp.Length
    && 1 <= c.h == h && RefsFit(indices.Length, numRefBits)
    && |c.start| == |c.end| == |c.data| && Numbers(c.start) && c == Begin(c.data, h, c.start)
  }

  method NumberOpen(ghost c: Round, i: nat, size: nat, indices: array<nat>, groups: array<nat>, ghost again: bool)
    requires indices != groups && |c.data| == indices.Length == groups.Length <= c.h
    requires 1 <= size && i + size <= indices.Length
    requires Between(indices[..i], indices[i..i + size], indices[i + size..], groups[..], true)
    requires Progress(c, groups[..], i) && (!again ==> Numbered(indices[..i], groups[..], 0, false))
    modifies groups
    ensures InRound(c, indices[..], groups[..], i + size, 0, again)
  {
    hide Between, Progress, Tiled, Numbered, Once, InRound, Raw, Plain;
    ghost var l, s, r, g := indices[..i], indices[i..i + size], indices[i + size..], groups[..];
    BetweenSize(l, s, r, g, true);
    BetweenOnce(l, s, r, g, true);
    OutsideNumbers(l, s, r, g, true);
    NumberPlaces(indices, i, size, groups, s);
    LastProgress(c, l, s, r, g, groups[..]);
    PlainRaw(s);
    PlainTiled(s, groups[..], i);
    assert indices[..] == l + s + r;
    AfterOpen(c, indices[..], l, s, r, g, s, groups[..], again, false);
  }

  method SortOpen(ghost c: Round, h: nat, i: nat, size: nat, numRefBits: nat, indices: array<nat>, temp: array<nat>,
                  groups: array<nat>, ghost again: bool) returns (more: bool)
    requires RoundArrays(c, h, numRefBits, indices, temp, groups) && 1 <= size && i + size <= indices.Length
    requires Between(indices[..i], indices[i..i + size], indices[i + size..], groups[..], true) && h < indices.Length
    requires Progress(c, groups[..], i) && (!again ==> Numbered(indices[..i], groups[..], 0, false))
    modifies indices, temp, groups
    ensures InRound(c, indices[..], groups[..], i + size, 0, again || more)
  {
    hide Between, Progress, Tiled, Numbered, Once, Waiting, Sorted, AllMeet, Members, InRound, Raw, Plain;
    ghost var l, s, r, g := indices[..i], indices[i..i + size], indices[i + size..], groups[..];
    BetweenSize(l, s, r, g, true);
    ProgressSound(c, g, i);
    GroupWaits(c, l, s, r, g);
    more := SortGroup(c, h, i, size, numRefBits, indices, temp, groups, 0, indices.Length);
    ghost var s' := indices[i..i + size];
    SortedProgress(c, l, s, r, g, s', groups[..], more);
    SortedFacts(c, s, g, s', groups[..], i, more);
    assert indices[..] == l + s' + r;
    AfterOpen(c, indices[..], l, s, r, g, s', groups[..], again, more);
  }

  lemma ProgressSound(c: Round, g: seq<nat>, i: nat)
    requires Progress(c, g, i) && c.h < |c.data|
    ensures Sound(c, g) && Untouched(c, g, i)
  {}

  lemma SortedFacts(c: Round, s: seq<nat>, g: seq<nat>, s': seq<nat>, g': seq<nat>, a: nat, more: bool)
    requires Sorted(c, s, g, s', g', a, more)
    ensures |s'| == |s| && multiset(Raw(s')) == multiset(s) && Tiled(s', g', a)
    ensures !more ==> Numbered(s', g', a, false)
  {}

  method StepFinished(ghost c: Round, indices: array<nat>, i: nat, f: nat, size: nat, ghost g: seq<nat>,
                      ghost again: bool)
    requires f <= i && 1 <= size && i + size <= indices.Length == |c.data| == |g| <= INDEXES
    requires Between(indices[..i], indices[i..i + size], indices[i + size..], g, false)
    requires Progress(c, g, i) && (!again ==> Numbered(indices[..i], g, 0, false))
    requires Tiled(indices[..i][..i - f], g, 0) && Run(indices[..i][i - f..], g, i - f)
    modifies indices
    ensures InRound(c, indices[..], g, i + size, f + size, again)
  {
    hide Between, Progress, Tiled, Numbered, InRound, Run, Raw, Plain;
    ghost var l, s, r := indices[..i], indices[i..i + size], indices[i + size..];
    BetweenSize(l, s, r, g, false);
    BetweenNumbered(l, s, r, g, false);
    assert indices[i - f..i] == l[i - f..];
    assert indices[i - f..i + size] == l[i - f..] + s;
    assert indices[..i - f] == l[..i - f];
    ExtendRun(indices, i, f, size, g);
    assert indices[..][i - f..i + size] == indices[i - f..i + size];
    assert indices[..][..i - f] == indices[..i - f] && indices[..][i + size..] == r;
    AfterFinished(c, indices[..], l, s, r, g, f, again);
  }

  // The group at place i: taken into the run of finished ones, or sorted.
  method Step(ghost c: Round, h: nat, numRefBits: nat, indices: array<nat>, temp: array<nat>, groups: array<nat>,
              i: nat, f: nat, again: bool) returns (i': nat, f': nat, again': bool)
    requires RoundArrays(c, h, numRefBits, indices, temp, groups) && i < indices.Length
    requires InRound(c, indices[..], groups[..], i, f, again)
    modifies indices, temp, groups
    ensures i < i' && InRound(c, indices[..], groups[..], i', f', again') && (h >= |c.data| ==> again' == again)
  {
    hide Between, Progress, Tiled, Numbered, InRound, Run, Raw, Plain, Begin, Numbers, RefsFit;
    ghost var w, g := indices[..], groups[..];
    assert w[i..] == indices[i..];
    RoundTiled(c, w, g, i, f, again);
    var size, open := ReadHead(indices, i, g);
    ghost var l, s, r := indices[..i], indices[i..i + size], indices[i + size..];
    assert l == w[..i] && r == w[i + size..];
    GroupRead(c, w, g, i, f, again, s, r, open);
    i' := i + size;
    again' := again;
    if !open || size == 1 {
      assert l[..i - f] == w[..i - f] && l[i - f..] == w[i - f..i];
      StepFinished(c, indices, i, f, size, g, again);
      f' := f + size;
      return;
    }
    f' := 0;
    if h >= indices.Length {
      NumberOpen(c, i, size, indices, groups, again);
    } else {
      var more := SortOpen(c, h, i, size, numRefBits, indices, temp, groups, again);
      again' := again || more;
    }
  }

  lemma RoundTiled(c: Round, w: seq<nat>, g: seq<nat>, i: nat, f: nat, again: bool)
    requires InRound(c, w, g, i, f, again)
    ensures f <= i <= |w| && Tiled(w[i..], g, i)
  {}

  lemma BetweenNumbered(l: seq<nat>, s: seq<nat>, r: seq<nat>, g: seq<nat>, open: bool)
    requires Between(l, s, r, g, open)
    ensures Numbered(s, g, |l|, open)
  {}
}
