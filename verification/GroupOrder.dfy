// Group numbers for the positions of a block: smaller number, smaller rotation; same number, same
// first bytes. Splitting a group by the numbers a few places ahead keeps this.

module GroupOrder {
  import opened Words
  import opened Rotations

  ghost predicate Ordered(data: seq<Byte>, g: seq<nat>) {
    && data != [] && |g| == |data|
    && forall p: nat, q: nat :: p < |g| && q < |g| && g[p] < g[q] ==> Less(data, p, q)
  }

  ghost predicate Level(data: seq<Byte>, g: seq<nat>, h: nat) {
    && data != [] && |g| == |data|
    && forall p: nat, q: nat :: p < |g| && q < |g| && g[p] == g[q] ==> Shares(data, p, q, h)
  }

  // A round of the sort: the positions are grouped by their first h bytes, and the groups of the
  // beginning of the round are the intervals from start to end.
  datatype Round = Round(data: seq<Byte>, h: nat, start: seq<nat>, end: seq<nat>)

  ghost predicate Apart(c: Round, p: nat, q: nat)
    requires |c.start| == |c.end| && p < |c.start| && q < |c.start|
  {
    (c.start[p] == c.start[q] && c.end[p] == c.end[q]) || c.end[p] <= c.start[q] || c.end[q] <= c.start[p]
  }

  ghost predicate ValidRound(c: Round) {
    && Level(c.data, c.start, c.h) && |c.end| == |c.data|
    && (forall p: nat :: p < |c.data| ==> c.end[p] <= |c.data|)
    && forall p: nat, q: nat :: p < |c.data| && q < |c.data| ==> Apart(c, p, q)
  }

  // The numbers only move inside the old groups.
  ghost predicate Within(c: Round, g: seq<nat>) {
    && |c.start| == |c.end| == |g| == |c.data|
    && forall p: nat :: p < |g| ==> c.start[p] <= g[p] < c.end[p]
  }

  // What the sort of this round knows at any time.
  ghost predicate Sound(c: Round, g: seq<nat>) { ValidRound(c) && Ordered(c.data, g) && Within(c, g) }

  lemma Lengths(c: Round, g: seq<nat>)
    requires Sound(c, g)
    ensures c.data != [] && |c.start| == |c.end| == |g| == |c.data|
  {}

  function Key(c: Round, g: seq<nat>, p: nat): nat
    requires c.data != [] && |g| == |c.data|
  {
    g[Ahead(|g|, p, c.h)]
  }

  lemma StillTogether(c: Round, g: seq<nat>, p: nat, q: nat)
    requires Sound(c, g) && p < |g| && q < |g| && g[p] == g[q]
    ensures c.start[p] == c.start[q] && c.end[p] == c.end[q]
  {
    assert Apart(c, p, q);
  }

  // Inside an old group the numbers h places ahead decide, even while they are being refined.
  lemma KeyDecides(c: Round, g: seq<nat>, p: nat, q: nat)
    requires Sound(c, g) && p < |g| && q < |g| && g[p] == g[q] && Key(c, g, p) < Key(c, g, q)
    ensures Less(c.data, p, q)
  {
    StillTogether(c, g, p, q);
    LessAhead(c.data, p, q, c.h);
  }

  // The members m are those with number a, and no number lies between a and b.
  ghost predicate Block(c: Round, g: seq<nat>, m: set<nat>, a: nat, b: nat) {
    && |c.end| == |g| && a < b
    && (forall q: nat :: q in m ==> q < |g| && g[q] == a && b <= c.end[q])
    && (forall q: nat :: q < |g| && q !in m ==> g[q] < a || g[q] >= b)
  }

  // New numbers for the members, between a and b.
  ghost predicate Renumbered(g: seq<nat>, g': seq<nat>, m: set<nat>, a: nat, b: nat) {
    && |g'| == |g|
    && (forall q: nat :: q < |g| && q !in m ==> g'[q] == g[q])
    && (forall q: nat :: q < |g| && q in m ==> a <= g'[q] < b)
  }

  ghost predicate ByKey(c: Round, g: seq<nat>, g': seq<nat>, m: set<nat>)
    requires c.data != [] && |g| == |c.data| == |g'|
  {
    forall p: nat, q: nat :: p < |g| && q < |g| && p in m && q in m && g'[p] < g'[q] ==> Key(c, g, p) < Key(c, g, q)
  }

  lemma SplitKeeps(c: Round, g: seq<nat>, g': seq<nat>, m: set<nat>, a: nat, b: nat)
    requires Sound(c, g) && Block(c, g, m, a, b) && Renumbered(g, g', m, a, b) && ByKey(c, g, g', m)
    ensures Sound(c, g')
  {
    hide ValidRound, Key;
    SplitWithin(c, g, g', m, a, b);
    forall p: nat, q: nat | p < |g| && q < |g| && g'[p] < g'[q]
      ensures Less(c.data, p, q)
    {
      if p in m && q in m {
        KeyDecides(c, g, p, q);
      } else {
        assert g[p] < g[q];
      }
    }
  }

  lemma SplitWithin(c: Round, g: seq<nat>, g': seq<nat>, m: set<nat>, a: nat, b: nat)
    requires Within(c, g) && Block(c, g, m, a, b) && Renumbered(g, g', m, a, b)
    ensures Within(c, g')
  {
    forall p: nat | p < |g'|
      ensures c.start[p] <= g'[p] < c.end[p]
    {
      assert c.start[p] <= g[p] < c.end[p];
    }
  }

  // The members that stay together agree on another h bytes: they were together h places ahead.
  ghost predicate Deeper(c: Round, g: seq<nat>, m: set<nat>)
    requires c.data != [] && |g| == |c.data| == |c.start|
  {
    forall p: nat, q: nat :: p < |g| && q < |g| && p in m && q in m && g[p] == g[q] ==>
                               Key(c, c.start, p) == Key(c, c.start, q)
  }

  ghost predicate Settled(c: Round, g: seq<nat>, g': seq<nat>, m: set<nat>, a: nat, b: nat) {
    Sound(c, g') && Renumbered(g, g', m, a, b) && Deeper(c, g', m)
  }

  // Members with the same number h places ahead are together at any time.
  lemma SameKeyDeeper(c: Round, g: seq<nat>, p: nat, q: nat)
    requires Sound(c, g) && Key(c, g, p) == Key(c, g, q)
    ensures Key(c, c.start, p) == Key(c, c.start, q)
  {
    StillTogether(c, g, Ahead(|g|, p, c.h), Ahead(|g|, q, c.h));
  }

  // Two halves of a block, settled one after the other.
  lemma HalvesSettled(c: Round, g: seq<nat>, g1: seq<nat>, g2: seq<nat>, l: set<nat>, u: set<nat>, a: nat, i: nat,
                      b: nat)
    requires ValidRound(c) && a < i < b && l !! u && |g| == |c.data|
    requires Settled(c, g, g1, l, a, i) && Settled(c, g1, g2, u, i, b)
    ensures Settled(c, g, g2, l + u, a, b)
  {
    hide Sound, Key;
    assert |g| == |g1| == |g2|;
    forall p: nat, q: nat | p < |g| && q < |g| && p in l + u && q in l + u && g2[p] == g2[q]
      ensures Key(c, c.start, p) == Key(c, c.start, q)
    {
      assert p in l ==> p !in u && g2[p] == g1[p] < i;
      assert q in l ==> q !in u && g2[q] == g1[q] < i;
      assert p in u ==> g2[p] >= i;
      assert q in u ==> g2[q] >= i;
    }
  }

  // The upper half keeps its number while the lower half is settled.
  lemma UpperBlock(c: Round, g: seq<nat>, g1: seq<nat>, l: set<nat>, u: set<nat>, a: nat, i: nat, b: nat)
    requires l !! u && Block(c, g, u, i, b) && Renumbered(g, g1, l, a, i)
    ensures Block(c, g1, u, i, b)
  {}

  // ----- Ranges --------------------------------------------------------------------------------

  // The old group of the position ahead of p meets the numbers from left on, range of them.
  ghost predicate Meets(c: Round, p: nat, left: nat, range: nat)
    requires c.data != [] && |c.start| == |c.end| == |c.data|
  {
    Key(c, c.start, p) < left + range && left < c.end[Ahead(|c.data|, p, c.h)]
  }

  ghost predicate AllMeet(c: Round, m: set<nat>, left: nat, range: nat)
    requires c.data != [] && |c.start| == |c.end| == |c.data|
  {
    forall p: nat :: p in m ==> Meets(c, p, left, range)
  }

  lemma MeetsBelow(c: Round, g: seq<nat>, p: nat, left: nat, range: nat, mid: nat)
    requires Sound(c, g) && Meets(c, p, left, range) && left <= mid && Key(c, g, p) < mid
    ensures Meets(c, p, left, mid - left)
  {}

  lemma MeetsAbove(c: Round, g: seq<nat>, p: nat, left: nat, range: nat, mid: nat)
    requires Sound(c, g) && Meets(c, p, left, range) && left <= mid <= left + range && Key(c, g, p) >= mid
    ensures Meets(c, p, mid, range - (mid - left))
  {}

  // In a range of one number all are together.
  lemma MeetsOne(c: Round, p: nat, q: nat, left: nat)
    requires ValidRound(c) && Meets(c, p, left, 1) && Meets(c, q, left, 1)
    ensures Key(c, c.start, p) == Key(c, c.start, q)
  {
    assert Apart(c, Ahead(|c.data|, p, c.h), Ahead(|c.data|, q, c.h));
  }

  // ----- From round to round -------------------------------------------------------------------

  // Groups below i are already deeper.
  ghost predicate DeepBelow(c: Round, g: seq<nat>, i: nat)
    requires c.data != [] && |g| == |c.data| == |c.start|
  {
    forall p: nat, q: nat :: p < |g| && q < |g| && g[p] == g[q] < i ==> Key(c, c.start, p) == Key(c, c.start, q)
  }

  lemma DeepDoubles(c: Round, g: seq<nat>)
    requires Sound(c, g) && DeepBelow(c, g, |g|)
    ensures Level(c.data, g, 2 * c.h)
  {
    forall p: nat, q: nat | p < |g| && q < |g| && g[p] == g[q]
      ensures Shares(c.data, p, q, 2 * c.h)
    {
      PairDoubles(c, g, p, q);
    }
  }

  lemma PairDoubles(c: Round, g: seq<nat>, p: nat, q: nat)
    requires Sound(c, g) && p < |g| && q < |g| && g[p] == g[q] && Key(c, c.start, p) == Key(c, c.start, q)
    ensures Shares(c.data, p, q, 2 * c.h)
  {
    hide Shares, Less, Ordered;
    Lengths(c, g);
    StillTogether(c, g, p, q);
    assert Shares(c.data, Ahead(|g|, p, c.h), Ahead(|g|, q, c.h), c.h);
    SharesAhead(c.data, p, q, c.h, c.h);
  }

  lemma SettledDeep(c: Round, g: seq<nat>, g': seq<nat>, m: set<nat>, a: nat, b: nat)
    requires Sound(c, g) && DeepBelow(c, g, a) && Block(c, g, m, a, b) && Settled(c, g, g', m, a, b)
    ensures DeepBelow(c, g', b)
  {
    hide Sound, Key;
    Lengths(c, g);
    forall p: nat, q: nat | p < |g| && q < |g| && g'[p] == g'[q] < b
      ensures Key(c, c.start, p) == Key(c, c.start, q)
    {
      assert p !in m ==> g[p] < a;
      assert q !in m ==> g[q] < a;
    }
  }
}
