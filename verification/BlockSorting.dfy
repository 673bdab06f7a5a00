// Block sorting: the positions of a block in the order of its cyclic rotations, as the transform of
// Burrows and Wheeler needs them.

module BlockSorting {
  import opened Words
  import opened Rotations
  import opened GroupOrder
  import opened GroupWords
  import opened Permutations
  import opened GroupSorting
  import opened RangeSorting
  import opened Counting
  import opened PairGrouping
  import opened SortRounds

  // Between two rounds: the words and numbers group the positions by their first h bytes, in order.
  ghost predicate Grouped(data: seq<Byte>, w: seq<nat>, g: seq<nat>, h: nat) {
    && |w| == |g| <= INDEXES && Ordered(data, g) && Level(data, g, h)
    && IsPermutation(Raw(w)) && Tiled(w, g, 0)
  }

  lemma TiledNumbers(w: seq<nat>, g: seq<nat>)
    requires |w| == |g| && IsPermutation(Raw(w)) && Tiled(w, g, 0)
    ensures Numbers(g)
  {
    hide Tiled, IsPermutation;
    PermutationFacts(Raw(w));
    forall p: nat | p < |g|
      ensures g[p] < |g|
    {
      assert p in Raw(w);
      var k: nat :| k < |w| && Raw(w)[k] == p;
      TiledBounds(w, g, 0, k);
    }
  }

  lemma OrderedWeak(data: seq<Byte>, g: seq<nat>)
    requires Ordered(data, g)
    ensures Weak(data, g)
  {
    hide Less;
    forall p: nat, q: nat | p < |g| && q < |g| && g[p] < g[q]
      ensures !Less(data, q, p)
    {
      NotBoth(data, p, q);
    }
  }

  lemma RoundStarts(data: seq<Byte>, w: seq<nat>, g: seq<nat>, h: nat)
    requires Grouped(data, w, g, h) && Numbers(g)
    ensures InRound(Begin(data, h, g), w, g, 0, 0, false)
  {
    hide Tiled, IsPermutation, Ordered, Level, Sound, Weak;
    OrderedLength(data, g);
    BeginSound(data, h, g);
    OrderedWeak(data, g);
    assert w[0..] == w && w[..0 - 0] == [] && w[0 - 0..0] == [];
    NoneTiled(w[..0 - 0], g);
  }

  // After a round that sorted some group only in part, the groups agree on twice as many bytes.
  lemma RoundGoesOn(c: Round, w: seq<nat>, g: seq<nat>, f: nat)
    requires InRound(c, w, g, |w|, f, true) && c.h < |c.data|
    ensures Grouped(c.data, w, g, 2 * c.h)
  {
    hide Tiled, IsPermutation, Ordered, Level, Raw;
    LeftTiled(w, g, |w|, f);
    assert w[..|w|] == w;
    DeepDoubles(c, g);
  }

  // Otherwise every position has its own number.
  lemma RoundFinishes(c: Round, w: seq<nat>, g: seq<nat>, f: nat)
    requires InRound(c, w, g, |w|, f, false)
    ensures |w| == |g| == |c.data| && Weak(c.data, g) && Numbered(w, g, 0, false) && Tiled(w, g, 0)
    ensures IsPermutation(Raw(w))
  {
    hide Tiled, IsPermutation, Ordered, Level, Raw, Weak;
    LeftTiled(w, g, |w|, f);
    assert w[..|w|] == w;
    if c.h < |c.data| { OrderedWeak(c.data, g); }
  }

  // One round over all groups, with words of 32 bits after every step; again says that some group still
  // has more than one position.
  method SortRound(ghost data: seq<Byte>, h: nat, numRefBits: nat, indices: array<nat>, temp: array<nat>,
                   groups: array<nat>) returns (again: bool)
    requires indices != temp && temp != groups && groups != indices && h >= 1
    requires |data| == indices.Length == groups.Length <= INDEXES && TEMP_SIZE <= temp.Length
    requires RefsFit(indices.Length, numRefBits) && Grouped(data, indices[..], groups[..], h)
    modifies indices, temp, groups
    ensures AllFit(indices[..])
    ensures again ==> h < |data| && Grouped(data, indices[..], groups[..], 2 * h)
    ensures !again ==> Weak(data, groups[..]) && Numbered(indices[..], groups[..], 0, false)
    ensures !again ==> Tiled(indices[..], groups[..], 0) && IsPermutation(Raw(indices[..]))
  {
    hide Grouped, InRound, Weak, Tiled, Numbered, IsPermutation, AllFit;
    ghost var g := groups[..];
    GroupedFacts(data, indices[..], g, h);
    ghost var c := Begin(data, h, g);
    RoundStarts(data, indices[..], g, h);
    RoundFits(c, indices[..], g, 0, 0, false);
    var i, f := 0, 0;
    again := false;
    while i < indices.Length
      invariant i <= indices.Length && InRound(c, indices[..], groups[..], i, f, again)
      invariant (h >= |data| ==> !again) && AllFit(indices[..])
    {
      i, f, again := Step(c, h, numRefBits, indices, temp, groups, i, f, again);
      RoundTiled(c, indices[..], groups[..], i, f, again);
      RoundFits(c, indices[..], groups[..], i, f, again);
    }
    if again {
      RoundGoesOn(c, indices[..], groups[..], f);
    } else {
      RoundFinishes(c, indices[..], groups[..], f);
    }
  }

  lemma RoundFits(c: Round, w: seq<nat>, g: seq<nat>, i: nat, f: nat, again: bool)
    requires InRound(c, w, g, i, f, again)
    ensures AllFit(w)
  {
    hide Progress, IsPermutation, Numbered, Tiled;
    LeftTiled(w, g, i, f);
    TiledConcat(w[..i], w[i..], g, 0);
    assert w[..i] + w[i..] == w;
    TiledFits(w, g, 0);
  }

  lemma GroupedFacts(data: seq<Byte>, w: seq<nat>, g: seq<nat>, h: nat)
    requires Grouped(data, w, g, h)
    ensures Numbers(g) && |data| == |g| == |w| >= 1
  {
    TiledNumbers(w, g);
  }

  // The bits that are left for places beside a number in 32 bits, 12 at most.
  method CountRefBits(n: nat) returns (numRefBits: nat)
    requires 1 <= n <= INDEXES
    ensures RefsFit(n, numRefBits)
  {
    numRefBits := 0;
    assert Pow2(20) == INDEXES && Pow2(12) == 4096 by { TreeSizes(); PowerTable(); }
    ShrRange(n - 1, 20, 0);
    while Shr(n - 1, numRefBits) != 0
      invariant numRefBits <= 20
      decreases 20 - numRefBits
    {
      numRefBits := numRefBits + 1;
    }
    numRefBits := 32 - numRefBits;
    if numRefBits > 12 {
      numRefBits := 12;
    }
  }

  // Clears the sizes; what is left are the positions.
  method ClearSizes(indices: array<nat>, ghost g: seq<nat>)
    requires Tiled(indices[..], g, 0)
    modifies indices
    ensures indices[..] == Raw(old(indices[..]))
  {
    hide Tiled, Numbered, Raw;
    ghost var w := indices[..];
    assert w[0..] == w && Raw(w[..0]) == [] by { RawNone(w[..0]); }
    var i := 0;
    while i < indices.Length
      invariant i <= indices.Length && indices[..i] == Raw(w[..i]) && indices[i..] == w[i..]
      invariant Tiled(indices[i..], g, i)
    {
      ghost var before := indices[..];
      var size, open := ReadHead(indices, i, g);
      assert before[i..i + size] == w[i..][..size] == w[i..i + size];
      RawConcat(w[..i], w[i..i + size]);
      assert w[..i + size] == w[..i] + w[i..i + size];
      assert indices[..i + size] == indices[..i] + indices[i..i + size];
      assert indices[i + size..] == before[i + size..] == w[i..][size..];
      i := i + size;
    }
    assert w[..i] == w && indices[..i] == indices[..];
  }

  lemma RawNone(s: seq<nat>)
    requires s == []
    ensures Raw(s) == []
  {}

  // No rotation, read as a string, comes after a greater one.
  ghost predicate InOrder(data: seq<Byte>, x: seq<nat>)
    requires data != []
  {
    forall j, k :: 0 <= j < k < |x| ==> !Before(data, x[k], x[j])
  }

  lemma Finish(data: seq<Byte>, w: seq<nat>, g: seq<nat>)
    requires |w| == |g| == |data| && Weak(data, g) && Numbered(w, g, 0, false) && IsPermutation(Raw(w))
    ensures InOrder(data, Raw(w)) && g[0] < |w| && Raw(w)[g[0]] == 0
  {
    hide Less, Before, IsPermutation;
    PermutationFacts(Raw(w));
    assert 0 in Raw(w);
    var k: nat :| k < |w| && Raw(w)[k] == 0;
    assert g[IndexOf(w[k])] == k;
    forall i, j | 0 <= i < j < |w|
      ensures !Before(data, Raw(w)[j], Raw(w)[i])
    {
      LessInside(data, Raw(w)[j], Raw(w)[i]);
      assert g[IndexOf(w[i])] == i && g[IndexOf(w[j])] == j;
    }
  }

  // The sort of a block of at most 2^20 bytes, for indices, counters and group numbers.
  method BlockSort(indices: array<nat>, data: seq<Byte>, temp: array<nat>, groups: array<nat>) returns (r: nat)
    requires indices != temp && temp != groups && groups != indices
    requires 1 <= |data| == indices.Length == groups.Length <= INDEXES && TEMP_SIZE <= temp.Length
    modifies indices, temp, groups
    ensures IsPermutation(indices[..]) && InOrder(data, indices[..])
    ensures r < |data| && indices[r] == 0
  {
    hide Grouped, Weak, Tiled, Numbered, IsPermutation, InOrder, Placed, Starts, Counted, ByPairs, Raw, RefsFit;
    CountPairs(data, temp);
    SumCounts(data, temp);
    NumberPairs(data, temp, groups);
    PlacePairs(data, temp, indices);
    MarkPairs(data, temp, indices, groups[..]);
    PairsOrdered(data, groups[..]);
    PairsGrouped(data, indices[..], groups[..]);
    var numRefBits := CountRefBits(|data|);
    var h := 2;
    var again := true;
    while again
      invariant h >= 2
      invariant again ==> Grouped(data, indices[..], groups[..], h)
      invariant !again ==> Weak(data, groups[..]) && Numbered(indices[..], groups[..], 0, false)
      invariant !again ==> Tiled(indices[..], groups[..], 0) && IsPermutation(Raw(indices[..]))
      decreases again, if h < |data| then |data| - h else 0
    {
      again := SortRound(data, h, numRefBits, indices, temp, groups);
      h := 2 * h;
    }
    Finish(data, indices[..], groups[..]);
    ClearSizes(indices, groups[..]);
    r := groups[0];
  }

  lemma PairsGrouped(data: seq<Byte>, w: seq<nat>, g: seq<nat>)
    requires |w| == |g| <= INDEXES && Ordered(data, g) && Level(data, g, 2)
    requires IsPermutation(Raw(w)) && Tiled(w, g, 0)
    ensures Grouped(data, w, g, 2)
  {}
}
