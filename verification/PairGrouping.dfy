// The first groups of the block sort: counting sort by the first two bytes.

module PairGrouping {
  import opened Words
  import opened Rotations
  import opened GroupOrder
  import opened GroupWords
  import opened Permutations
  import opened Counting

  const PAIRS := 0x1_0000

  function Hash(high: nat, low: nat): nat { high * 256 + low }

  function Pair(data: seq<Byte>, i: nat): (v: nat)
    requires i < |data|
    ensures v < PAIRS
  {
    Hash(data[i], if i + 1 < |data| then data[i + 1] else data[0])
  }

  function Pairs(data: seq<Byte>): (k: seq<nat>)
    ensures |k| == |data| && forall i :: 0 <= i < |data| ==> k[i] == Pair(data, i) < PAIRS
  {
    seq(|data|, i requires 0 <= i < |data| => Pair(data, i))
  }

  // ----- The order of the pairs ----------------------------------------------------------------

  lemma PairBytes(data: seq<Byte>, i: nat)
    requires i < |data|
    ensures Pair(data, i) == At(data, i, 0) * 256 + At(data, i, 1)
  {
    ModUnique(i, |data|, 0, i);
    if i + 1 < |data| {
      ModUnique(i + 1, |data|, 0, i + 1);
    } else {
      ModUnique(i + 1, |data|, 1, 0);
    }
  }

  lemma PairOrder(data: seq<Byte>, p: nat, q: nat)
    requires p < |data| && q < |data|
    ensures Pair(data, p) < Pair(data, q) ==> Less(data, p, q)
    ensures Pair(data, p) == Pair(data, q) ==> Shares(data, p, q, 2)
  {
    PairBytes(data, p);
    PairBytes(data, q);
    if At(data, p, 0) < At(data, q, 0) {
      assert LessAt(data, p, q, 0);
    } else if At(data, p, 0) == At(data, q, 0) && At(data, p, 1) < At(data, q, 1) {
      assert LessAt(data, p, q, 1);
    }
  }

  ghost predicate ByPairs(data: seq<Byte>, g: seq<nat>) {
    |g| == |data| && forall p: nat :: p < |data| ==> g[p] == Below(Pairs(data), Pair(data, p), |data|)
  }

  lemma PairNumber(data: seq<Byte>, p: nat, q: nat)
    requires p < |data| && q < |data|
    ensures Below(Pairs(data), Pair(data, p), |data|) < Below(Pairs(data), Pair(data, q), |data|) <==>
            Pair(data, p) < Pair(data, q)
  {
    var n := |data|;
    PlaceInside(Pairs(data), p);
    if Pair(data, p) < Pair(data, q) {
      BelowGrows(Pairs(data), Pair(data, p) + 1, Pair(data, q), n);
    } else {
      BelowGrows(Pairs(data), Pair(data, q), Pair(data, p), n);
    }
  }

  lemma PairsOrdered(data: seq<Byte>, g: seq<nat>)
    requires data != [] && ByPairs(data, g)
    ensures Ordered(data, g) && Level(data, g, 2)
  {
    forall p: nat, q: nat | p < |g| && q < |g|
      ensures (g[p] < g[q] ==> Less(data, p, q)) && (g[p] == g[q] ==> Shares(data, p, q, 2))
    {
      PairNumber(data, p, q);
      PairNumber(data, q, p);
      PairOrder(data, p, q);
    }
  }

  // ----- The program ---------------------------------------------------------------------------

  ghost predicate Counted(data: seq<Byte>, counters: seq<nat>, m: nat) {
    m <= |data| && |counters| >= PAIRS && forall v: nat :: v < PAIRS ==> counters[v] == Count(Pairs(data), v, m)
  }

  method CountPairs(data: seq<Byte>, counters: array<nat>)
    requires data != [] && counters.Length >= PAIRS
    modifies counters
    ensures Counted(data, counters[..], |data|)
  {
    var v := 0;
    while v < PAIRS
      invariant 0 <= v <= PAIRS && forall u: nat :: u < v ==> counters[u] == 0
    {
      counters[v] := 0;
      v := v + 1;
    }
    var i := 0;
    while i < |data| - 1
      invariant 0 <= i <= |data| - 1 && Counted(data, counters[..], i)
    {
      var pair := Hash(data[i], data[i + 1]);
      counters[pair] := counters[pair] + 1;
      i := i + 1;
    }
    var pair := Hash(data[i], data[0]);
    counters[pair] := counters[pair] + 1;
  }

  ghost predicate Starts(data: seq<Byte>, counters: seq<nat>, m: nat) {
    && m <= |data| && |counters| >= PAIRS
    && forall v: nat :: v < PAIRS ==> counters[v] == Below(Pairs(data), v, |data|) + Count(Pairs(data), v, m)
  }

  method SumCounts(data: seq<Byte>, counters: array<nat>)
    requires data != [] && Counted(data, counters[..], |data|)
    modifies counters
    ensures Starts(data, counters[..], 0)
  {
    var sum := 0;
    var v := 0;
    while v < PAIRS
      invariant 0 <= v <= PAIRS && sum == Below(Pairs(data), v, |data|)
      invariant forall u: nat :: u < v ==> counters[u] == Below(Pairs(data), u, |data|)
      invariant forall u: nat :: v <= u < PAIRS ==> counters[u] == Count(Pairs(data), u, |data|)
    {
      BelowNext(Pairs(data), v, |data|);
      var groupSize := counters[v];
      if groupSize > 0 {
        sum := sum + groupSize;
      }
      counters[v] := sum - groupSize;
      v := v + 1;
    }
  }

  method NumberPairs(data: seq<Byte>, counters: array<nat>, groups: array<nat>)
    requires data != [] && Starts(data, counters[..], 0) && groups.Length == |data| && counters != groups
    modifies groups
    ensures ByPairs(data, groups[..])
  {
    var i := 0;
    while i < |data| - 1
      invariant 0 <= i <= |data| - 1
      invariant forall p: nat :: p < i ==> groups[p] == Below(Pairs(data), Pair(data, p), |data|)
    {
      groups[i] := counters[Hash(data[i], data[i + 1])];
      i := i + 1;
    }
    groups[i] := counters[Hash(data[i], data[0])];
  }

  method PlacePairs(data: seq<Byte>, counters: array<nat>, indices: array<nat>)
    requires data != [] && Starts(data, counters[..], 0) && indices.Length == |data| && counters != indices
    modifies counters, indices
    ensures Starts(data, counters[..], |data|) && Placed(Pairs(data), indices[..], |data|)
  {
    hide Placed, Below;
    PlacedNone(Pairs(data), indices[..]);
    var i := 0;
    while i < |data| - 1
      invariant 0 <= i <= |data| - 1 && Starts(data, counters[..], i) && Placed(Pairs(data), indices[..], i)
    {
      PlaceOne(data, counters, indices, i, Hash(data[i], data[i + 1]));
      i := i + 1;
    }
    PlaceOne(data, counters, indices, i, Hash(data[i], data[0]));
  }

  method PlaceOne(data: seq<Byte>, counters: array<nat>, indices: array<nat>, i: nat, pair: nat)
    requires counters != indices && i < |data| && pair == Pair(data, i)
    requires Starts(data, counters[..], i) && Placed(Pairs(data), indices[..], i)
    modifies counters, indices
    ensures Starts(data, counters[..], i + 1) && Placed(Pairs(data), indices[..], i + 1)
  {
    hide Below, Placed;
    PlacedNext(Pairs(data), indices[..], i);
    PlacedLength(Pairs(data), indices[..], i);
    ghost var words := indices[..];
    indices[counters[pair]] := i;
    counters[pair] := counters[pair] + 1;
    assert indices[..] == words[Place(Pairs(data), i) := i];
  }

  lemma PlainPositions(data: seq<Byte>, words: seq<nat>)
    requires Placed(Pairs(data), words, |data|) && |data| <= INDEXES
    ensures Plain(words) && Raw(words) == words
  {
    AllPlaced(Pairs(data), words);
    PlainRaw(words);
  }

  lemma PairTile(data: seq<Byte>, words: seq<nat>, g: seq<nat>, tile: seq<nat>, first: nat, v: nat)
    requires Placed(Pairs(data), words, |data|) && ByPairs(data, g) && first + |tile| <= |words|
    requires first == Below(Pairs(data), v, |data|) && first + |tile| == Below(Pairs(data), v + 1, |data|)
    requires Raw(tile) == words[first..first + |tile|]
    ensures Numbered(tile, g, first, |tile| >= 2)
  {
    AllPlaced(Pairs(data), words);
    forall k: nat | k < |tile|
      ensures IndexOf(tile[k]) < |g| && g[IndexOf(tile[k])] == first
    {
      assert Raw(tile)[k] == words[first + k];
      KeyOfPlace(Pairs(data), words[first + k], v);
    }
  }

  // Groups are marked up to place prev.
  ghost predicate Marked(w: seq<nat>, words: seq<nat>, g: seq<nat>, prev: nat) {
    && prev <= |w| == |words| && Tiled(w[..prev], g, 0) && w[prev..] == words[prev..] && Raw(w) == words
  }

  lemma MarkedNext(data: seq<Byte>, w: seq<nat>, w': seq<nat>, words: seq<nat>, g: seq<nat>, prev: nat, next: nat,
                   v: nat)
    requires Marked(w, words, g, prev) && Placed(Pairs(data), words, |data|) && ByPairs(data, g) && |data| <= INDEXES
    requires prev == Below(Pairs(data), v, |data|) < next == Below(Pairs(data), v + 1, |data|) <= |w|
    requires |w'| == |w| && w'[..prev] == w[..prev] && w'[next..] == w[next..]
    requires Tile(w'[prev..next], next - prev >= 2) && Raw(w'[prev..next]) == words[prev..next]
    ensures Marked(w', words, g, next)
  {
    hide Placed, Tiled, Tile, ByPairs, Numbered, Below, Plain, Raw;
    var tile := w'[prev..next];
    RawSize(tile, words[prev..next]);
    PairTile(data, words, g, tile, prev, v);
    TiledOne(tile, g, prev, next - prev >= 2);
    TiledConcat(w'[..prev], tile, g, 0);
    assert w'[..next] == w'[..prev] + tile;
    PlainPositions(data, words);
    PlainPart(words, prev, next);
    SameRaw(w, w', words, prev, next);
  }

  lemma RawSize(s: seq<nat>, t: seq<nat>)
    requires Raw(s) == t
    ensures |s| == |t|
  {}

  method MarkPair(ghost data: seq<Byte>, indices: array<nat>, prev: nat, size: nat, ghost v: nat, ghost g: seq<nat>,
                  ghost words: seq<nat>)
    requires Marked(indices[..], words, g, prev) && Placed(Pairs(data), words, |data|) && ByPairs(data, g)
    requires |data| == indices.Length <= INDEXES && size >= 1
    requires prev == Below(Pairs(data), v, |data|) && prev + size == Below(Pairs(data), v + 1, |data|)
    modifies indices
    ensures Marked(indices[..], words, g, prev + size)
  {
    hide Placed, Tile, ByPairs, Numbered, Below, Plain, Marked, Raw;
    ghost var w := indices[..];
    PlainPositions(data, words);
    StillPlain(w, words, g, prev, prev + size);
    assert w[prev..prev + size] == indices[prev..prev + size];
    SetGroupSize(indices, prev, size);
    MarkedNext(data, w, indices[..], words, g, prev, prev + size, v);
  }

  lemma StillPlain(w: seq<nat>, words: seq<nat>, g: seq<nat>, a: nat, b: nat)
    requires Marked(w, words, g, a) && Plain(words) && a <= b <= |w|
    ensures |w| == |words| && Plain(w[a..b]) && w[a..b] == words[a..b]
  {
    assert w[a..b] == w[a..][..b - a] == words[a..b];
    PlainPart(words, a, b);
  }

  lemma SameRaw(w: seq<nat>, w': seq<nat>, words: seq<nat>, a: nat, b: nat)
    requires a <= b <= |w| == |w'| == |words| && w'[..a] == w[..a] && w'[b..] == w[b..] && w[a..] == words[a..]
    requires Raw(w) == words && Raw(w'[a..b]) == words[a..b] && Raw(words[a..b]) == words[a..b]
    ensures Raw(w') == words && w'[b..] == words[b..]
  {
    hide Raw;
    assert w == w[..a] + w[a..b] + w[b..];
    assert w' == w'[..a] + w'[a..b] + w'[b..];
    assert w[a..b] == w[a..][..b - a] == words[a..b];
    assert w[b..] == w[a..][b - a..] == words[b..];
    RawParts(w[..a], w'[a..b], words[a..b], w[b..]);
  }

  lemma PlainPart(s: seq<nat>, i: nat, j: nat)
    requires Plain(s) && i <= j <= |s|
    ensures Plain(s[i..j]) && Raw(s[i..j]) == s[i..j]
  {}

  lemma RawParts(s: seq<nat>, t: seq<nat>, t': seq<nat>, u: seq<nat>)
    requires Raw(t) == Raw(t')
    ensures Raw(s + t + u) == Raw(s + t' + u)
  {
    RawConcat(s, t);
    RawConcat(s + t, u);
    RawConcat(s, t');
    RawConcat(s + t', u);
  }

  // Each pair's places become a group.
  method MarkPairs(data: seq<Byte>, counters: array<nat>, indices: array<nat>, ghost g: seq<nat>)
    requires 1 <= |data| <= INDEXES && Starts(data, counters[..], |data|)
    requires Placed(Pairs(data), indices[..], |data|) && counters != indices && ByPairs(data, g)
    modifies indices
    ensures indices.Length == |data| && IsPermutation(Raw(indices[..])) && Tiled(indices[..], g, 0)
  {
    hide Below, Placed, Tiled, Tile, IsPermutation, ByPairs, Plain, Marked;
    ghost var words := indices[..];
    AllPlaced(Pairs(data), words);
    PlacedLength(Pairs(data), words, |data|);
    PlainPositions(data, words);
    NoneMarked(words, g);
    var prev := 0;
    var v := 0;
    while v < PAIRS
      invariant 0 <= v <= PAIRS && prev == Below(Pairs(data), v, |data|) && indices.Length == |data|
      invariant Marked(indices[..], words, g, prev)
    {
      BelowNext(Pairs(data), v, |data|);
      var groupSize: nat := counters[v] - prev;
      if groupSize != 0 {
        MarkPair(data, indices, prev, groupSize, v, g, words);
        prev := counters[v];
      }
      v := v + 1;
    }
    AllBelow(Pairs(data), PAIRS, |data|);
    AllMarked(indices[..], words, g);
  }

  lemma NoneMarked(words: seq<nat>, g: seq<nat>)
    requires Raw(words) == words
    ensures Marked(words, words, g, 0)
  {}

  lemma AllMarked(w: seq<nat>, words: seq<nat>, g: seq<nat>)
    requires Marked(w, words, g, |w|)
    ensures Tiled(w, g, 0) && Raw(w) == words
  {
    assert w[..|w|] == w;
  }
}
