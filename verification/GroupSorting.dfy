// One group of the block sort, sorted in place by the numbers h places ahead.

module GroupSorting {
  import opened Words
  import opened Rotations
  import opened GroupOrder
  import opened GroupWords
  import opened Permutations
  import HeapSorting

  const TEMP_SIZE := 0x1_0000

  function Members(s: seq<nat>): set<nat> { set q: nat | q in s }

  // A group that is waiting: its positions, all with the number a of its first place.
  ghost predicate Waiting(c: Round, s: seq<nat>, g: seq<nat>, a: nat) {
    Sound(c, g) && s != [] && |s| <= INDEXES && Plain(s) && Once(s) && Block(c, g, Members(s), a, a + |s|)
  }

  // What sorting the group s does: s and the numbers g become s' and g'.
  ghost predicate Sorted(c: Round, s: seq<nat>, g: seq<nat>, s': seq<nat>, g': seq<nat>, a: nat, more: bool) {
    && |s'| == |s| && multiset(Raw(s')) == multiset(s)
    && Settled(c, g, g', Members(s), a, a + |s|)
    && Tiled(s', g', a) && (!more ==> Numbered(s', g', a, false))
  }

  ghost predicate AllTogether(c: Round, m: set<nat>)
    requires c.data != [] && |c.data| == |c.start|
  {
    forall p: nat, q: nat :: p in m && q in m ==> Key(c, c.start, p) == Key(c, c.start, q)
  }

  lemma WaitingFacts(c: Round, s: seq<nat>, g: seq<nat>, a: nat, k: nat)
    requires Waiting(c, s, g, a) && k < |s|
    ensures s[k] in Members(s) && s[k] < |g| == |c.data| && g[s[k]] == a && IndexOf(s[k]) == s[k]
  {}

  lemma SortedOne(c: Round, s: seq<nat>, g: seq<nat>, a: nat)
    requires Waiting(c, s, g, a) && |s| == 1
    ensures Sorted(c, s, g, s, g, a, false)
  {
    hide Sound;
    Lengths(c, g);
    WaitingFacts(c, s, g, a, 0);
    PlainRaw(s);
    assert Tile(s, false);
    TiledOne(s, g, a, false);
  }

  lemma SortedWhole(c: Round, s: seq<nat>, g: seq<nat>, s': seq<nat>, a: nat)
    requires Waiting(c, s, g, a) && c.data != [] && |c.data| == |c.start| && AllTogether(c, Members(s))
    requires Tile(s', true) && Raw(s') == s
    ensures Sorted(c, s, g, s', g, a, true)
  {
    hide Sound, Tile, Key;
    Lengths(c, g);
    forall k | 0 <= k < |s'|
      ensures IndexOf(s'[k]) < |g| && g[IndexOf(s'[k])] == a
    {
      WaitingFacts(c, s, g, a, k);
    }
    TiledOne(s', g, a, true);
  }

  // The order of the positions in a group does not matter.
  lemma WaitingPermuted(c: Round, s: seq<nat>, t: seq<nat>, g: seq<nat>, a: nat)
    requires Waiting(c, s, g, a) && multiset(t) == multiset(s)
    ensures Waiting(c, t, g, a) && Members(t) == Members(s)
  {
    assert |multiset(t)| == |t| && |multiset(s)| == |s|;
    MembersSame(s, t);
    forall k | 0 <= k < |t|
      ensures t[k] < INDEXES
    {
      assert t[k] in multiset(t);
      assert t[k] in s;
    }
  }

  lemma MembersSame(s: seq<nat>, t: seq<nat>)
    requires multiset(s) == multiset(t)
    ensures Members(s) == Members(t)
  {
    forall q: nat
      ensures q in s <==> q in t
    {
      assert q in s <==> q in multiset(s);
      assert q in t <==> q in multiset(t);
    }
  }

  // ----- Two halves ----------------------------------------------------------------------------

  ghost predicate KeysBelow(c: Round, g: seq<nat>, s: seq<nat>, mid: nat)
    requires c.data != [] && |g| == |c.data|
  {
    forall k :: 0 <= k < |s| ==> Key(c, g, s[k]) < mid
  }

  ghost predicate KeysFrom(c: Round, g: seq<nat>, s: seq<nat>, mid: nat)
    requires c.data != [] && |g| == |c.data|
  {
    forall k :: 0 <= k < |s| ==> Key(c, g, s[k]) >= mid
  }

  // The upper half gets the number of its own first place.
  ghost predicate UpperNumbered(g: seq<nat>, g': seq<nat>, u: seq<nat>, b: nat) {
    && |g'| == |g|
    && forall q: nat :: q < |g| ==> g'[q] == if q in u then b else g[q]
  }

  lemma Halves(l: seq<nat>, u: seq<nat>)
    requires Once(l + u)
    ensures Once(l) && Once(u) && Members(l + u) == Members(l) + Members(u) && Members(l) !! Members(u)
  {
    OnceParts(l, u);
    forall q: nat | q in l
      ensures q !in u
    {
      OnceHalves(l, u, q);
    }
  }

  lemma HalvesBlock(c: Round, g: seq<nat>, g': seq<nat>, l: set<nat>, u: set<nat>, a: nat, i: nat, b: nat)
    requires Block(c, g, l + u, a, b) && l !! u && a < i < b && |g'| == |g|
    requires forall q: nat :: q < |g| ==> g'[q] == if q in u then i else g[q]
    ensures Block(c, g', l, a, i) && Block(c, g', u, i, b) && Renumbered(g, g', l + u, a, b)
  {}

  lemma HalvesByKey(c: Round, l: seq<nat>, u: seq<nat>, g: seq<nat>, g': seq<nat>, a: nat, i: nat, mid: nat)
    requires c.data != [] && |g| == |c.data| == |g'|
    requires KeysBelow(c, g, l, mid) && KeysFrom(c, g, u, mid) && a < i
    requires forall q: nat :: q < |g| && q in l + u ==> g'[q] == if q in u then i else a
    ensures ByKey(c, g, g', Members(l + u))
  {
    hide Key;
    forall p: nat, q: nat | p < |g| && q < |g| && p in Members(l + u) && q in Members(l + u) && g'[p] < g'[q]
      ensures Key(c, g, p) < Key(c, g, q)
    {
      assert p in l && q in u;
    }
  }

  lemma HalvesWait(c: Round, l: seq<nat>, u: seq<nat>, g: seq<nat>, g': seq<nat>, a: nat, mid: nat)
    requires Waiting(c, l + u, g, a) && l != [] && u != [] && c.data != [] && |g| == |c.data|
    requires KeysBelow(c, g, l, mid) && KeysFrom(c, g, u, mid) && UpperNumbered(g, g', u, a + |l|)
    ensures Waiting(c, l, g', a) && Waiting(c, u, g', a + |l|) && Renumbered(g, g', Members(l + u), a, a + |l| + |u|)
  {
    hide Sound, Key, Once, KeysBelow, KeysFrom, ByKey;
    Halves(l, u);
    HalvesBlock(c, g, g', Members(l), Members(u), a, a + |l|, a + |l| + |u|);
    HalvesByKey(c, l, u, g, g', a, a + |l|, mid);
    SplitKeeps(c, g, g', Members(l + u), a, a + |l| + |u|);
    PlainHalves(l, u);
  }

  lemma PlainHalves(l: seq<nat>, u: seq<nat>)
    requires Plain(l + u)
    ensures Plain(l) && Plain(u)
  {
    assert l == (l + u)[..|l|] && u == (l + u)[|l|..];
  }

  lemma HalvesSorted(c: Round, g: seq<nat>, g1: seq<nat>, l: seq<nat>, l': seq<nat>, g2: seq<nat>,
                     u: seq<nat>, u': seq<nat>, g3: seq<nat>, a: nat, m1: bool, m2: bool)
    requires l != [] && u != [] && Once(l + u) && ValidRound(c) && |g| == |c.data|
    requires Renumbered(g, g1, Members(l + u), a, a + |l| + |u|)
    requires Sorted(c, l, g1, l', g2, a, m1) && Sorted(c, u, g2, u', g3, a + |l|, m2)
    ensures Sorted(c, l + u, g, l' + u', g3, a, m1 || m2)
  {
    hide Sound, ValidRound, Key, Once, Numbered, Tiled, Raw, Members, Deeper;
    Halves(l, u);
    RawConcat(l', u');
    HalvesSettled(c, g1, g2, g3, Members(l), Members(u), a, a + |l|, a + |l| + |u|);
    RenumberedTwice(g, g1, g3, Members(l + u), a, a + |l| + |u|);
    SameNumbers(l, l', u, g2, g3, a, a + |l| + |u|);
    TiledFrame(l', g2, g3, a);
    TiledConcat(l', u', g3, a);
    if !m1 && !m2 { NumberedConcat(l', u', g2, g3, a); }
  }

  lemma RenumberedTwice(g: seq<nat>, g1: seq<nat>, g2: seq<nat>, m: set<nat>, a: nat, b: nat)
    requires Renumbered(g, g1, m, a, b) && Renumbered(g1, g2, m, a, b)
    ensures Renumbered(g, g2, m, a, b)
  {}

  // Settling the upper half leaves the numbers of the lower one.
  lemma SameNumbers(l: seq<nat>, l': seq<nat>, u: seq<nat>, g2: seq<nat>, g3: seq<nat>, i: nat, b: nat)
    requires multiset(Raw(l')) == multiset(l) && Members(l) !! Members(u) && Renumbered(g2, g3, Members(u), i, b)
    ensures |g3| == |g2|
    ensures forall k :: 0 <= k < |l'| && IndexOf(l'[k]) < |g2| ==> g3[IndexOf(l'[k])] == g2[IndexOf(l'[k])]
  {
    forall k | 0 <= k < |l'| && IndexOf(l'[k]) < |g2|
      ensures g3[IndexOf(l'[k])] == g2[IndexOf(l'[k])]
    {
      assert Raw(l')[k] in multiset(Raw(l'));
      assert IndexOf(l'[k]) in Members(l);
    }
  }

  lemma NumberedConcat(l: seq<nat>, u: seq<nat>, g2: seq<nat>, g3: seq<nat>, a: nat)
    requires Numbered(l, g2, a, false) && Numbered(u, g3, a + |l|, false) && |g3| == |g2|
    requires forall k :: 0 <= k < |l| && IndexOf(l[k]) < |g2| ==> g3[IndexOf(l[k])] == g2[IndexOf(l[k])]
    ensures Numbered(l + u, g3, a, false)
  {}

  // ----- The range sort ------------------------------------------------------------------------

  ghost predicate Arrays(c: Round, h: nat, indices: array<nat>, temp: array<nat>, groups: array<nat>) {
    && indices != temp && temp != groups && groups != indices
    && 1 <= |c.data| == indices.Length == groups.Length <= INDEXES && TEMP_SIZE <= temp.Length
    && 1 <= c.h == h < |c.data|
  }

  lemma AheadIs(n: nat, p: nat, h: nat)
    requires p < n && h < n
    ensures Ahead(n, p, h) == if p + h >= n then p + h - n else p + h
  {
    if p + h >= n { ModUnique(p + h, n, 1, p + h - n); }
  }

  // The number of the position h places ahead, in the cyclic order.
  method ReadKey(ghost c: Round, h: nat, p: nat, ghost indices: array<nat>, ghost temp: array<nat>, groups: array<nat>)
    returns (key: nat)
    requires Arrays(c, h, indices, temp, groups) && p < groups.Length
    ensures key == Key(c, groups[..], p)
  {
    hide Ahead;
    var sp := p + h;
    if sp >= groups.Length {
      sp := sp - groups.Length;
    }
    AheadIs(groups.Length, p, h);
    key := groups[sp];
  }

  method Swap(indices: array<nat>, a: nat, size: nat, i: nat, j: nat)
    requires a + size <= indices.Length && i < size && j < size
    modifies indices
    ensures indices[..a] == old(indices[..a]) && indices[a + size..] == old(indices[a + size..])
    ensures indices[a..a + size] == old(indices[a..a + size][i := indices[a + j]][j := indices[a + i]])
    ensures multiset(indices[a..a + size]) == multiset(old(indices[a..a + size]))
  {
    HeapSorting.SwapSame(indices[a..a + size], i, j);
    indices[a + i], indices[a + j] := indices[a + j], indices[a + i];
  }

  // The last place between i and j whose key is less than mid, or i if there is none.
  method FindBelow(ghost c: Round, h: nat, a: nat, ghost size: nat, indices: array<nat>, ghost temp: array<nat>,
                   groups: array<nat>, mid: nat, i: nat, from: nat) returns (j: nat)
    requires Arrays(c, h, indices, temp, groups) && i < from <= size && a + size <= indices.Length
    requires Waiting(c, indices[a..a + size], groups[..], a)
    ensures i <= j < from && (i < j ==> Key(c, groups[..], indices[a..a + size][j]) < mid)
    ensures KeysFrom(c, groups[..], indices[a..a + size][j + 1..from], mid)
  {
    hide Waiting, Key;
    ghost var s, g := indices[a..a + size], groups[..];
    j := from - 1;
    while j > i
      invariant i <= j < from && KeysFrom(c, g, s[j + 1..from], mid)
    {
      WaitingFacts(c, s, g, a, j);
      assert s[j] == indices[a + j];
      var key := ReadKey(c, h, indices[a + j], indices, temp, groups);
      if key < mid {
        break;
      }
      assert s[j..from] == [s[j]] + s[j + 1..from];
      j := j - 1;
    }
  }

  // Below i the keys are less than mid, from j on they are not.
  ghost predicate Parted(c: Round, g: seq<nat>, s: seq<nat>, i: nat, j: nat, mid: nat)
    requires c.data != [] && |g| == |c.data|
  {
    i <= j <= |s| && KeysBelow(c, g, s[..i], mid) && KeysFrom(c, g, s[j..], mid)
  }

  lemma PartedBelow(c: Round, g: seq<nat>, s: seq<nat>, i: nat, j: nat, mid: nat)
    requires c.data != [] && |g| == |c.data| && Parted(c, g, s, i, j, mid) && i < j && Key(c, g, s[i]) < mid
    ensures Parted(c, g, s, i + 1, j, mid)
  {
    assert s[..i + 1] == s[..i] + [s[i]];
  }

  lemma PartedSwap(c: Round, g: seq<nat>, s: seq<nat>, i: nat, j: nat, k: nat, mid: nat)
    requires c.data != [] && |g| == |c.data| && Parted(c, g, s, i, j, mid) && i < k < j
    requires Key(c, g, s[i]) >= mid && Key(c, g, s[k]) < mid && KeysFrom(c, g, s[k + 1..j], mid)
    ensures Parted(c, g, s[i := s[k]][k := s[i]], i + 1, k, mid)
  {
    var t := s[i := s[k]][k := s[i]];
    assert t[..i + 1] == s[..i] + [s[k]];
    assert t[k..] == [s[i]] + s[k + 1..j] + s[j..];
  }

  lemma PartedEnd(c: Round, g: seq<nat>, s: seq<nat>, i: nat, j: nat, mid: nat)
    requires c.data != [] && |g| == |c.data| && Parted(c, g, s, i, j, mid) && i < j
    requires Key(c, g, s[i]) >= mid && KeysFrom(c, g, s[i + 1..j], mid)
    ensures Parted(c, g, s, i, i, mid)
  {
    assert s[i..] == [s[i]] + s[i + 1..j] + s[j..];
  }

  method Partition(ghost c: Round, h: nat, a: nat, size: nat, indices: array<nat>, ghost temp: array<nat>,
                   groups: array<nat>, mid: nat) returns (i: nat)
    requires Arrays(c, h, indices, temp, groups) && 1 <= size && a + size <= indices.Length
    requires Waiting(c, indices[a..a + size], groups[..], a)
    modifies indices
    ensures indices[..a] == old(indices[..a]) && indices[a + size..] == old(indices[a + size..])
    ensures multiset(indices[a..a + size]) == multiset(old(indices[a..a + size]))
    ensures Parted(c, groups[..], indices[a..a + size], i, i, mid)
  {
    hide Waiting, Parted, KeysFrom, KeysBelow, Key;
    ghost var g := groups[..];
    var j := size;
    i := 0;
    PartedStart(c, g, indices[a..a + size], mid);
    while i < j
      invariant 0 <= i <= j <= size && groups[..] == g
      invariant indices[..a] == old(indices[..a]) && indices[a + size..] == old(indices[a + size..])
      invariant multiset(indices[a..a + size]) == multiset(old(indices[a..a + size]))
      invariant Waiting(c, indices[a..a + size], g, a)
      invariant Parted(c, g, indices[a..a + size], i, j, mid)
      decreases j - i
    {
      ghost var s := indices[a..a + size];
      WaitingFacts(c, s, g, a, i);
      assert s[i] == indices[a + i];
      var key := ReadKey(c, h, indices[a + i], indices, temp, groups);
      if key >= mid {
        j := SwapBelow(c, h, a, size, indices, temp, groups, mid, i, j);
        if i >= j {
          break;
        }
      } else {
        PartedBelow(c, g, s, i, j, mid);
      }
      i := i + 1;
    }
  }

  // Exchanges the position at i with the last one before from that belongs below, if there is one.
  method SwapBelow(ghost c: Round, h: nat, a: nat, size: nat, indices: array<nat>, ghost temp: array<nat>,
                   groups: array<nat>, mid: nat, i: nat, from: nat) returns (j: nat)
    requires Arrays(c, h, indices, temp, groups) && i < from <= size && a + size <= indices.Length
    requires Waiting(c, indices[a..a + size], groups[..], a) && Key(c, groups[..], indices[a..a + size][i]) >= mid
    requires Parted(c, groups[..], indices[a..a + size], i, from, mid)
    modifies indices
    ensures indices[..a] == old(indices[..a]) && indices[a + size..] == old(indices[a + size..])
    ensures multiset(indices[a..a + size]) == multiset(old(indices[a..a + size]))
    ensures Waiting(c, indices[a..a + size], groups[..], a) && i <= j < from
    ensures Parted(c, groups[..], indices[a..a + size], if i < j then i + 1 else i, j, mid)
  {
    hide Waiting, Parted, KeysFrom, KeysBelow, Key;
    ghost var s, g := indices[a..a + size], groups[..];
    j := FindBelow(c, h, a, size, indices, temp, groups, mid, i, from);
    if i < j {
      PartedSwap(c, g, s, i, from, j, mid);
      Swap(indices, a, size, i, j);
      WaitingPermuted(c, s, indices[a..a + size], g, a);
    } else {
      PartedEnd(c, g, s, i, from, mid);
    }
  }

  lemma PartedStart(c: Round, g: seq<nat>, s: seq<nat>, mid: nat)
    requires c.data != [] && |g| == |c.data|
    ensures Parted(c, g, s, 0, |s|, mid)
  {}
}
