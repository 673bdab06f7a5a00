// A group of any size: split by ranges of the numbers ahead, until it is small or cannot be split.

module RangeSorting {
  import opened Words
  import opened Rotations
  import opened GroupOrder
  import opened GroupWords
  import opened Permutations
  import opened GroupSorting
  import opened KeySorting
  import HeapSorting

  ghost predicate RefsFit(n: nat, numRefBits: nat) { Pow2(numRefBits) <= TEMP_SIZE && n * Pow2(numRefBits) <= WORD }

  // Every position of the group has the same number ahead.
  method AreTogether(ghost c: Round, h: nat, a: nat, size: nat, indices: array<nat>, ghost temp: array<nat>,
                     groups: array<nat>) returns (together: bool)
    requires Arrays(c, h, indices, temp, groups) && 2 <= size && a + size <= indices.Length
    requires Waiting(c, indices[a..a + size], groups[..], a)
    ensures |c.start| == |c.data| && (together ==> AllTogether(c, Members(indices[a..a + size])))
  {
    hide Waiting, Key, LikeFirst, AllTogether;
    ghost var s, g := indices[a..a + size], groups[..];
    WaitingPlain(c, s, g, a);
    WaitingFacts(c, s, g, a, 0);
    var group := ReadKey(c, h, indices[a], indices, temp, groups);
    FirstLike(c, g, s, group);
    var j := 1;
    while j < size
      invariant 1 <= j <= size && LikeFirst(c, g, s[..j], group)
    {
      WaitingFacts(c, s, g, a, j);
      assert s[j] == indices[a + j];
      var key := ReadKey(c, h, indices[a + j], indices, temp, groups);
      if key != group {
        break;
      }
      NextLike(c, g, s, group, j);
      j := j + 1;
    }
    together := j == size;
    if together {
      assert s[..size] == s;
      SameTogether(c, s, g, a, group);
    }
  }

  lemma FirstLike(c: Round, g: seq<nat>, s: seq<nat>, key: nat)
    requires c.data != [] && |g| == |c.data| && s != [] && Key(c, g, s[0]) == key
    ensures LikeFirst(c, g, s[..1], key)
  {}

  lemma NextLike(c: Round, g: seq<nat>, s: seq<nat>, key: nat, j: nat)
    requires c.data != [] && |g| == |c.data| && j < |s| && LikeFirst(c, g, s[..j], key) && Key(c, g, s[j]) == key
    ensures LikeFirst(c, g, s[..j + 1], key)
  {
    assert s[..j + 1] == s[..j] + [s[j]];
  }

  // A group whose range is down to one number.
  lemma RangeOfOne(c: Round, s: seq<nat>, g: seq<nat>, a: nat, left: nat)
    requires Waiting(c, s, g, a) && c.data != [] && |c.start| == |c.end| == |c.data| && AllMeet(c, Members(s), left, 1)
    ensures AllTogether(c, Members(s))
  {
    forall p: nat, q: nat | p in Members(s) && q in Members(s)
      ensures Key(c, c.start, p) == Key(c, c.start, q)
    {
      MeetsOne(c, p, q, left);
    }
  }

  // Narrows the range until it splits the group at i, or is down to one number.
  method SplitRange(ghost c: Round, h: nat, a: nat, size: nat, indices: array<nat>, ghost temp: array<nat>,
                    groups: array<nat>, left0: nat, range0: nat)
    returns (split: bool, i: nat, mid: nat, left: nat, range: nat)
    requires Arrays(c, h, indices, temp, groups) && 2 <= size && a + size <= indices.Length
    requires Waiting(c, indices[a..a + size], groups[..], a) && |c.start| == |c.end| == |c.data|
    requires AllMeet(c, Members(indices[a..a + size]), left0, range0) && range0 >= 1
    modifies indices
    ensures indices[..a] == old(indices[..a]) && indices[a + size..] == old(indices[a + size..])
    ensures multiset(indices[a..a + size]) == multiset(old(indices[a..a + size]))
    ensures Waiting(c, indices[a..a + size], groups[..], a)
    ensures AllMeet(c, Members(indices[a..a + size]), left, range)
    ensures !split ==> range == 1
    ensures split ==> 0 < i < size && left < mid < left + range
    ensures split ==> Parted(c, groups[..], indices[a..a + size], i, i, mid)
  {
    hide Waiting, AllMeet, Parted, Members;
    ghost var g := groups[..];
    left, range, i, mid := left0, range0, 0, 0;
    split := false;
    while range > 1 && !split
      invariant groups[..] == g && range >= 1
      invariant indices[..a] == old(indices[..a]) && indices[a + size..] == old(indices[a + size..])
      invariant multiset(indices[a..a + size]) == multiset(old(indices[a..a + size]))
      invariant Waiting(c, indices[a..a + size], g, a) && AllMeet(c, Members(indices[a..a + size]), left, range)
      invariant split ==> 0 < i < size && left < mid < left + range && Parted(c, g, indices[a..a + size], i, i, mid)
      decreases !split, range
    {
      ghost var s := indices[a..a + size];
      mid := left + (range + 1) / 2;
      i := Partition(c, h, a, size, indices, temp, groups, mid);
      WaitingPermuted(c, s, indices[a..a + size], g, a);
      if i == 0 {
        AllAbove(c, indices[a..a + size], g, a, left, range, mid);
        range := range - (mid - left);
        left := mid;
      } else if i == size {
        AllBelow(c, indices[a..a + size], g, a, left, range, mid);
        range := mid - left;
      } else {
        PartedInside(c, g, indices[a..a + size], i, mid);
        split := true;
      }
    }
  }

  lemma PartedInside(c: Round, g: seq<nat>, s: seq<nat>, i: nat, mid: nat)
    requires c.data != [] && |g| == |c.data| && Parted(c, g, s, i, i, mid)
    ensures i <= |s|
  {}

  lemma AllAbove(c: Round, s: seq<nat>, g: seq<nat>, a: nat, left: nat, range: nat, mid: nat)
    requires Waiting(c, s, g, a) && c.data != [] && |c.start| == |c.end| == |g| == |c.data|
    requires AllMeet(c, Members(s), left, range) && left <= mid <= left + range && Parted(c, g, s, 0, 0, mid)
    ensures AllMeet(c, Members(s), mid, range - (mid - left))
  {
    assert s[0..] == s;
    KeysMeet(c, s, g, left, range, mid);
  }

  lemma AllBelow(c: Round, s: seq<nat>, g: seq<nat>, a: nat, left: nat, range: nat, mid: nat)
    requires Waiting(c, s, g, a) && c.data != [] && |c.start| == |c.end| == |g| == |c.data|
    requires AllMeet(c, Members(s), left, range) && left <= mid <= left + range && Parted(c, g, s, |s|, |s|, mid)
    ensures AllMeet(c, Members(s), left, mid - left)
  {
    assert s[..|s|] == s;
    KeysMeet(c, s, g, left, range, mid);
  }

  predicate Fit(s: seq<nat>, n: nat) { forall k :: 0 <= k < |s| ==> s[k] < n }

  // The positions from place from on get the number a.
  method NumberUpper(indices: array<nat>, from: nat, to: nat, groups: array<nat>, a: nat)
    requires indices != groups && from <= to <= indices.Length
    requires Fit(indices[from..to], groups.Length)
    modifies groups
    ensures UpperNumbered(old(groups[..]), groups[..], indices[from..to], a)
  {
    ghost var g := groups[..];
    var j := from;
    while j < to
      invariant from <= j <= to
      invariant forall q: nat :: q < |g| ==> groups[q] == if q in indices[from..j] then a else g[q]
    {
      assert indices[from..j + 1] == indices[from..j] + [indices[j]];
      assert indices[from..to][j - from] == indices[j];
      groups[indices[j]] := a;
      j := j + 1;
    }
  }

  lemma UpperWaits(c: Round, l: seq<nat>, u: seq<nat>, g1: seq<nat>, l': seq<nat>, g2: seq<nat>, a: nat, more: bool)
    requires Waiting(c, u, g1, a + |l|) && Sorted(c, l, g1, l', g2, a, more) && Once(l + u) && l != []
    ensures Waiting(c, u, g2, a + |l|)
  {
    hide Sound, Tiled, Numbered, Raw, Deeper, Once;
    Halves(l, u);
    UpperBlock(c, g1, g1, {}, Members(u), a, a + |l|, a + |l| + |u|);
    UpperBlock(c, g1, g2, Members(l), Members(u), a, a + |l|, a + |l| + |u|);
  }

  lemma SortedPermuted(c: Round, s: seq<nat>, t: seq<nat>, g: seq<nat>, s': seq<nat>, g': seq<nat>, a: nat, more: bool)
    requires Sorted(c, t, g, s', g', a, more) && multiset(t) == multiset(s)
    ensures Sorted(c, s, g, s', g', a, more)
  {
    assert |multiset(t)| == |t| && |multiset(s)| == |s|;
    MembersSame(s, t);
  }

  lemma LowerSlices(w: seq<nat>, w': seq<nat>, a: nat, m: nat, b: nat)
    requires a <= m <= b <= |w| == |w'| && w'[..a] == w[..a] && w'[m..] == w[m..]
    ensures w'[m..b] == w[m..b] && w'[b..] == w[b..]
  {
    assert w[m..b] == w[m..][..b - m] && w[b..] == w[m..][b - m..];
    assert w'[m..b] == w'[m..][..b - m] && w'[b..] == w'[m..][b - m..];
  }

  lemma UpperSlices(w: seq<nat>, w': seq<nat>, a: nat, m: nat, b: nat)
    requires a <= m <= b <= |w| == |w'| && w'[..m] == w[..m] && w'[b..] == w[b..]
    ensures w'[a..m] == w[a..m] && w'[..a] == w[..a] && w'[a..b] == w[a..m] + w'[m..b]
  {
    assert w[a..m] == w[..m][a..] && w[..a] == w[..m][..a];
    assert w'[a..m] == w'[..m][a..] && w'[..a] == w'[..m][..a];
  }

  // The halves of a split group.
  method SortHalves(ghost c: Round, h: nat, a: nat, size: nat, numRefBits: nat, indices: array<nat>, temp: array<nat>,
                    groups: array<nat>, i: nat, mid: nat, left: nat, range: nat) returns (more: bool)
    requires Arrays(c, h, indices, temp, groups) && RefsFit(indices.Length, numRefBits)
    requires 0 < i < size && a + size <= indices.Length && left < mid < left + range
    requires Waiting(c, indices[a..a + size], groups[..], a) && |c.start| == |c.end| == |c.data|
    requires AllMeet(c, Members(indices[a..a + size]), left, range)
    requires Parted(c, groups[..], indices[a..a + size], i, i, mid)
    modifies indices, temp, groups
    ensures indices[..a] == old(indices[..a]) && indices[a + size..] == old(indices[a + size..])
    ensures Sorted(c, old(indices[a..a + size]), old(groups[..]), indices[a..a + size], groups[..], a, more)
    decreases size, 0
  {
    hide Waiting, Sorted, AllMeet, Parted, KeysBelow, KeysFrom, Members, Once, Fit, UpperNumbered, Renumbered;
    ghost var w, s, g := indices[..], indices[a..a + size], groups[..];
    ghost var l, u := indices[a..a + i], indices[a + i..a + size];
    HalvesStart(c, s, l, u, g, a, i, mid, left, range);
    NumberUpper(indices, a + i, a + size, groups, a + i);
    ghost var g1 := groups[..];
    HalvesWait(c, l, u, g, g1, a, mid);
    var res := SortGroup(c, h, a, i, numRefBits, indices, temp, groups, left, mid - left);
    ghost var w1, l', g2 := indices[..], indices[a..a + i], groups[..];
    UpperWaits(c, l, u, g1, l', g2, a, res);
    LowerSlices(w, indices[..], a, a + i, a + size);
    more := SortGroup(c, h, a + i, size - i, numRefBits, indices, temp, groups, mid, range - (mid - left));
    ghost var u' := indices[a + i..a + size];
    UpperSlices(w1, indices[..], a, a + i, a + size);
    HalvesSorted(c, g, g1, l, l', g2, u, u', groups[..], a, res, more);
    more := res || more;
  }

  lemma HalvesStart(c: Round, s: seq<nat>, l: seq<nat>, u: seq<nat>, g: seq<nat>, a: nat, i: nat, mid: nat,
                    left: nat, range: nat)
    requires Waiting(c, s, g, a) && 0 < i < |s| && l == s[..i] && u == s[i..] && left < mid < left + range
    requires c.data != [] && |c.start| == |c.end| == |g| == |c.data|
    requires AllMeet(c, Members(s), left, range) && Parted(c, g, s, i, i, mid)
    ensures s == l + u && Once(l + u) && ValidRound(c) && Fit(u, |g|)
    ensures KeysBelow(c, g, l, mid) && KeysFrom(c, g, u, mid)
    ensures AllMeet(c, Members(l), left, mid - left) && AllMeet(c, Members(u), mid, range - (mid - left))
  {
    hide ValidRound, Key, Meets, Once;
    assert s == l + u;
    forall k | 0 <= k < |u|
      ensures u[k] < |g|
    {
      WaitingFacts(c, s, g, a, i + k);
    }
    KeysMeet(c, l, g, left, range, mid);
    KeysMeet(c, u, g, left, range, mid);
  }

  lemma KeysMeet(c: Round, s: seq<nat>, g: seq<nat>, left: nat, range: nat, mid: nat)
    requires Sound(c, g) && c.data != [] && |c.start| == |c.end| == |g| == |c.data|
    requires AllMeet(c, Members(s), left, range) && left <= mid <= left + range
    ensures KeysBelow(c, g, s, mid) ==> AllMeet(c, Members(s), left, mid - left)
    ensures KeysFrom(c, g, s, mid) ==> AllMeet(c, Members(s), mid, range - (mid - left))
  {
    hide Sound, Key, Meets;
    forall p: nat | p in s
      ensures Key(c, g, p) < mid ==> Meets(c, p, left, mid - left)
      ensures Key(c, g, p) >= mid ==> Meets(c, p, mid, range - (mid - left))
    {
      if Key(c, g, p) < mid {
        MeetsBelow(c, g, p, left, range, mid);
      } else {
        MeetsAbove(c, g, p, left, range, mid);
      }
    }
    if KeysBelow(c, g, s, mid) {
      forall p: nat | p in s
        ensures Meets(c, p, left, mid - left)
      {
        var k :| 0 <= k < |s| && s[k] == p;
      }
    }
    if KeysFrom(c, g, s, mid) {
      forall p: nat | p in s
        ensures Meets(c, p, mid, range - (mid - left))
      {
        var k :| 0 <= k < |s| && s[k] == p;
      }
    }
  }

  method SortGroup(ghost c: Round, h: nat, a: nat, size: nat, numRefBits: nat, indices: array<nat>, temp: array<nat>,
                   groups: array<nat>, left0: nat, range0: nat) returns (more: bool)
    requires Arrays(c, h, indices, temp, groups) && RefsFit(indices.Length, numRefBits)
    requires 1 <= size && a + size <= indices.Length && range0 >= 1
    requires Waiting(c, indices[a..a + size], groups[..], a) && |c.start| == |c.end| == |c.data|
    requires AllMeet(c, Members(indices[a..a + size]), left0, range0)
    modifies indices, temp, groups
    ensures indices[..a] == old(indices[..a]) && indices[a + size..] == old(indices[a + size..])
    ensures Sorted(c, old(indices[a..a + size]), old(groups[..]), indices[a..a + size], groups[..], a, more)
    decreases size, 1
  {
    hide Waiting, Sorted, AllMeet, Parted, Members, AllTogether, Tile;
    ghost var s, g := indices[a..a + size], groups[..];
    if size <= 1 {
      SortedOne(c, s, g, a);
      return false;
    }
    if size <= Pow2(numRefBits) && size <= range0 {
      more := SortSmall(c, h, a, size, Pow2(numRefBits), indices, temp, groups);
      return;
    }
    var together := AreTogether(c, h, a, size, indices, temp, groups);
    if together {
      WaitingPlain(c, s, g, a);
      SetGroupSize(indices, a, size);
      SortedWhole(c, s, g, indices[a..a + size], a);
      return true;
    }
    var split, i, mid, left, range := SplitRange(c, h, a, size, indices, temp, groups, left0, range0);
    ghost var t := indices[a..a + size];
    if !split {
      RangeOfOne(c, t, g, a, left);
      WaitingPlain(c, t, g, a);
      SetGroupSize(indices, a, size);
      SortedWhole(c, t, g, indices[a..a + size], a);
      more := true;
    } else {
      more := SortHalves(c, h, a, size, numRefBits, indices, temp, groups, i, mid, left, range);
    }
    SortedPermuted(c, s, t, g, indices[a..a + size], groups[..], a, more);
  }
}
