// Which of several equally good trees the program builds, and what it makes of two small alphabets:
// one where nodes and leaves weigh the same, one where the limit on the lengths binds.

module HuffmanAnswers {
  import opened Words
  import opened Permutations
  import opened Counting
  import opened HuffmanSymbols
  import opened HuffmanTree
  import opened HuffmanLengths
  import opened HuffmanCodes
  import opened HuffmanCoding
  import HeapSorting

  // Main result: a node is taken only when it is lighter than every leaf left, so among equals the
  // leaves come first.
  lemma LeavesFirst(t: Tree, e: nat, x: nat, k: nat)
    requires Grown(t) && Choices(t, |t.w| - 1) && HeapSorting.Sorted(t.w) && e < |t.w| - 1
    requires Taken(t, e) <= x < Taken(t, e + 1) && t.cut[e + 1] <= k < |t.w|
    ensures x < |t.v| && t.v[x] < t.w[k]
  {
    assert Joins(t, e) && Chosen(t, e, t.cut[e], Taken(t, e), t.cut[e + 1]);
  }

  // ----- Sorted weights --------------------------------------------------------------------------

  lemma {:induction false} SortedSame(s: seq<nat>, t: seq<nat>)
    requires HeapSorting.Sorted(s) && HeapSorting.Sorted(t) && multiset(s) == multiset(t)
    ensures s == t
    decreases |s|
  {
    hide HeapSorting.Sorted;
    assert |multiset(s)| == |s| && |multiset(t)| == |t|;
    if s != [] {
      SortedLast(s, t);
      SortedLast(t, s);
      SortedSame(s[..|s| - 1], t[..|t| - 1]);
      assert s == s[..|s| - 1] + [s[|s| - 1]] && t == t[..|t| - 1] + [t[|t| - 1]];
    }
  }

  // The last of a sorted sequence is the greatest, and what is before it is sorted too.
  lemma SortedLast(s: seq<nat>, t: seq<nat>)
    requires s != [] && t != [] && HeapSorting.Sorted(s) && multiset(s) == multiset(t)
    ensures t[|t| - 1] <= s[|s| - 1] && HeapSorting.Sorted(s[..|s| - 1])
    ensures multiset(s[..|s| - 1]) == multiset(s) - multiset{s[|s| - 1]}
  {
    assert t[|t| - 1] in multiset(s);
    var j: nat :| j < |s| && s[j] == t[|t| - 1];
    assert s == s[..|s| - 1] + [s[|s| - 1]];
  }

  lemma {:induction false} AllUsed(freqs: seq<nat>, m: nat)
    requires m <= |freqs| && forall i :: 0 <= i < m ==> freqs[i] > 0
    ensures Used(freqs, m) == Upto(m)
  {
    if m > 0 {
      AllUsed(freqs, m - 1);
      assert Upto(m) == Upto(m - 1) + [m - 1];
    }
  }

  // When all symbols are used and their frequencies rise, the leaves are the symbols in order.
  lemma WeightsAre(freqs: seq<nat>, t: Tree)
    requires IsTree(freqs, t) && HeapSorting.Sorted(freqs) && forall i :: 0 <= i < |freqs| ==> freqs[i] > 0
    ensures t.w == freqs
  {
    hide Grown, Choices, Used;
    AllUsed(freqs, |freqs|);
    assert Along(freqs, TheUsed(freqs)) == freqs;
    SortedSame(t.w, freqs);
  }

  // ----- Leaves and nodes of the same weight -------------------------------------------------------

  // Two leaves make a node of weight 2; then the two leaves of that weight are joined, not it.
  lemma TieTree(t: Tree)
    requires Grown(t) && Choices(t, |t.w| - 1) && t.w == [1, 1, 2, 2]
    ensures t.cut == [0, 2, 4, 4] && t.par == [2, 2]
    ensures Depth(t, 2) == 0 && Depth(t, 1) == 1 && Depth(t, 0) == 1
  {
    assert Joins(t, 0) && Chosen(t, 0, t.cut[0], Taken(t, 0), t.cut[1]);
    assert t.cut[1] == 2;
    assert Joins(t, 1) && Chosen(t, 1, t.cut[1], Taken(t, 1), t.cut[2]);
    assert Total(t.w, 2) == 2 by { assert Total(t.w, 1) == 1 && Total(t.w, 0) == 0; }
    assert t.v[0] == 2;
    assert t.cut[2] == 4;
    assert Joins(t, 2) && NodeUnder(t, 0) && NodeUnder(t, 1);
  }

  // The program makes four codes of two bits of them, in the order of the symbols.
  lemma TieAnswer(t: Tree, cs: seq<seq<nat>>, lens: seq<nat>, codes: seq<nat>, maxLen: nat)
    requires IsTree([1, 1, 2, 2], t) && 2 <= maxLen && Splitting(t, maxLen, cs) && |cs| == 3
    requires LengthCounts(cs[2], lens) && GoodLengths([1, 1, 2, 2], lens, maxLen)
    requires GoodCodes([1, 1, 2, 2], lens, codes)
    ensures lens == [2, 2, 2, 2] && codes[..4] == [0, 1, 2, 3]
  {
    hide Grown, Choices, IsTree, GoodCodes, Shares;
    var freqs: seq<nat> := [1, 1, 2, 2];
    TreeIs(freqs, t);
    TieTree(t);
    TieCounts(t, cs, maxLen);
    AllCounted(lens, 2);
    assert lens == [2, 2, 2, 2];
    TieCodes(lens, codes);
  }

  lemma TreeIs(freqs: seq<nat>, t: Tree)
    requires IsTree(freqs, t) && HeapSorting.Sorted(freqs) && forall i :: 0 <= i < |freqs| ==> freqs[i] > 0
    ensures Grown(t) && Choices(t, |t.w| - 1) && t.w == freqs
  {
    WeightsAre(freqs, t);
  }

  lemma TieCounts(t: Tree, cs: seq<seq<nat>>, maxLen: nat)
    requires Grown(t) && |t.w| == 4 && 2 <= maxLen && Splitting(t, maxLen, cs) && |cs| == 3
    requires Depth(t, 1) == 1 && Depth(t, 0) == 1
    ensures |cs[2]| == MAX_LEN + 1 && cs[2][2] == 4
  {
    hide Depth;
    assert Splits(t, maxLen, 1, cs[0], cs[1]) && Splits(t, maxLen, 0, cs[1], cs[2]);
  }

  // If a length occurs as often as there are symbols, all have it.
  lemma {:induction false} AllCounted(s: seq<nat>, v: nat)
    requires Count(s, v, |s|) == |s|
    ensures forall i :: 0 <= i < |s| ==> s[i] == v
    decreases |s|
  {
    CountAtMost(s, v, |s|);
  }

  lemma {:induction false} CountAtMost(s: seq<nat>, v: nat, m: nat)
    requires m <= |s|
    ensures Count(s, v, m) <= m && (Count(s, v, m) == m ==> forall i :: 0 <= i < m ==> s[i] == v)
    decreases m
  {
    if m > 0 { CountAtMost(s, v, m - 1); }
  }

  lemma TieCodes(lens: seq<nat>, codes: seq<nat>)
    requires lens == [2, 2, 2, 2] && GoodCodes([1, 1, 2, 2], lens, codes)
    ensures codes[..4] == [0, 1, 2, 3]
  {
    hide Unit, NoPrefix;
    assert Unit(2) == 0x4000 by { UnitsKnown(); }
    assert Pow2(2) == 4 by { assert Pow2(1) == 2; }
    assert CodedBefore(lens, 0, 1) && CodedBefore(lens, 1, 2) && CodedBefore(lens, 2, 3);
  }

  lemma UnitsKnown()
    ensures Unit(1) == 0x8000 && Unit(2) == 0x4000 && Unit(3) == 0x2000
  {
    PowerTable();
    UnitHalves(1);
    UnitHalves(2);
    UnitHalves(3);
  }

  // ----- A limit that binds ----------------------------------------------------------------------------

  lemma LimitTree(t: Tree)
    requires Grown(t) && Choices(t, |t.w| - 1) && t.w == [1, 1, 2, 4, 8]
    ensures t.cut == [0, 2, 3, 4, 5] && t.par == [1, 2, 3]
    ensures Depth(t, 3) == 0 && Depth(t, 2) == 1 && Depth(t, 1) == 2 && Depth(t, 0) == 3
  {
    assert Total(t.w, 1) == 1 && Total(t.w, 2) == 2 && Total(t.w, 3) == 4 && Total(t.w, 4) == 8;
    assert Joins(t, 0) && Chosen(t, 0, t.cut[0], Taken(t, 0), t.cut[1]);
    assert t.cut[1] == 2 && t.v[0] == 2;
    assert Joins(t, 1) && Chosen(t, 1, t.cut[1], Taken(t, 1), t.cut[2]);
    assert t.cut[2] == 3;
    assert Total(t.v, 0) == 0 && Total(t.v, 1) == 2 && t.v[1] == 4;
    assert Joins(t, 2) && Chosen(t, 2, t.cut[2], Taken(t, 2), t.cut[3]);
    assert t.cut[3] == 4;
    assert Joins(t, 3) && NodeUnder(t, 0) && NodeUnder(t, 1) && NodeUnder(t, 2);
    assert t.par == [1, 2, 3];
  }

  lemma LimitCounts(t: Tree, cs: seq<seq<nat>>)
    requires Grown(t) && |t.w| == 5 && Splitting(t, 3, cs) && |cs| == 4
    requires Depth(t, 2) == 1 && Depth(t, 1) == 2 && Depth(t, 0) == 3
    ensures |cs[3]| == MAX_LEN + 1 && cs[3][1] == 1 && cs[3][2] == 0 && cs[3][3] == 4
  {
    hide Depth;
    assert Splits(t, 3, 2, cs[0], cs[1]) && Splits(t, 3, 1, cs[1], cs[2]) && Splits(t, 3, 0, cs[2], cs[3]);
  }

  // The tree would give lengths 4, 4, 3, 2, 1. With at most three bits the code of length 2 is the one
  // that is split, not that of length 1.
  lemma LimitAnswer(t: Tree, cs: seq<seq<nat>>, lens: seq<nat>)
    requires IsTree([1, 1, 2, 4, 8], t) && Splitting(t, 3, cs) && |cs| == 4
    requires LengthCounts(cs[3], lens) && GoodLengths([1, 1, 2, 4, 8], lens, 3)
    ensures lens == [3, 3, 3, 3, 1]
  {
    hide Grown, Choices, IsTree, Shares, Splitting;
    var freqs: seq<nat> := [1, 1, 2, 4, 8];
    TreeIs(freqs, t);
    LimitTree(t);
    LimitCounts(t, cs);
    assert Rarer(freqs, 0, 1) && Rarer(freqs, 1, 2) && Rarer(freqs, 2, 3) && Rarer(freqs, 3, 4);
    assert Count(lens, 1, 5) == 1 && Count(lens, 2, 5) == 0;
    CountFive(lens, 1);
    CountFive(lens, 2);
  }

  lemma CountFive(s: seq<nat>, v: nat)
    requires |s| == 5
    ensures Count(s, v, 5) == (if s[0] == v then 1 else 0) + (if s[1] == v then 1 else 0) +
      (if s[2] == v then 1 else 0) + (if s[3] == v then 1 else 0) + (if s[4] == v then 1 else 0)
  {
    CountNext(s, v, 0);
    CountNext(s, v, 1);
    CountNext(s, v, 2);
    CountNext(s, v, 3);
    CountNext(s, v, 4);
  }

  lemma CountNext(s: seq<nat>, v: nat, m: nat)
    requires m < |s|
    ensures Count(s, v, 0) == 0 && Count(s, v, m + 1) == Count(s, v, m) + if s[m] == v then 1 else 0
  {}
}
