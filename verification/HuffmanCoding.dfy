// Huffman codes of limited length for an alphabet with given frequencies.

module HuffmanCoding {
  import opened Words
  import opened Permutations
  import opened Counting
  import opened HuffmanSymbols
  import opened HuffmanTree
  import opened HuffmanLengths
  import opened HuffmanCodes
  import opened HuffmanOptimal
  import HeapSorting

  // ----- Sums over the used symbols ------------------------------------------------------------

  function Used(freqs: seq<nat>, m: nat): (u: seq<nat>)
    requires m <= |freqs|
    ensures |u| <= m && forall i :: 0 <= i < |u| ==> u[i] < m
  {
    if m == 0 then [] else Used(freqs, m - 1) + if freqs[m - 1] > 0 then [m - 1] else []
  }

  lemma NoneUsed(freqs: seq<nat>)
    ensures Used(freqs, 0) == [] && Once(Used(freqs, 0))
  {}

  lemma {:induction false} UsedIs(freqs: seq<nat>, m: nat)
    requires m <= |freqs|
    ensures Once(Used(freqs, m)) && forall i: nat :: i in Used(freqs, m) <==> i < m && freqs[i] > 0
  {
    hide Once, Used;
    if m > 0 {
      UsedIs(freqs, m - 1);
      UsedNext(freqs, m);
      if freqs[m - 1] > 0 { OnceSnoc(Used(freqs, m - 1), m - 1); }
    } else {
      NoneUsed(freqs);
    }
  }

  lemma OnceSame(s: seq<nat>, t: seq<nat>)
    requires Once(s) && Once(t) && forall v: nat :: v in s <==> v in t
    ensures multiset(s) == multiset(t)
  {
    forall v: nat
      ensures multiset(s)[v] == multiset(t)[v]
    {
      assert v in s <==> multiset(s)[v] > 0;
      assert v in t <==> multiset(t)[v] > 0;
    }
  }

  lemma {:induction false} TotalWithout(s: seq<nat>, k: nat, m: nat)
    requires k < m <= |s|
    ensures Total(s, m) == Total(Without(s, k), m - 1) + s[k]
    decreases m
  {
    if k < m - 1 {
      TotalWithout(s, k, m - 1);
      WithoutElements(s, k, m - 2);
    } else {
      assert Without(s, k)[..k] == s[..k];
      TotalPrefix(Without(s, k), s, k);
    }
  }

  lemma {:induction false} TotalSame(s: seq<nat>, t: seq<nat>)
    requires multiset(s) == multiset(t)
    ensures Total(s, |s|) == Total(t, |t|)
    decreases |s|
  {
    hide Total, Without;
    assert |multiset(s)| == |s| && |multiset(t)| == |t|;
    if s != [] {
      assert s[0] in multiset(t);
      var k: nat :| k < |t| && t[k] == s[0];
      TakenOut(s, t, k);
      TotalSame(Without(s, 0), Without(t, k));
      TotalWithout(s, 0, |s|);
      TotalWithout(t, k, |t|);
    } else {
      assert t == [];
    }
  }

  lemma TotalSnoc(f: nat -> nat, s: seq<nat>, x: nat)
    ensures Total(Apply(f, s + [x]), |s| + 1) == Total(Apply(f, s), |s|) + f(x)
  {
    assert Apply(f, s + [x])[..|s|] == Apply(f, s)[..|s|];
    TotalPrefix(Apply(f, s + [x]), Apply(f, s), |s|);
  }

  // The unused symbols add nothing.
  lemma {:induction false} SumOfUsed(freqs: seq<nat>, f: nat -> nat, m: nat)
    requires m <= |freqs| && forall i: nat :: i < m && freqs[i] == 0 ==> f(i) == 0
    ensures Total(Apply(f, Upto(m)), m) == Total(Apply(f, Used(freqs, m)), |Used(freqs, m)|)
  {
    hide Apply, Total;
    if m > 0 {
      SumOfUsed(freqs, f, m - 1);
      assert Upto(m) == Upto(m - 1) + [m - 1];
      TotalSnoc(f, Upto(m - 1), m - 1);
      TotalSnoc(f, Used(freqs, m - 1), m - 1);
      UsedNext(freqs, m);
    } else {
      NoTotal(f);
    }
  }

  lemma NoTotal(f: nat -> nat)
    ensures Total(Apply(f, []), 0) == 0 && Upto(0) == []
  {}

  lemma UsedNext(freqs: seq<nat>, m: nat)
    requires 0 < m <= |freqs|
    ensures Used(freqs, m) == if freqs[m - 1] > 0 then Used(freqs, m - 1) + [m - 1] else Used(freqs, m - 1)
  {}

  // The symbols in the order of their frequencies.
  ghost predicate Lists(freqs: seq<nat>, y: seq<nat>) {
    Once(y) && forall i: nat :: i in y <==> i < |freqs| && freqs[i] > 0
  }

  lemma SumOverList(freqs: seq<nat>, y: seq<nat>, f: nat -> nat)
    requires Lists(freqs, y) && forall i: nat :: i < |freqs| && freqs[i] == 0 ==> f(i) == 0
    ensures Total(Apply(f, Upto(|freqs|)), |freqs|) == Total(Apply(f, y), |y|)
  {
    UsedIs(freqs, |freqs|);
    OnceSame(y, Used(freqs, |freqs|));
    ApplySame(f, y, Used(freqs, |freqs|));
    TotalSame(Apply(f, y), Apply(f, Used(freqs, |freqs|)));
    SumOfUsed(freqs, f, |freqs|);
  }

  lemma {:induction false} WeightedIsTotal(w: seq<nat>, l: seq<nat>, s: seq<nat>, m: nat)
    requires m <= |w| && m <= |l| && m <= |s| && forall k :: 0 <= k < m ==> s[k] == w[k] * l[k]
    ensures Weighted(w, l, m) == Total(s, m)
  {
    if m > 0 { WeightedIsTotal(w, l, s, m - 1); }
  }

  function Along(s: seq<nat>, y: seq<nat>): (r: seq<nat>)
    requires forall k :: 0 <= k < |y| ==> y[k] < |s|
    ensures |r| == |y| && forall k :: 0 <= k < |y| ==> r[k] == s[y[k]]
  {
    seq(|y|, k requires 0 <= k < |y| => s[y[k]])
  }

  lemma ListsInside(freqs: seq<nat>, y: seq<nat>)
    requires Lists(freqs, y)
    ensures forall k :: 0 <= k < |y| ==> y[k] < |freqs| && freqs[y[k]] > 0
  {
    forall k | 0 <= k < |y|
      ensures y[k] < |freqs| && freqs[y[k]] > 0
    {
      assert y[k] in y;
    }
  }

  // The cost of a code, over all symbols or in the order of their frequencies.
  lemma CostAlong(freqs: seq<nat>, lens: seq<nat>, y: seq<nat>)
    requires Lists(freqs, y) && |lens| == |freqs|
    ensures forall k :: 0 <= k < |y| ==> y[k] < |freqs|
    ensures Weighted(freqs, lens, |freqs|) == Weighted(Along(freqs, y), Along(lens, y), |y|)
  {
    ListsInside(freqs, y);
    var f := (i: nat) => if i < |freqs| && i < |lens| then freqs[i] * lens[i] else 0;
    SumOverList(freqs, y, f);
    WeightedIsTotal(freqs, lens, Apply(f, Upto(|freqs|)), |freqs|);
    WeightedIsTotal(Along(freqs, y), Along(lens, y), Apply(f, y), |y|);
  }

  // ----- Other codes ---------------------------------------------------------------------------

  // Lengths for the used symbols that a prefix code can have.
  ghost predicate CanCode(freqs: seq<nat>, lens: seq<nat>, top: nat) {
    && |lens| == |freqs| && (forall i :: 0 <= i < |freqs| && freqs[i] > 0 ==> lens[i] <= top)
    && UsedParts(freqs, lens, top, |freqs|) <= Pow2(top)
  }

  function UsedParts(freqs: seq<nat>, lens: seq<nat>, top: nat, m: nat): nat
    requires m <= |freqs| == |lens| && forall i :: 0 <= i < |freqs| && freqs[i] > 0 ==> lens[i] <= top
  {
    if m == 0 then 0 else UsedParts(freqs, lens, top, m - 1) + if freqs[m - 1] > 0 then Pow2(top - lens[m - 1]) else 0
  }

  function PartOf(freqs: seq<nat>, lens: seq<nat>, top: nat): nat -> nat {
    (i: nat) => if i < |freqs| && i < |lens| && freqs[i] > 0 && lens[i] <= top then Pow2(top - lens[i]) else 0
  }

  lemma PartNext(freqs: seq<nat>, lens: seq<nat>, top: nat, m: nat)
    requires 0 < m <= |freqs| == |lens| && forall i :: 0 <= i < |freqs| && freqs[i] > 0 ==> lens[i] <= top
    ensures UsedParts(freqs, lens, top, m) == UsedParts(freqs, lens, top, m - 1) + PartOf(freqs, lens, top)(m - 1)
  {}

  lemma {:induction false} UsedPartsTotal(freqs: seq<nat>, lens: seq<nat>, top: nat, m: nat)
    requires m <= |freqs| == |lens| && forall i :: 0 <= i < |freqs| && freqs[i] > 0 ==> lens[i] <= top
    ensures UsedParts(freqs, lens, top, m) == Total(Apply(PartOf(freqs, lens, top), Upto(m)), m)
  {
    hide Apply, Total, PartOf;
    if m > 0 {
      UsedPartsTotal(freqs, lens, top, m - 1);
      PartNext(freqs, lens, top, m);
      assert Upto(m) == Upto(m - 1) + [m - 1];
      TotalSnoc(PartOf(freqs, lens, top), Upto(m - 1), m - 1);
    } else {
      NoTotal(PartOf(freqs, lens, top));
    }
  }

  lemma {:induction false} PartsTotal(l: seq<nat>, top: nat, s: seq<nat>, m: nat)
    requires m <= |l| && m <= |s| && (forall k :: 0 <= k < |l| ==> l[k] <= top)
    requires forall k :: 0 <= k < m ==> s[k] == Pow2(top - l[k])
    ensures Parts(l, top, m) == Total(s, m)
  {
    hide Pow2;
    if m > 0 { PartsTotal(l, top, s, m - 1); }
  }

  lemma CanCodeAlong(freqs: seq<nat>, lens: seq<nat>, top: nat, y: seq<nat>)
    requires Lists(freqs, y) && CanCode(freqs, lens, top)
    ensures forall k :: 0 <= k < |y| ==> y[k] < |freqs|
    ensures Fits(Along(lens, y), top)
  {
    hide Pow2;
    ListsInside(freqs, y);
    var f := PartOf(freqs, lens, top);
    UsedPartsTotal(freqs, lens, top, |freqs|);
    SumOverList(freqs, y, f);
    PartsTotal(Along(lens, y), top, Apply(f, y), |y|);
  }

  // No prefix code for these frequencies is shorter.
  ghost predicate Cheapest(freqs: seq<nat>, lens: seq<nat>) {
    |lens| == |freqs| &&
    forall other: seq<nat>, top: nat :: CanCode(freqs, other, top) ==>
                                          Weighted(freqs, lens, |freqs|) <= Weighted(freqs, other, |freqs|)
  }

  lemma TreeCheapest(freqs: seq<nat>, lens: seq<nat>, y: seq<nat>, t: Tree)
    requires Lists(freqs, y) && |lens| == |freqs| && Grown(t) && Choices(t, |t.w| - 1) && HeapSorting.Sorted(t.w)
    requires |t.w| == |y|
    requires forall k :: 0 <= k < |y| ==> y[k] < |freqs| && t.w[k] == freqs[y[k]] && lens[y[k]] == LeafDepths(t)[k]
    ensures Cheapest(freqs, lens)
  {
    hide Lists, LeafDepth;
    assert Along(freqs, y) == t.w && Along(lens, y) == LeafDepths(t);
    CostAlong(freqs, lens, y);
    forall other: seq<nat>, top: nat | CanCode(freqs, other, top)
      ensures Weighted(freqs, lens, |freqs|) <= Weighted(freqs, other, |freqs|)
    {
      CanCodeAlong(freqs, other, top, y);
      CostAlong(freqs, other, y);
      TreeOptimal(t, Along(other, y), top);
    }
  }

  // Falling sequences with the same counts are the same.
  lemma {:induction false} FallingSame(s: seq<nat>, t: seq<nat>, m: nat)
    requires m <= |s| == |t| && Falling(s) && Falling(t)
    requires forall k :: 0 <= k < m ==> 1 <= s[k] <= MAX_LEN && 1 <= t[k] <= MAX_LEN
    requires forall l: nat :: 1 <= l <= MAX_LEN ==> Count(s, l, m) == Count(t, l, m)
    ensures s[..m] == t[..m]
  {
    if m > 0 {
      var n: nat := m - 1;
      CountGrows(s, n, m);
      CountGrows(t, n, m);
      if s[n] < t[n] { NoneCounted(t, s[n], m); }
      if t[n] < s[n] { NoneCounted(s, t[n], m); }
      forall l: nat | 1 <= l <= MAX_LEN
        ensures Count(s, l, n) == Count(t, l, n)
      {
        assert Count(s, l, m) == Count(t, l, m);
      }
      FallingSame(s, t, n);
    }
  }

  lemma {:induction false} NoneCounted(s: seq<nat>, l: nat, m: nat)
    requires m <= |s| && forall k :: 0 <= k < m ==> s[k] != l
    ensures Count(s, l, m) == 0
  {
    if m > 0 { NoneCounted(s, l, m - 1); }
  }

  // ----- The program ---------------------------------------------------------------------------

  // Unused symbols have no code, the others one of at most maxLen bits; the codes leave no room; and
  // no symbol has a longer code than a rarer one.
  ghost predicate GoodLengths(freqs: seq<nat>, lens: seq<nat>, maxLen: nat) {
    && |lens| == |freqs| && maxLen <= MAX_LEN
    && (forall i :: 0 <= i < |freqs| ==> if freqs[i] == 0 then lens[i] == 0 else 1 <= lens[i] <= maxLen)
    && Shares(lens, |lens|) == 0x1_0000
    && (forall i, j :: 0 <= i < |freqs| && 0 <= j < |freqs| && Rarer(freqs, i, j) ==> lens[i] >= lens[j])
  }

  // Of symbols that are equally frequent the first counts as the rarer one.
  predicate Rarer(freqs: seq<nat>, i: nat, j: nat)
    requires i < |freqs| && j < |freqs|
  {
    0 < freqs[i] < freqs[j] || (0 < freqs[i] == freqs[j] && i < j)
  }

  // The counters say how many symbols have which length.
  ghost predicate LengthCounts(c: seq<nat>, lens: seq<nat>) {
    |c| == MAX_LEN + 1 && forall l: nat :: 1 <= l <= MAX_LEN ==> c[l] == Count(lens, l, |lens|)
  }

  // The codes fit their lengths, and none begins another.
  ghost predicate GoodCodes(freqs: seq<nat>, lens: seq<nat>, codes: seq<nat>) {
    && |freqs| <= |lens| && |freqs| <= |codes|
    && (forall i :: 0 <= i < |freqs| && freqs[i] > 0 ==> codes[i] < Pow2(lens[i]))
    && (forall i, j :: 0 <= i < |freqs| && 0 <= j < |freqs| && i != j && freqs[i] > 0 && freqs[j] > 0 &&
                         lens[i] <= lens[j] ==>
                         NoPrefix(codes[i], lens[i], codes[j], lens[j]))
    && (forall i, j :: 0 <= i < |freqs| && 0 <= j < |freqs| && freqs[i] > 0 && freqs[j] > 0 &&
                         CodedBefore(lens, i, j) ==>
                         lens[j] <= MAX_LEN && (codes[i] + 1) * Unit(lens[i]) <= codes[j] * Unit(lens[j]))
  }

  // The order in which codes are given out: by length, then by symbol.
  predicate CodedBefore(lens: seq<nat>, i: nat, j: nat)
    requires i < |lens| && j < |lens|
  {
    lens[i] < lens[j] || (lens[i] == lens[j] && i < j)
  }

  // The sorted words w name the symbols y.
  ghost predicate Sorted(freqs: seq<nat>, w: seq<nat>, y: seq<nat>) {
    && Lists(freqs, y) && |w| == |y| && HeapSorting.Sorted(w)
    && forall k :: 0 <= k < |y| ==> y[k] < |freqs| <= SYMBOLS && y[k] == Sym(w[k]) && w[k] == WordOf(freqs, y[k])
  }

  lemma SortedSymbols(freqs: seq<nat>, w: seq<nat>) returns (y: seq<nat>)
    requires Listing(freqs, w) && HeapSorting.Sorted(w)
    ensures Sorted(freqs, w, y)
  {
    y := seq(|w|, k requires 0 <= k < |w| => Sym(w[k]));
    forall i, j | 0 <= i < j < |y|
      ensures y[i] != y[j]
    {
      OncePlaces(w, i, j);
    }
    OnceFromPlaces(y);
    forall i: nat | i < |freqs| && freqs[i] > 0
      ensures i in y
    {
      var k: nat :| k < |w| && w[k] == WordOf(freqs, i);
      assert y[k] == i;
    }
  }

  lemma WeightsSorted(freqs: seq<nat>, w: seq<nat>, y: seq<nat>)
    requires Sorted(freqs, w, y)
    ensures HeapSorting.Sorted(Ups(w)) && forall k :: 0 <= k < |y| ==> Ups(w)[k] == freqs[y[k]]
  {
    forall i, j | 0 <= i < j < |w|
      ensures Up(w[i]) <= Up(w[j])
    {
      UpOrder(w[i], w[j]);
    }
  }

  lemma UpOrder(v: nat, w: nat)
    requires v <= w
    ensures Up(v) <= Up(w)
  {}

  lemma WeightsTotal(freqs: seq<nat>, w: seq<nat>, y: seq<nat>)
    requires Sorted(freqs, w, y)
    ensures Total(Ups(w), |w|) == Total(freqs, |freqs|)
  {
    var f := (i: nat) => if i < |freqs| then freqs[i] else 0;
    SumOverList(freqs, y, f);
    assert Apply(f, Upto(|freqs|)) == freqs;
    assert Apply(f, y) == Ups(w);
  }

  // What the lengths given in order say about the symbols.
  lemma LengthsGood(freqs: seq<nat>, w: seq<nat>, y: seq<nat>, ls: seq<nat>, lens: seq<nat>, counters: seq<nat>,
                    maxLen: nat)
    requires Sorted(freqs, w, y) && Given(y, ls, lens) && |ls| == |y| && |lens| == |freqs|
    requires AllDealt(counters, ls, maxLen) && Full(counters, maxLen, |y|)
    ensures Tallied(counters, lens, maxLen, |y|) && GoodLengths(freqs, lens, maxLen)
  {
    hide Kraft, Total, Unit;
    assert y[..|ls|] == y;
    forall i | 0 <= i < |freqs|
      ensures if freqs[i] == 0 then lens[i] == 0 else 1 <= lens[i] <= maxLen
    {
      if freqs[i] > 0 {
        var k: nat :| k < |y| && y[k] == i;
      }
    }
    forall i: nat, j: nat | i < |freqs| && j < |freqs| && Rarer(freqs, i, j)
      ensures lens[i] >= lens[j]
    {
      var k: nat :| k < |y| && y[k] == i;
      var l: nat :| l < |y| && y[l] == j;
      assert w[k] < w[l];
      assert k < l;
    }
    SharesFull(counters, lens, maxLen, |y|);
  }

  lemma CodesGood(freqs: seq<nat>, lens: seq<nat>, codes: seq<nat>, counters: seq<nat>, maxLen: nat, num: nat)
    requires Tallied(counters, lens, maxLen, num) && GoodLengths(freqs, lens, maxLen) && |codes| >= |freqs|
    requires forall i :: 0 <= i < |freqs| && lens[i] > 0 ==> lens[i] <= MAX_LEN && codes[i] == CodeOf(counters, lens, i)
    ensures GoodCodes(freqs, lens, codes)
  {
    hide Tallied, Pow2, CodeOf, Shares, NoPrefix, Unit;
    CountersSize(counters, lens, maxLen, num);
    forall i: nat | i < |freqs| && freqs[i] > 0
      ensures codes[i] < Pow2(lens[i])
    {
      CodeFits(counters, lens, maxLen, num, i);
    }
    forall i: nat, j: nat | i < |freqs| && j < |freqs| && i != j && freqs[i] > 0 && freqs[j] > 0 && lens[i] <= lens[j]
      ensures NoPrefix(codes[i], lens[i], codes[j], lens[j])
    {
      PrefixFree(counters, lens, maxLen, num, i, j);
    }
    forall i: nat, j: nat | i < |freqs| && j < |freqs| && freqs[i] > 0 && freqs[j] > 0 && CodedBefore(lens, i, j)
      ensures lens[j] <= MAX_LEN && (codes[i] + 1) * Unit(lens[i]) <= codes[j] * Unit(lens[j])
    {
      CodesInOrder(counters, lens, maxLen, num, i, j);
    }
  }

  lemma CodesInOrder(counters: seq<nat>, lens: seq<nat>, maxLen: nat, num: nat, i: nat, j: nat)
    requires Tallied(counters, lens, maxLen, num) && i < |lens| && j < |lens| && lens[i] > 0
    requires CodedBefore(lens, i, j)
    ensures lens[j] <= MAX_LEN
    ensures (CodeOf(counters, lens, i) + 1) * Unit(lens[i]) <= CodeOf(counters, lens, j) * Unit(lens[j])
  {
    hide Unit, Kraft, Pow2, First, Total;
    var k, l := lens[i], lens[j];
    CodeFits(counters, lens, maxLen, num, i);
    CodeFits(counters, lens, maxLen, num, j);
    if k < l {
      KraftGrows(counters, k + 1, l);
    } else {
      CountGrows(lens, i, j);
      MulOrder(Unit(l), CodeOf(counters, lens, i) + 1, CodeOf(counters, lens, j));
    }
  }

  lemma CountersSize(counters: seq<nat>, lens: seq<nat>, maxLen: nat, num: nat)
    requires Tallied(counters, lens, maxLen, num)
    ensures |counters| == MAX_LEN + 1
  {}

  // When no leaf of the tree is too deep, the lengths are its depths.
  lemma LengthsAreDepths(freqs: seq<nat>, y: seq<nat>, ls: seq<nat>, lens: seq<nat>, counters: seq<nat>, maxLen: nat,
                         t: Tree)
    requires Given(y, ls, lens) && |ls| == |y| == |t.w| && Grown(t) && LeafDepth(t, 0) <= maxLen <= MAX_LEN
    requires AllDealt(counters, ls, maxLen)
    requires forall l: nat :: l <= MAX_LEN ==> counters[l] == Count(LeafDepths(t), l, |t.w|)
    ensures forall k :: 0 <= k < |y| ==> y[k] < |lens| && lens[y[k]] == LeafDepths(t)[k]
  {
    LeavesFall(t);
    forall k | 0 <= k < |ls|
      ensures 1 <= LeafDepths(t)[k] <= MAX_LEN
    {
      assert LeafDepths(t)[0] >= LeafDepths(t)[k];
    }
    FallingSame(ls, LeafDepths(t), |ls|);
    assert ls[..|ls|] == ls && LeafDepths(t)[..|ls|] == LeafDepths(t);
  }

  // No symbol or only one: two codes of one bit, for symbol 0 and one other.
  method GenerateTwo(p: array<nat>, lens: array<nat>, num: nat) returns (ghost maxCode: nat)
    requires num < 2 && 2 <= p.Length && 2 <= lens.Length && p != lens
    requires (num == 1 ==> Sym(p[0]) < lens.Length && Sym(p[0]) < p.Length)
    modifies p, lens
    ensures maxCode == (if num == 1 && Sym(old(p[0])) != 0 then Sym(old(p[0])) else 1)
    ensures p[0] == 0 && p[maxCode] == 1 && lens[0] == 1 && lens[maxCode] == 1
    ensures forall i :: 0 <= i < lens.Length && i != 0 && i != maxCode ==> lens[i] == old(lens[i])
  {
    var other := 1;
    if num == 1 {
      other := Sym(p[0]);
      if other == 0 {
        other := other + 1;
      }
    }
    p[0] := 0;
    p[other] := 1;
    lens[0], lens[other] := 1, 1;
    maxCode := other;
  }

  function TheUsed(freqs: seq<nat>): seq<nat> { Used(freqs, |freqs|) }

  // The symbol that gets the second code when fewer than two are used.
  function Second(freqs: seq<nat>): nat {
    var u := TheUsed(freqs);
    if u == [] || u[0] == 0 then 1 else u[0]
  }

  lemma UsedWords(freqs: seq<nat>, w: seq<nat>, y: seq<nat>)
    requires Sorted(freqs, w, y)
    ensures |TheUsed(freqs)| == |w| && multiset(y) == multiset(TheUsed(freqs))
    ensures (|w| == 1 ==> TheUsed(freqs)[0] == Sym(w[0]))
  {
    UsedIs(freqs, |freqs|);
    OnceSame(y, TheUsed(freqs));
    assert |multiset(y)| == |y| && |multiset(TheUsed(freqs))| == |TheUsed(freqs)|;
    if |w| == 1 {
      assert y[0] in TheUsed(freqs);
    }
  }

  // The tree of these frequencies: over the sorted weights, always joining the two lightest.
  ghost predicate IsTree(freqs: seq<nat>, t: Tree) {
    && |t.w| >= 2 && Grown(t) && Choices(t, |t.w| - 1) && HeapSorting.Sorted(t.w)
    && multiset(t.w) == multiset(Along(freqs, TheUsed(freqs)))
  }

  lemma TreeOfSorted(freqs: seq<nat>, w: seq<nat>, y: seq<nat>, t: Tree)
    requires Sorted(freqs, w, y) && |t.w| >= 2 && Grown(t) && Choices(t, |t.w| - 1) && t.w == Ups(w)
    ensures IsTree(freqs, t)
  {
    hide Grown;
    WeightsSorted(freqs, w, y);
    UsedWords(freqs, w, y);
    var f := (i: nat) => if i < |freqs| then freqs[i] else 0;
    ApplySame(f, y, TheUsed(freqs));
    assert Apply(f, y) == t.w && Apply(f, TheUsed(freqs)) == Along(freqs, TheUsed(freqs));
  }

  lemma {:induction false} DepthBound(t: Tree, x: nat)
    requires Grown(t) && x <= |t.w| - 2
    ensures Depth(t, x) <= |t.w| - 2 - x
    decreases |t.w| - x
  {
    if x < |t.w| - 2 {
      ParentAbove(t, x);
      DepthBound(t, t.par[x]);
    }
  }

  lemma LeafBound(t: Tree)
    requires Grown(t)
    ensures LeafDepth(t, 0) < |t.w|
  {
    TopsRise(t, 0, 0);
    DepthBound(t, t.top[0]);
  }

  // Lengths and codes for the symbols of a message with the given frequencies. The codes are the
  // shortest possible when no leaf of the tree lies deeper than maxLen, so surely when maxLen is not
  // less than the number of used symbols.
  method Generate(freqs: seq<nat>, p: array<nat>, lens: array<nat>, maxLen: nat)
      returns (ghost t: Tree, ghost cs: seq<seq<nat>>)
    requires |freqs| <= SYMBOLS && Total(freqs, |freqs|) < 0x40_0000 && 1 <= maxLen <= MAX_LEN && p != lens
    requires |freqs| <= p.Length && |freqs| <= lens.Length && 2 <= p.Length && 2 <= lens.Length
    requires |TheUsed(freqs)| <= Pow2(maxLen)
    modifies p, lens
    ensures |TheUsed(freqs)| >= 2 ==> GoodLengths(freqs, lens[..|freqs|], maxLen)
    ensures |TheUsed(freqs)| >= 2 ==> GoodCodes(freqs, lens[..|freqs|], p[..|freqs|])
    ensures |TheUsed(freqs)| >= 2 ==> IsTree(freqs, t) && LeafDepth(t, 0) < |TheUsed(freqs)|
    ensures |TheUsed(freqs)| >= 2 && LeafDepth(t, 0) <= maxLen ==> Cheapest(freqs, lens[..|freqs|])
    ensures |TheUsed(freqs)| >= 2 ==>
      Splitting(t, maxLen, cs) && |cs| == |t.w| - 1 && LengthCounts(cs[|cs| - 1], lens[..|freqs|])
    ensures |TheUsed(freqs)| < 2 ==> p[0] == 0 && lens[0] == 1 && p[Second(freqs)] == 1 && lens[Second(freqs)] == 1
    ensures |TheUsed(freqs)| < 2 ==> forall i :: 0 <= i < |freqs| && i != 0 && i != Second(freqs) ==> lens[i] == 0
  {
    hide Grown, Choices, Listing, HeapSorting.Sorted, GoodLengths, GoodCodes, Cheapest, IsTree, Given, AllDealt, Full,
      Tallied, LeafDepth, Lists, Used, Pow2, Splitting, LengthCounts;
    ghost var n := |freqs|;
    var num := SortSymbols(freqs, p, lens);
    ghost var w := p[..num];
    ghost var y := SortedSymbols(freqs, w);
    UsedWords(freqs, w, y);
    t, cs := Tree([], [], [], [], []), [];
    if num < 2 {
      FewUsed(freqs, y);
      ghost var other := GenerateTwo(p, lens, num);
      return;
    }
    WeightsTotal(freqs, w, y);
    t := BuildTree(p, num);
    TreeOfSorted(freqs, w, y, t);
    LeafBound(t);
    var counters;
    counters, cs := CountLengths(p, num, maxLen, t);
    UnusedZero(freqs, y, lens[..n]);
    ListsOnce(freqs, y);
    ghost var ls := AssignLengths(p, num, maxLen, counters, lens, y, n);
    LengthsGood(freqs, w, y, ls, lens[..n], counters[..], maxLen);
    TalliedCounts(counters[..], lens[..n], maxLen, num);
    FullSizes(counters[..], maxLen, num);
    AssignCodes(counters, lens, p, |freqs|, maxLen, num);
    CodesGood(freqs, lens[..n], p[..n], counters[..], maxLen, num);
    if LeafDepth(t, 0) <= maxLen {
      LengthsAreDepths(freqs, y, ls, lens[..n], counters[..], maxLen, t);
      WeightsSorted(freqs, w, y);
      TreeCheapest(freqs, lens[..n], y, t);
    }
  }

  lemma TalliedCounts(counters: seq<nat>, lens: seq<nat>, maxLen: nat, num: nat)
    requires Tallied(counters, lens, maxLen, num)
    ensures LengthCounts(counters, lens)
  {}

  lemma FewUsed(freqs: seq<nat>, y: seq<nat>)
    requires Lists(freqs, y) && |y| < 2 && multiset(y) == multiset(TheUsed(freqs))
    ensures forall i :: 0 <= i < |freqs| && i != 0 && i != Second(freqs) ==> freqs[i] == 0
  {
    UsedIs(freqs, |freqs|);
    assert |multiset(y)| == |y| && |multiset(TheUsed(freqs))| == |TheUsed(freqs)|;
  }

  lemma UnusedZero(freqs: seq<nat>, y: seq<nat>, lens: seq<nat>)
    requires Lists(freqs, y) && |lens| == |freqs| && forall i :: 0 <= i < |freqs| && freqs[i] == 0 ==> lens[i] == 0
    ensures forall q: nat :: q < |lens| && q !in y ==> lens[q] == 0
  {}

  lemma ListsOnce(freqs: seq<nat>, y: seq<nat>)
    requires Lists(freqs, y)
    ensures Once(y)
  {}
}
