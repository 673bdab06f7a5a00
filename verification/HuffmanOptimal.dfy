// No code is shorter: the weight of the inner nodes is the least cost any prefix code can have.

module HuffmanOptimal {
  import opened Words
  import opened Permutations
  import opened HuffmanTree
  import opened HuffmanLengths
  import HeapSorting

  // ----- Always joining the two lightest -------------------------------------------------------

  ghost predicate IsLeast(m: multiset<nat>, x: nat) { x in m && forall y: nat :: y in m ==> x <= y }

  lemma LeastExists(m: multiset<nat>)
    requires |m| > 0
    ensures exists x: nat :: IsLeast(m, x)
    decreases |m|
  {
    var x: nat :| x in m;
    var r := m - multiset{x};
    if |r| == 0 {
      assert m == r + multiset{x} && r == multiset{};
      assert IsLeast(m, x);
    } else {
      LeastExists(r);
      var z: nat :| IsLeast(r, z);
      var l := if z <= x then z else x;
      forall y: nat | y in m
        ensures l <= y
      {
        assert y == x || y in r;
      }
      assert IsLeast(m, l);
    }
  }

  ghost function Least(m: multiset<nat>): (x: nat)
    requires |m| > 0
    ensures IsLeast(m, x)
  {
    LeastExists(m);
    var x: nat :| IsLeast(m, x);
    x
  }

  // The weight of the two lightest, and what is there when they are joined.
  ghost function LightestTwo(m: multiset<nat>): nat
    requires |m| >= 2
  {
    Least(m) + Least(m - multiset{Least(m)})
  }

  ghost function Joined(m: multiset<nat>): (r: multiset<nat>)
    requires |m| >= 2
    ensures |r| == |m| - 1
  {
    var r := m - multiset{Least(m)};
    r - multiset{Least(r)} + multiset{LightestTwo(m)}
  }

  // The weight of all joins, when the two lightest are joined until one is left.
  ghost function JoinCost(m: multiset<nat>): nat
    decreases |m|
  {
    if |m| <= 1 then 0 else LightestTwo(m) + JoinCost(Joined(m))
  }

  lemma JoinCostStep(m: multiset<nat>, a: nat, b: nat, rest: multiset<nat>)
    requires m == rest + multiset{a} + multiset{b} && a <= b && forall y: nat :: y in rest ==> b <= y
    ensures JoinCost(m) == a + b + JoinCost(rest + multiset{a + b})
  {
    assert |m| == |rest| + 2;
    JoinedIs(m, a, b, rest);
  }

  lemma JoinedIs(m: multiset<nat>, a: nat, b: nat, rest: multiset<nat>)
    requires |m| >= 2 && m == rest + multiset{a} + multiset{b} && a <= b && forall y: nat :: y in rest ==> b <= y
    ensures LightestTwo(m) == a + b && Joined(m) == rest + multiset{a + b}
  {
    hide Least, IsLeast;
    var r := rest + multiset{b};
    assert m - multiset{a} == r && r - multiset{b} == rest;
    LeastIs(m, a);
    LeastIs(r, b);
  }

  lemma LeastIs(m: multiset<nat>, x: nat)
    requires x in m && forall y: nat :: y in m ==> x <= y
    ensures |m| > 0 && Least(m) == x
  {
    assert m == (m - multiset{x}) + multiset{x};
  }

  // ----- Any code ------------------------------------------------------------------------------

  function Weighted(w: seq<nat>, l: seq<nat>, m: nat): nat
    requires m <= |w| && m <= |l|
  {
    if m == 0 then 0 else Weighted(w, l, m - 1) + w[m - 1] * l[m - 1]
  }

  function Parts(l: seq<nat>, top: nat, m: nat): nat
    requires m <= |l| && forall k :: 0 <= k < |l| ==> l[k] <= top
  {
    if m == 0 then 0 else Parts(l, top, m - 1) + Pow2(top - l[m - 1])
  }

  // The lengths meet the inequality of Kraft.
  ghost predicate Fits(l: seq<nat>, top: nat) {
    (forall k :: 0 <= k < |l| ==> l[k] <= top) && Parts(l, top, |l|) <= Pow2(top)
  }

  lemma {:induction false} WeightedWithout(w: seq<nat>, l: seq<nat>, k: nat, m: nat)
    requires k < m <= |w| == |l|
    ensures Weighted(w, l, m) == Weighted(Without(w, k), Without(l, k), m - 1) + w[k] * l[k]
    decreases m
  {
    if k < m - 1 {
      WeightedWithout(w, l, k, m - 1);
      assert Without(w, k)[m - 2] == w[m - 1] && Without(l, k)[m - 2] == l[m - 1];
    } else {
      WeightedPrefix(w, Without(w, k), l, Without(l, k), k);
    }
  }

  lemma {:induction false} WeightedPrefix(w: seq<nat>, w': seq<nat>, l: seq<nat>, l': seq<nat>, m: nat)
    requires m <= |w| && m <= |w'| && m <= |l| && m <= |l'|
    requires forall k :: 0 <= k < m ==> w[k] == w'[k] && l[k] == l'[k]
    ensures Weighted(w, l, m) == Weighted(w', l', m)
  {
    if m > 0 { WeightedPrefix(w, w', l, l', m - 1); }
  }

  lemma {:induction false} PartsWithout(l: seq<nat>, top: nat, k: nat, m: nat)
    requires k < m <= |l| && forall i :: 0 <= i < |l| ==> l[i] <= top
    ensures forall i :: 0 <= i < |l| - 1 ==> Without(l, k)[i] <= top
    ensures Parts(l, top, m) == Parts(Without(l, k), top, m - 1) + Pow2(top - l[k])
    decreases m
  {
    var r := Without(l, k);
    forall i | 0 <= i < |r|
      ensures r[i] == l[if i < k then i else i + 1]
    {}
    if k < m - 1 {
      PartsWithout(l, top, k, m - 1);
    } else {
      PartsPrefix(l, r, top, k);
    }
  }

  lemma {:induction false} PartsPrefix(l: seq<nat>, l': seq<nat>, top: nat, m: nat)
    requires m <= |l| && m <= |l'| && (forall i :: 0 <= i < |l| ==> l[i] <= top)
    requires forall i :: 0 <= i < |l'| ==> l'[i] <= top
    requires forall k :: 0 <= k < m ==> l[k] == l'[k]
    ensures Parts(l, top, m) == Parts(l', top, m)
  {
    if m > 0 { PartsPrefix(l, l', top, m - 1); }
  }

  function Swapped(l: seq<nat>, i: nat, j: nat): (r: seq<nat>)
    requires i < |l| && j < |l|
    ensures |r| == |l| && r[j] == l[i] && r[i] == l[j] && multiset(r) == multiset(l)
  {
    l[i := l[j]][j := l[i]]
  }

  lemma PartsSwapped(l: seq<nat>, top: nat, i: nat, j: nat)
    requires i < |l| && j < |l| && forall k :: 0 <= k < |l| ==> l[k] <= top
    ensures forall k :: 0 <= k < |l| ==> Swapped(l, i, j)[k] <= top
    ensures Parts(Swapped(l, i, j), top, |l|) == Parts(l, top, |l|)
  {
    hide Parts, Pow2, Swapped;
    SwappedBelow(l, top, i, j);
    PartsUpdated(l, top, i, l[j], |l|);
    PartsUpdated(l[i := l[j]], top, j, l[i], |l|);
  }

  lemma SwappedBelow(l: seq<nat>, top: nat, i: nat, j: nat)
    requires i < |l| && j < |l| && forall k :: 0 <= k < |l| ==> l[k] <= top
    ensures var r := l[i := l[j]]; forall k :: 0 <= k < |r| ==> r[k] <= top
    ensures forall k :: 0 <= k < |l| ==> Swapped(l, i, j)[k] <= top
    ensures Swapped(l, i, j) == l[i := l[j]][j := l[i]] && l[i := l[j]][j] == l[j]
  {}

  lemma {:induction false} PartsUpdated(l: seq<nat>, top: nat, i: nat, v: nat, m: nat)
    requires i < |l| && m <= |l| && v <= top && forall k :: 0 <= k < |l| ==> l[k] <= top
    ensures Parts(l[i := v], top, m) == Parts(l, top, m) + if i < m then Pow2(top - v) as int - Pow2(top - l[i]) else 0
    decreases m
  {
    if m > 0 { PartsUpdated(l, top, i, v, m - 1); }
  }

  lemma {:induction false} WeightedUpdated(w: seq<nat>, l: seq<nat>, i: nat, v: nat, m: nat)
    requires i < |l| == |w| && m <= |l|
    ensures Weighted(w, l[i := v], m) == Weighted(w, l, m) + if i < m then w[i] * v - w[i] * l[i] else 0
    decreases m
  {
    if m > 0 { WeightedUpdated(w, l, i, v, m - 1); }
  }

  // The lighter of two may as well have the longer code.
  lemma WeightedSwapped(w: seq<nat>, l: seq<nat>, i: nat, j: nat)
    requires i < |l| == |w| && j < |l| && w[i] <= w[j] && l[i] <= l[j]
    ensures Weighted(w, Swapped(l, i, j), |w|) <= Weighted(w, l, |w|)
  {
    WeightedUpdated(w, l, i, l[j], |w|);
    WeightedUpdated(w, l[i := l[j]], j, l[i], |w|);
    if i != j { Exchange(w[i], w[j], l[i], l[j]); }
  }

  lemma Exchange(a: nat, b: nat, k: nat, l: nat)
    requires a <= b && k <= l
    ensures a * l + b * k <= a * k + b * l
  {
    assert a * k + b * l - (a * l + b * k) == (b - a) * (l - k);
    if b > a && l > k { MulGe(b - a, l - k); }
  }

  lemma IndexOfLeast(s: seq<nat>) returns (k: nat)
    requires s != []
    ensures k < |s| && forall i :: 0 <= i < |s| ==> s[k] <= s[i]
  {
    k := 0;
    var j := 1;
    while j < |s|
      invariant 1 <= j <= |s| && k < |s| && forall i :: 0 <= i < j ==> s[k] <= s[i]
    {
      if s[j] < s[k] { k := j; }
      j := j + 1;
    }
  }

  lemma IndexOfGreatest(s: seq<nat>) returns (k: nat)
    requires s != []
    ensures k < |s| && forall i :: 0 <= i < |s| ==> s[k] >= s[i]
  {
    k := 0;
    var j := 1;
    while j < |s|
      invariant 1 <= j <= |s| && k < |s| && forall i :: 0 <= i < j ==> s[k] >= s[i]
    {
      if s[j] > s[k] { k := j; }
      j := j + 1;
    }
  }

  // Brings the longest code to the lightest item: no costlier.
  lemma LightestLongest(w: seq<nat>, l: seq<nat>, top: nat) returns (i: nat, l': seq<nat>)
    requires |w| == |l| >= 1 && Fits(l, top)
    ensures i < |w| && (forall k :: 0 <= k < |w| ==> w[i] <= w[k])
    ensures |l'| == |l| && Fits(l', top) && (forall k :: 0 <= k < |l'| ==> l'[k] <= l'[i])
    ensures multiset(l') == multiset(l)
    ensures Weighted(w, l', |w|) <= Weighted(w, l, |w|) && Parts(l', top, |l|) == Parts(l, top, |l|)
  {
    i := IndexOfLeast(w);
    var x := IndexOfGreatest(l);
    l' := Swapped(l, i, x);
    PartsSwapped(l, top, i, x);
    WeightedSwapped(w, l, i, x);
  }

  // All parts are multiples of the smallest.
  lemma {:induction false} PartsMultiple(l: seq<nat>, top: nat, len: nat, m: nat)
    requires m <= |l| && len <= top && forall k :: 0 <= k < |l| ==> l[k] <= len
    ensures Parts(l, top, m) % Pow2(top - len) == 0
  {
    hide Pow2;
    if m > 0 {
      PartsMultiple(l, top, len, m - 1);
      PowMultiple(top - l[m - 1], top - len);
      SumMultiple(Parts(l, top, m - 1), Pow2(top - l[m - 1]), Pow2(top - len));
    }
  }

  lemma {:induction false} PowMultiple(a: nat, b: nat)
    requires b <= a
    ensures Pow2(a) % Pow2(b) == 0
    decreases a
  {
    if b < a {
      PowMultiple(a - 1, b);
      SumMultiple(Pow2(a - 1), Pow2(a - 1), Pow2(b));
    } else {
      ModUnique(Pow2(a), Pow2(b), 1, 0);
    }
  }

  lemma SumMultiple(x: nat, y: nat, n: nat)
    requires n > 0 && x % n == 0 && y % n == 0
    ensures (x + y) % n == 0
  {
    ModPart(x, y, n);
  }

  // Below a multiple, the next one still fits.
  lemma NextFits(x: nat, y: nat, n: nat)
    requires n > 0 && x % n == 0 && y % n == 0 && x < y
    ensures x + n <= y
  {
    assert x == n * (x / n) && y == n * (y / n);
    if y / n <= x / n { MulOrder(n, y / n, x / n); }
    MulOrder(n, x / n + 1, y / n);
  }

  // Two codes of one length become one that is a bit shorter.
  lemma JoinedFits(l: seq<nat>, top: nat, len: nat, longer: nat)
    requires (forall k :: 0 <= k < |l| ==> l[k] <= len) && len <= longer <= top
    requires Parts(l, top, |l|) + Pow2(top - len) + Pow2(top - longer) <= Pow2(top)
    ensures len >= 1 && Fits(l + [len - 1], top)
  {
    var n, y := Pow2(top - len), Pow2(top);
    PartsMultiple(l, top, len, |l|);
    PowMultiple(top, top - len);
    ModUnique(n, n, 1, 0);
    SumMultiple(Parts(l, top, |l|), n, n);
    NextFits(Parts(l, top, |l|) + n, y, n);
    assert len == 0 ==> n == y;
    assert Pow2(top - (len - 1)) == 2 * n;
    PartsPrefix(l + [len - 1], l, top, |l|);
  }

  lemma SmallCost(m: multiset<nat>)
    requires |m| <= 1
    ensures JoinCost(m) == 0
  {}

  lemma WithoutElements(s: seq<nat>, k: nat, i: nat)
    requires k < |s| && i < |s| - 1
    ensures Without(s, k)[i] == s[if i < k then i else i + 1]
  {}

  // What is left after taking the longest code twice is no longer than the second one.
  lemma LengthsBelow(l1: seq<nat>, i: nat, l3: seq<nat>, j: nat)
    requires i < |l1| && j < |l3| && multiset(l3) == multiset(Without(l1, i))
    requires (forall k :: 0 <= k < |l1| ==> l1[k] <= l1[i]) && forall k :: 0 <= k < |l3| ==> l3[k] <= l3[j]
    ensures l3[j] <= l1[i] && forall k :: 0 <= k < |l3| - 1 ==> Without(l3, j)[k] <= l3[j]
  {
    var l2 := Without(l1, i);
    assert l3[j] in multiset(l3);
    assert l3[j] in l2;
    var k: nat :| k < |l2| && l2[k] == l3[j];
    WithoutElements(l1, i, k);
    forall k: nat | k < |l3| - 1
      ensures Without(l3, j)[k] <= l3[j]
    {
      WithoutElements(l3, j, k);
    }
  }

  lemma LeastTwo(w: seq<nat>, i: nat, j: nat)
    requires |w| >= 2 && i < |w| && (forall k :: 0 <= k < |w| ==> w[i] <= w[k]) && j < |w| - 1
    requires forall k :: 0 <= k < |w| - 1 ==> Without(w, i)[j] <= Without(w, i)[k]
    ensures var w2 := Without(w, i); var w4 := Without(w2, j);
            JoinCost(multiset(w)) == w[i] + w2[j] + JoinCost(multiset(w4 + [w[i] + w2[j]]))
  {
    hide JoinCost, Without;
    var w2 := Without(w, i);
    var w4 := Without(w2, j);
    WithoutSame(w, i);
    WithoutSame(w2, j);
    WithoutElements(w, i, j);
    forall y: nat | y in multiset(w4)
      ensures w2[j] <= y
    {
      var k: nat :| k < |w4| && w4[k] == y;
      WithoutElements(w2, j, k);
    }
    var rest: multiset<nat>, sum: multiset<nat> := multiset(w4), multiset{w[i] + w2[j]};
    JoinCostStep(multiset(w), w[i], w2[j], rest);
    assert multiset(w4 + [w[i] + w2[j]]) == rest + sum;
  }

  lemma Heaped(a: nat, b: nat, long: nat, len: nat)
    requires 1 <= len <= long
    ensures a * long + b * len >= (a + b) * (len - 1) + (a + b)
  {
    MulOrder(a, len, long);
  }

  // No lengths that meet the inequality cost less than joining the lightest.
  lemma {:induction false} CostAtLeast(w: seq<nat>, l: seq<nat>, top: nat)
    requires |w| == |l| && Fits(l, top)
    ensures Weighted(w, l, |w|) >= JoinCost(multiset(w))
    decreases |w|
  {
    hide JoinCost, Weighted, Parts, Without, Pow2;
    assert |multiset(w)| == |w|;
    if |w| <= 1 {
      SmallCost(multiset(w));
    } else {
      var i, l1 := LightestLongest(w, l, top);
      var w2, l2, a := Without(w, i), Without(l1, i), w[i];
      WeightedWithout(w, l1, i, |w|);
      PartsWithout(l1, top, i, |w|);
      assert Fits(l2, top);
      var j, l3 := LightestLongest(w2, l2, top);
      var w4, l4, b := Without(w2, j), Without(l3, j), w2[j];
      WeightedWithout(w2, l3, j, |w2|);
      PartsWithout(l3, top, j, |w2|);
      LengthsBelow(l1, i, l3, j);
      JoinedFits(l4, top, l3[j], l1[i]);
      CostAtLeast(w4 + [a + b], l4 + [l3[j] - 1], top);
      WeightedLast(w4, l4, a + b, l3[j] - 1);
      LeastTwo(w, i, j);
      Heaped(a, b, l1[i], l3[j]);
    }
  }

  lemma WeightedLast(w: seq<nat>, l: seq<nat>, x: nat, y: nat)
    requires |w| == |l|
    ensures Weighted(w + [x], l + [y], |w| + 1) == Weighted(w, l, |w|) + x * y
  {
    WeightedPrefix(w + [x], w, l + [y], l, |w|);
  }

  // ----- The tree ------------------------------------------------------------------------------

  // What is in the two queues.
  function Queued(t: Tree, i: nat, b: nat, e: nat): multiset<nat>
    requires i <= |t.w| && b <= e <= |t.v|
  {
    multiset(t.w[i..]) + multiset(t.v[b..e])
  }

  function ItemTaken(t: Tree, i: nat, b: nat, e: nat): nat
    requires i <= |t.w| && b <= e <= |t.v| && (i < |t.w| || b < e)
  {
    if TakesLeaf(t, i, b, e) then t.w[i] else t.v[b]
  }

  function NextLeaf(t: Tree, i: nat, b: nat, e: nat): nat
    requires e <= |t.v|
  {
    if TakesLeaf(t, i, b, e) then i + 1 else i
  }

  function NextNode(t: Tree, i: nat, b: nat, e: nat): nat
    requires e <= |t.v|
  {
    if TakesLeaf(t, i, b, e) then b else b + 1
  }

  ghost predicate InQueues(t: Tree, i: nat, b: nat, e: nat, least: nat)
    requires e <= |t.v|
  {
    (forall k :: i <= k < |t.w| ==> t.w[k] >= least) && (forall x :: b <= x < e ==> t.v[x] >= least)
  }

  // The item taken is the least in the queues.
  lemma TakesLeast(t: Tree, i: nat, b: nat, e: nat)
    requires i <= |t.w| && b <= e <= |t.v| && (i < |t.w| || b < e)
    requires HeapSorting.Sorted(t.w) && HeapSorting.Sorted(t.v[..e])
    ensures NextLeaf(t, i, b, e) <= |t.w| && NextNode(t, i, b, e) <= e && InQueues(t, i, b, e, ItemTaken(t, i, b, e))
    ensures Queued(t, i, b, e) ==
            Queued(t, NextLeaf(t, i, b, e), NextNode(t, i, b, e), e) + multiset{ItemTaken(t, i, b, e)}
  {
    forall y | b < y < e
      ensures t.v[b] <= t.v[y]
    {
      assert t.v[..e][b] <= t.v[..e][y];
    }
    if TakesLeaf(t, i, b, e) {
      assert t.w[i..] == [t.w[i]] + t.w[i + 1..];
    } else {
      assert t.v[b..e] == [t.v[b]] + t.v[b + 1..e];
    }
  }

  lemma QueuedLeast(t: Tree, i: nat, b: nat, e: nat, least: nat)
    requires i <= |t.w| && b <= e <= |t.v| && InQueues(t, i, b, e, least)
    ensures forall y: nat :: y in Queued(t, i, b, e) ==> least <= y
  {
    forall y: nat | y in Queued(t, i, b, e)
      ensures least <= y
    {
      if y in t.w[i..] {
        var k: nat :| k < |t.w| - i && t.w[i..][k] == y;
        assert t.w[i + k] == y;
      } else {
        assert y in t.v[b..e];
        var k: nat :| k < e - b && t.v[b..e][k] == y;
        assert t.v[b + k] == y;
      }
    }
  }

  // Before node e: the nodes so far are in order, and nothing left is lighter than the last one taken.
  ghost predicate Rising(t: Tree, e: nat, least: nat)
    requires e <= |t.v| && e < |t.cut|
  {
    && 0 <= Taken(t, e) <= e && t.cut[e] <= |t.w| && HeapSorting.Sorted(t.v[..e])
    && InQueues(t, t.cut[e], Taken(t, e), e, least) && (e > 0 ==> t.v[e - 1] <= 2 * least)
  }

  lemma TotalStep(t: Tree, i: nat, b: nat, e: nat)
    requires i <= |t.w| && b <= e <= |t.v| && (i < |t.w| || b < e)
    ensures NextLeaf(t, i, b, e) <= |t.w| && NextNode(t, i, b, e) <= e
    ensures Total(t.w, NextLeaf(t, i, b, e)) + Total(t.v, NextNode(t, i, b, e)) ==
            Total(t.w, i) + Total(t.v, b) + ItemTaken(t, i, b, e)
  {}

  // Node e stands for the two items taken for it.
  lemma NodeIsSum(t: Tree, e: nat, i: nat, b: nat, i1: nat, b1: nat)
    requires Grown(t) && e < |t.w| - 1 && Choices(t, |t.w| - 1)
    requires i == t.cut[e] && b == Taken(t, e) && i1 == NextLeaf(t, i, b, e) && b1 == NextNode(t, i, b, e)
    ensures i <= |t.w| && b <= e && (i < |t.w| || b < e) && i1 <= |t.w| && b1 <= e && (i1 < |t.w| || b1 < e)
    ensures t.v[e] == ItemTaken(t, i, b, e) + ItemTaken(t, i1, b1, e)
    ensures t.cut[e + 1] == NextLeaf(t, i1, b1, e) && Taken(t, e + 1) == NextNode(t, i1, b1, e)
  {
    hide Total;
    assert Joins(t, e) && Chosen(t, e, i, b, t.cut[e + 1]);
    CutRises(t, e, |t.v|);
    TotalStep(t, i, b, e);
    TotalStep(t, i1, b1, e);
  }

  lemma RisesOn(t: Tree, e: nat, least: nat) returns (least': nat)
    requires Grown(t) && e < |t.w| - 1 && Choices(t, |t.w| - 1) && HeapSorting.Sorted(t.w) && Rising(t, e, least)
    ensures Rising(t, e + 1, least')
    ensures JoinCost(Queued(t, t.cut[e], Taken(t, e), e)) ==
            t.v[e] + JoinCost(Queued(t, t.cut[e + 1], Taken(t, e + 1), e + 1))
  {
    hide HeapSorting.Sorted, JoinCost, Choices, Joins, NextLeaf, NextNode, ItemTaken, Queued, Total;
    var i: nat, b: nat := t.cut[e], Taken(t, e);
    var i1, b1 := NextLeaf(t, i, b, e), NextNode(t, i, b, e);
    NodeIsSum(t, e, i, b, i1, b1);
    TakesLeast(t, i, b, e);
    TakesLeast(t, i1, b1, e);
    var i2: nat, b2: nat := t.cut[e + 1], Taken(t, e + 1);
    var x, y := ItemTaken(t, i, b, e), ItemTaken(t, i1, b1, e);
    least' := y;
    InOrder(t, i, b, e, i1, b1, least);
    QueueShrinks(t, i1, b1, e, y);
    JoinedNext(t, e, i, b, i2, b2, x, y);
    SortedSnoc(t.v[..e], t.v[e]);
    assert t.v[..e + 1] == t.v[..e] + [t.v[e]];
  }

  // The second item is not lighter than the first, nor the first than what was taken before.
  lemma InOrder(t: Tree, i: nat, b: nat, e: nat, i1: nat, b1: nat, least: nat)
    requires i <= |t.w| && b <= e <= |t.v| && (i < |t.w| || b < e) && (i1 < |t.w| || b1 < e)
    requires i1 == NextLeaf(t, i, b, e) <= |t.w| && b1 == NextNode(t, i, b, e) <= e
    requires InQueues(t, i, b, e, least) && InQueues(t, i, b, e, ItemTaken(t, i, b, e))
    ensures least <= ItemTaken(t, i, b, e) <= ItemTaken(t, i1, b1, e)
  {}

  lemma QueueShrinks(t: Tree, i: nat, b: nat, e: nat, y: nat)
    requires e <= |t.v| && InQueues(t, i, b, e, y)
    ensures InQueues(t, NextLeaf(t, i, b, e), NextNode(t, i, b, e), e, y)
  {}

  lemma JoinedNext(t: Tree, e: nat, i: nat, b: nat, i2: nat, b2: nat, x: nat, y: nat)
    requires i <= |t.w| && i2 <= |t.w| && b <= e < |t.v| && b2 <= e && x <= y && t.v[e] == x + y
    requires Queued(t, i, b, e) == Queued(t, i2, b2, e) + multiset{y} + multiset{x} && InQueues(t, i2, b2, e, y)
    ensures JoinCost(Queued(t, i, b, e)) == t.v[e] + JoinCost(Queued(t, i2, b2, e + 1))
  {
    hide JoinCost, Queued;
    QueuedLeast(t, i2, b2, e, y);
    var q := Queued(t, i2, b2, e);
    assert Queued(t, i, b, e) == q + multiset{x} + multiset{y};
    JoinCostStep(Queued(t, i, b, e), x, y, q);
    QueuedNode(t, i2, b2, e);
  }

  lemma QueuedNode(t: Tree, i: nat, b: nat, e: nat)
    requires i <= |t.w| && b <= e < |t.v|
    ensures Queued(t, i, b, e + 1) == Queued(t, i, b, e) + multiset{t.v[e]}
  {
    assert t.v[b..e + 1] == t.v[b..e] + [t.v[e]];
  }

  lemma SortedSnoc(s: seq<nat>, x: nat)
    requires HeapSorting.Sorted(s) && (s != [] ==> s[|s| - 1] <= x)
    ensures HeapSorting.Sorted(s + [x])
  {}

  // The tree always joins the two lightest, so its nodes weigh what that costs.
  lemma {:induction false} NodesCost(t: Tree, e: nat, least: nat)
    requires Grown(t) && e <= |t.w| - 1 && Choices(t, |t.w| - 1) && HeapSorting.Sorted(t.w) && Rising(t, e, least)
    ensures t.cut[e] <= |t.w| && 0 <= Taken(t, e) <= e
    ensures Total(t.v, |t.v|) == Total(t.v, e) + JoinCost(Queued(t, t.cut[e], Taken(t, e), e))
    decreases |t.w| - e
  {
    hide HeapSorting.Sorted, JoinCost, Choices, Queued;
    if e < |t.w| - 1 {
      var least' := RisesOn(t, e, least);
      NodesCost(t, e + 1, least');
    } else {
      LastQueued(t, e);
    }
  }

  lemma LastQueued(t: Tree, e: nat)
    requires Grown(t) && e == |t.w| - 1
    ensures Taken(t, e) <= e && JoinCost(Queued(t, t.cut[e], Taken(t, e), e)) == 0
  {
    assert Joins(t, e - 1);
    assert t.w[|t.w|..] == [] && |t.v[e - 1..e]| == 1;
    SmallCost(Queued(t, t.cut[e], Taken(t, e), e));
  }

  lemma TreeCost(t: Tree)
    requires Grown(t) && Choices(t, |t.w| - 1) && HeapSorting.Sorted(t.w)
    ensures Total(t.v, |t.v|) == JoinCost(multiset(t.w))
  {
    hide JoinCost, Choices, Queued;
    FirstQueued(t);
    NodesCost(t, 0, 0);
  }

  lemma FirstQueued(t: Tree)
    requires Grown(t)
    ensures t.cut[0] == 0 && Rising(t, 0, 0) && Queued(t, 0, 0, 0) == multiset(t.w)
  {
    assert t.v[..0] == [] && t.w[0..] == t.w && t.v[0..0] == [];
  }

  // ----- The depths of the leaves --------------------------------------------------------------

  lemma {:induction false} WeightedRange(w: seq<nat>, l: seq<nat>, a: nat, b: nat, v: nat)
    requires a <= b <= |w| && b <= |l| && forall k :: a <= k < b ==> l[k] == v
    ensures Weighted(w, l, b) == Weighted(w, l, a) + (Total(w, b) - Total(w, a)) * v
    decreases b
  {
    if a < b {
      WeightedRange(w, l, a, b - 1, v);
      Split(Total(w, b - 1) - Total(w, a), w[b - 1], v);
    }
  }

  lemma Split(a: int, b: int, v: int)
    ensures (a + b) * v == a * v + b * v
  {}

  // Items weighted with their depths, against the nodes above them.
  lemma {:induction false} DepthCost(t: Tree, e: nat)
    requires Grown(t) && e <= |t.w| - 1
    ensures 0 <= Taken(t, e) <= e && t.cut[e] <= |t.w|
    ensures Weighted(t.v, Depths(t), e) + Total(t.v, e)
         == Weighted(t.w, LeafDepths(t), t.cut[e]) + Weighted(t.v, Depths(t), Taken(t, e))
  {
    hide Depth, LeafDepth, Weighted, Total;
    if e > 0 {
      DepthCost(t, e - 1);
      NodeCost(t, e - 1);
    } else {
      NoCost(t);
    }
  }

  lemma NoCost(t: Tree)
    requires Grown(t)
    ensures t.cut[0] == 0 && Taken(t, 0) == 0 && Total(t.v, 0) == 0
    ensures Weighted(t.v, Depths(t), 0) == 0 && Weighted(t.w, LeafDepths(t), 0) == 0
  {}

  lemma NodeCost(t: Tree, e: nat)
    requires Grown(t) && e < |t.w| - 1
    ensures Joins(t, e) && Total(t.v, e + 1) == Total(t.v, e) + t.v[e]
    ensures Weighted(t.v, Depths(t), e + 1) + t.v[e] - Weighted(t.v, Depths(t), e)
         == Weighted(t.w, LeafDepths(t), t.cut[e + 1]) - Weighted(t.w, LeafDepths(t), t.cut[e])
            + Weighted(t.v, Depths(t), Taken(t, e + 1)) - Weighted(t.v, Depths(t), Taken(t, e))
  {
    hide Depth, LeafDepth;
    var d := Depth(t, e);
    assert Joins(t, e);
    forall k: nat | t.cut[e] <= k < t.cut[e + 1]
      ensures LeafDepths(t)[k] == d + 1
    {
      LeafBelow(t, e, k);
    }
    forall x: nat | Taken(t, e) <= x < Taken(t, e + 1)
      ensures Depths(t)[x] == d + 1
    {
      NodeBelow(t, e, x);
    }
    WeightedRange(t.w, LeafDepths(t), t.cut[e], t.cut[e + 1], d + 1);
    WeightedRange(t.v, Depths(t), Taken(t, e), Taken(t, e + 1), d + 1);
    Split(Total(t.w, t.cut[e + 1]) - Total(t.w, t.cut[e]),
          Total(t.v, Taken(t, e + 1)) - Total(t.v, Taken(t, e)), d + 1);
    OneDeeper(t.v[e], d);
  }

  lemma OneDeeper(a: nat, d: nat)
    ensures a * (d + 1) == a * d + a
  {}

  // The leaves cost what the nodes weigh.
  lemma LeavesCost(t: Tree)
    requires Grown(t)
    ensures Weighted(t.w, LeafDepths(t), |t.w|) == Total(t.v, |t.v|)
  {
    var e: nat := |t.w| - 1;
    DepthCost(t, e);
    assert Joins(t, e - 1);
    assert Depth(t, e - 1) == 0;
    assert Weighted(t.v, Depths(t), e) == Weighted(t.v, Depths(t), e - 1) + t.v[e - 1] * 0;
  }

  // No code for these weights costs less than the depths of the tree.
  lemma TreeOptimal(t: Tree, l: seq<nat>, top: nat)
    requires Grown(t) && Choices(t, |t.w| - 1) && HeapSorting.Sorted(t.w) && |l| == |t.w| && Fits(l, top)
    ensures Weighted(t.w, LeafDepths(t), |t.w|) <= Weighted(t.w, l, |t.w|)
  {
    LeavesCost(t);
    TreeCost(t);
    CostAtLeast(t.w, l, top);
  }
}
