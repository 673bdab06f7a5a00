// From the tree to the code lengths: how many leaves are how deep, no deeper than a limit.

module HuffmanLengths {
  import opened Words
  import opened Permutations
  import opened Counting
  import opened HuffmanSymbols
  import opened HuffmanTree

  const MAX_LEN := 16

  // ----- Depths --------------------------------------------------------------------------------

  lemma {:induction false} CutRises(t: Tree, a: nat, b: nat)
    requires Growing(t, |t.v|) && a <= b <= |t.v|
    ensures t.cut[a] <= t.cut[b] && Taken(t, a) <= Taken(t, b)
    decreases b
  {
    if a < b {
      assert Joins(t, b - 1);
      CutRises(t, a, b - 1);
    }
  }

  lemma ParentAbove(t: Tree, x: nat)
    requires Grown(t) && x < |t.w| - 2
    ensures |t.par| == |t.w| - 2 && x < t.par[x] <= |t.w| - 2
  {
    assert NodeUnder(t, x) && Joins(t, t.par[x]);
  }

  lemma ParentsRise(t: Tree, x: nat, y: nat)
    requires Grown(t) && x <= y < |t.w| - 2
    ensures |t.par| == |t.w| - 2 && t.par[x] <= t.par[y]
  {
    assert NodeUnder(t, x) && NodeUnder(t, y);
    if t.par[y] < t.par[x] { CutRises(t, t.par[y] + 1, t.par[x]); }
  }

  lemma TopsRise(t: Tree, j: nat, k: nat)
    requires Grown(t) && j <= k < |t.w|
    ensures |t.top| == |t.w| && t.top[j] <= t.top[k] <= |t.w| - 2
  {
    assert LeafUnder(t, j) && LeafUnder(t, k);
    if t.top[k] < t.top[j] { CutRises(t, t.top[k] + 1, t.top[j]); }
  }

  // The root is the last node.
  function Depth(t: Tree, x: nat): nat
    requires Grown(t) && x <= |t.w| - 2
    decreases |t.w| - x
  {
    if x == |t.w| - 2 then 0 else
    ParentAbove(t, x);
    1 + Depth(t, t.par[x])
  }

  function Depths(t: Tree): (d: seq<nat>)
    requires Grown(t)
    ensures |d| == |t.w| - 1 && forall x :: 0 <= x < |d| ==> d[x] == Depth(t, x)
  {
    seq(|t.w| - 1, x requires 0 <= x < |t.w| - 1 => Depth(t, x))
  }

  function LeafDepth(t: Tree, k: nat): nat
    requires Grown(t) && k < |t.w|
  {
    TopsRise(t, k, k);
    1 + Depth(t, t.top[k])
  }

  function LeafDepths(t: Tree): (d: seq<nat>)
    requires Grown(t)
    ensures |d| == |t.w| && forall k :: 0 <= k < |d| ==> d[k] == LeafDepth(t, k)
  {
    seq(|t.w|, k requires 0 <= k < |t.w| => LeafDepth(t, k))
  }

  // Later nodes are not deeper.
  lemma {:induction false} DepthFalls(t: Tree, x: nat, y: nat)
    requires Grown(t) && x <= y <= |t.w| - 2
    ensures Depth(t, x) >= Depth(t, y)
    decreases |t.w| - x
  {
    if y < |t.w| - 2 {
      ParentAbove(t, x);
      ParentAbove(t, y);
      ParentsRise(t, x, y);
      DepthFalls(t, t.par[x], t.par[y]);
    }
  }

  ghost predicate Falling(s: seq<nat>) { forall i, j :: 0 <= i <= j < |s| ==> s[i] >= s[j] }

  lemma LeavesFall(t: Tree)
    requires Grown(t)
    ensures Falling(LeafDepths(t))
  {
    forall j, k | 0 <= j <= k < |t.w|
      ensures LeafDepth(t, j) >= LeafDepth(t, k)
    {
      TopsRise(t, j, k);
      DepthFalls(t, t.top[j], t.top[k]);
    }
  }

  // The two under node e are one deeper.
  lemma LeafBelow(t: Tree, e: nat, k: nat)
    requires Grown(t) && e < |t.w| - 1 && t.cut[e] <= k < t.cut[e + 1]
    ensures k < |t.w| && LeafDepth(t, k) == Depth(t, e) + 1
  {
    assert Joins(t, e);
    CutRises(t, e + 1, |t.v|);
    assert LeafUnder(t, k);
    if t.top[k] < e { CutRises(t, t.top[k] + 1, e); }
    if e < t.top[k] { CutRises(t, e + 1, t.top[k]); }
  }

  lemma NodeBelow(t: Tree, e: nat, x: nat)
    requires Grown(t) && e < |t.w| - 1 && Taken(t, e) <= x < Taken(t, e + 1)
    ensures x < e && Depth(t, x) == Depth(t, e) + 1
  {
    assert Joins(t, e);
    ParentAbove(t, x);
    assert NodeUnder(t, x);
    if t.par[x] < e { CutRises(t, t.par[x] + 1, e); }
    if e < t.par[x] { CutRises(t, e + 1, t.par[x]); }
  }

  // ----- How many leaves are how deep ----------------------------------------------------------

  lemma {:induction false} CountRange(s: seq<nat>, l: nat, a: nat, b: nat, v: nat)
    requires a <= b <= |s| && forall k :: a <= k < b ==> s[k] == v
    ensures Count(s, l, b) == Count(s, l, a) + if l == v then b - a else 0
    decreases b
  {
    if a < b { CountRange(s, l, a, b - 1, v); }
  }

  lemma {:induction false} CountMore(s: seq<nat>, l: nat, a: nat, b: nat)
    requires a <= b <= |s|
    ensures Count(s, l, a) <= Count(s, l, b)
    decreases b
  {
    if a < b { CountMore(s, l, a, b - 1); }
  }

  // With the nodes from e on in place: the open ends, leaves or nodes below e, of each depth.
  ghost predicate Ends(t: Tree, counters: seq<nat>, e: nat)
    requires Grown(t) && e <= |t.w| - 1
  {
    |counters| == MAX_LEN + 1 && Taken(t, e) >= 0 && t.cut[e] <= |t.w| && Taken(t, e) <= e &&
    forall l: nat :: l <= MAX_LEN ==> EndsAt(t, counters, e, l)
  }

  ghost predicate EndsAt(t: Tree, counters: seq<nat>, e: nat, l: nat)
    requires Grown(t) && e <= |t.w| - 1 && l < |counters|
  {
    && t.cut[e] <= |t.w| && 0 <= Taken(t, e) <= e
    && counters[l] + Count(LeafDepths(t), l, t.cut[e]) + Count(Depths(t), l, Taken(t, e))
       == Count(LeafDepths(t), l, |t.w|) + Count(Depths(t), l, e)
  }

  // Putting node e in place: one end less at its depth, two more below.
  lemma EndsMove(t: Tree, e: nat, l: nat)
    requires Grown(t) && e < |t.w| - 1
    ensures Joins(t, e)
    ensures Count(LeafDepths(t), l, t.cut[e + 1]) + Count(Depths(t), l, Taken(t, e + 1))
         == Count(LeafDepths(t), l, t.cut[e]) + Count(Depths(t), l, Taken(t, e)) + if l == Depth(t, e) + 1 then 2 else 0
    ensures Count(Depths(t), l, e + 1) == Count(Depths(t), l, e) + if l == Depth(t, e) then 1 else 0
  {
    assert Joins(t, e);
    forall k: nat | t.cut[e] <= k < t.cut[e + 1]
      ensures LeafDepths(t)[k] == Depth(t, e) + 1
    {
      LeafBelow(t, e, k);
    }
    forall x: nat | Taken(t, e) <= x < Taken(t, e + 1)
      ensures Depths(t)[x] == Depth(t, e) + 1
    {
      NodeBelow(t, e, x);
    }
    CountRange(LeafDepths(t), l, t.cut[e], t.cut[e + 1], Depth(t, e) + 1);
    CountRange(Depths(t), l, Taken(t, e), Taken(t, e + 1), Depth(t, e) + 1);
  }

  // There is an end where the node belongs.
  lemma EndThere(t: Tree, counters: seq<nat>, e: nat)
    requires Grown(t) && e < |t.w| - 2 && Ends(t, counters, e + 1) && Depth(t, e) <= MAX_LEN
    ensures counters[Depth(t, e)] >= 1
  {
    hide Depth, LeafDepth;
    var l := Depth(t, e);
    assert Joins(t, e) && EndsAt(t, counters, e + 1, l);
    CountMore(Depths(t), l, Taken(t, e + 1), e);
    CountMore(LeafDepths(t), l, t.cut[e + 1], |t.w|);
  }

  // The step of the program on the counters.
  function Moved(counters: seq<nat>, l: nat): (r: seq<nat>)
    requires l + 1 < |counters| && counters[l] >= 1
    ensures |r| == |counters|
  {
    counters[l := counters[l] - 1][l + 1 := counters[l + 1] + 2]
  }

  lemma EndsNext(t: Tree, counters: seq<nat>, e: nat)
    requires Grown(t) && e < |t.w| - 2 && Ends(t, counters, e + 1) && Depth(t, e) < MAX_LEN
    requires counters[Depth(t, e)] >= 1
    ensures Ends(t, Moved(counters, Depth(t, e)), e)
  {
    hide Depth, LeafDepth;
    assert Joins(t, e);
    forall l: nat | l <= MAX_LEN
      ensures EndsAt(t, Moved(counters, Depth(t, e)), e, l)
    {
      assert EndsAt(t, counters, e + 1, l);
      EndsMove(t, e, l);
    }
  }

  lemma EndsFirst(t: Tree, counters: seq<nat>)
    requires Grown(t) && |counters| == MAX_LEN + 1
    requires forall l: nat :: l <= MAX_LEN ==> counters[l] == if l == 1 then 2 else 0
    ensures Ends(t, counters, |t.w| - 2)
  {
    hide LeafDepth;
    var e: nat := |t.w| - 2;
    assert Joins(t, e);
    forall l: nat | l <= MAX_LEN
      ensures EndsAt(t, counters, e, l)
    {
      EndsMove(t, e, l);
    }
  }

  // At the end the counters are the depths of the leaves.
  lemma EndsLast(t: Tree, counters: seq<nat>)
    requires Grown(t) && Ends(t, counters, 0)
    ensures forall l: nat :: l <= MAX_LEN ==> counters[l] == Count(LeafDepths(t), l, |t.w|)
  {
    hide Depth, LeafDepth;
    assert Joins(t, 0);
    forall l: nat | l <= MAX_LEN
      ensures counters[l] == Count(LeafDepths(t), l, |t.w|)
    {
      assert EndsAt(t, counters, 0, l);
    }
  }

  // ----- The sum of Kraft ----------------------------------------------------------------------

  // The share of a code of length l, of 2^16 in all.
  function Unit(l: nat): (u: nat)
    requires l <= MAX_LEN
    ensures u >= 1
  {
    Pow2(MAX_LEN - l)
  }

  function Kraft(counters: seq<nat>, m: nat): nat
    requires m <= |counters| <= MAX_LEN + 1
  {
    if m == 0 then 0 else Kraft(counters, m - 1) + counters[m - 1] * Unit(m - 1)
  }

  lemma {:induction false} KraftUpdate(counters: seq<nat>, l: nat, v: nat, m: nat)
    requires l < |counters| <= MAX_LEN + 1 && m <= |counters|
    ensures Kraft(counters[l := v], m) == Kraft(counters, m) + if l < m then (v as int - counters[l]) * Unit(l) else 0
    ensures Total(counters[l := v], m) == Total(counters, m) + if l < m then v as int - counters[l] else 0
    decreases m
  {
    hide Unit;
    if m > 0 {
      KraftUpdate(counters, l, v, m - 1);
      if l == m - 1 { Spread(v, counters[l], Unit(l)); }
    }
  }

  lemma Spread(a: int, b: int, u: int)
    ensures (a - b) * u == a * u - b * u
  {}

  // Codes for n leaves, none longer than maxLen, that leave no room.
  ghost predicate Full(counters: seq<nat>, maxLen: nat, n: nat) {
    && 1 <= maxLen <= MAX_LEN && |counters| == MAX_LEN + 1 && counters[0] == 0
    && (forall l :: maxLen < l <= MAX_LEN ==> counters[l] == 0)
    && Kraft(counters, MAX_LEN + 1) == 0x1_0000 && Total(counters, MAX_LEN + 1) == n
  }

  // Taking one code of length l and giving two longer ones keeps the sum.
  lemma FullMoved(counters: seq<nat>, maxLen: nat, n: nat, l: nat)
    requires Full(counters, maxLen, n) && 1 <= l < maxLen && counters[l] >= 1
    ensures Full(Moved(counters, l), maxLen, n + 1)
  {
    hide Unit, Kraft, Total;
    KraftUpdate(counters, l, counters[l] - 1, MAX_LEN + 1);
    KraftUpdate(counters[l := counters[l] - 1], l + 1, counters[l + 1] + 2, MAX_LEN + 1);
    UnitHalves(l + 1);
  }

  lemma UnitHalves(l: nat)
    requires 1 <= l <= MAX_LEN
    ensures Unit(l - 1) == 2 * Unit(l)
  {}

  // The search for a shorter code ends exactly when not all 2^maxLen codes of the limit are given.
  lemma RoomLeft(counters: seq<nat>, maxLen: nat, n: nat)
    requires Full(counters, maxLen, n)
    ensures n != Pow2(maxLen) <==> exists l: nat :: 1 <= l < maxLen && counters[l] > 0
    ensures n <= Pow2(maxLen)
  {
    hide Unit, Pow2;
    Deepest(counters, maxLen, MAX_LEN + 1);
    AllUnits(maxLen);
    UnitAbove(maxLen);
  }

  lemma UnitAbove(maxLen: nat)
    requires 1 <= maxLen <= MAX_LEN
    ensures Unit(maxLen) >= 1
  {}

  // Above the limit nothing counts; below it, codes weigh more than at the limit.
  lemma {:induction false} Deepest(counters: seq<nat>, maxLen: nat, m: nat)
    requires 1 <= maxLen <= MAX_LEN && |counters| == MAX_LEN + 1 && m <= |counters| && counters[0] == 0
    requires forall l :: maxLen < l <= MAX_LEN ==> counters[l] == 0
    ensures Kraft(counters, m) >= Total(counters, m) * Unit(maxLen)
    ensures Kraft(counters, m) == Total(counters, m) * Unit(maxLen) <==>
            forall l: nat :: 1 <= l < maxLen && l < m ==> counters[l] == 0
    decreases m
  {
    hide Unit;
    if m > 0 {
      var c, u, w := counters[m - 1], Unit(maxLen), Unit(m - 1);
      Deepest(counters, maxLen, m - 1);
      assert Total(counters, m) * u == Total(counters, m - 1) * u + c * u by {
        Distribute(Total(counters, m - 1), c, u);
      }
      if m - 1 < maxLen {
        UnitFalls(m - 1, maxLen);
        Heavier(c, w, u);
      }
    }
  }

  lemma Distribute(a: nat, b: nat, u: nat)
    ensures (a + b) * u == a * u + b * u
  {}

  lemma Heavier(c: nat, w: nat, u: nat)
    requires w > u
    ensures c * w >= c * u && (c * w == c * u <==> c == 0)
  {
    assert c * w == c * u + c * (w - u);
    if c > 0 { MulGe(c, w - u); }
  }

  lemma {:induction false} UnitFalls(a: nat, b: nat)
    requires a < b <= MAX_LEN
    ensures Unit(a) > Unit(b)
    decreases b
  {
    UnitHalves(b);
    if a < b - 1 { UnitFalls(a, b - 1); }
  }

  lemma {:induction false} AllUnits(l: nat)
    requires l <= MAX_LEN
    ensures Pow2(l) * Unit(l) == 0x1_0000
  {
    if l == 0 {
      assert Pow2(16) == 0x1_0000 by { PowerTable(); }
    } else {
      AllUnits(l - 1);
      UnitHalves(l);
      assert Pow2(l) == 2 * Pow2(l - 1);
      assert Pow2(l) * Unit(l) == Pow2(l - 1) * (2 * Unit(l));
    }
  }

  // ----- The program ---------------------------------------------------------------------------

  // The numbers above the symbols: depths from node e on, parents before it.
  ghost predicate Walked(t: Tree, p: seq<nat>, syms: seq<nat>, e: nat) {
    && Grown(t) && |t.w| == |p| == |syms| <= SYMBOLS && e <= |p| - 2 && |t.par| == |p| - 2
    && (forall k :: 0 <= k < |p| ==> Sym(p[k]) == Sym(syms[k]))
    && (forall x: nat :: e <= x <= |p| - 2 ==> Up(p[x]) == Depth(t, x))
    && (forall x: nat :: x < e ==> Up(p[x]) == t.par[x])
  }

  lemma WalkNext(t: Tree, p: seq<nat>, syms: seq<nat>, e: nat)
    requires Walked(t, p, syms, e + 1)
    ensures e < Up(p[e]) <= |p| - 2 && Up(p[Up(p[e])]) + 1 == Depth(t, e)
    ensures Walked(t, p[e := Pack(Sym(p[e]), Depth(t, e))], syms, e)
  {
    ParentAbove(t, e);
  }

  // The counters keep a full code; while no node was too deep, they are the depths of the open ends.
  ghost predicate Kept(t: Tree, counters: seq<nat>, maxLen: nat, e: nat, limited: bool)
    requires Grown(t) && e <= |t.w| - 2
  {
    && Full(counters, maxLen, |t.w| - e) && |t.w| <= Pow2(maxLen)
    && if limited then Depth(t, e) >= maxLen else Ends(t, counters, e)
  }

  lemma CountShallow(t: Tree, counters: seq<nat>, maxLen: nat, e: nat, limited: bool)
    requires Grown(t) && e < |t.w| - 2 && Kept(t, counters, maxLen, e + 1, limited) && Depth(t, e) < maxLen
    ensures 1 <= Depth(t, e) < |counters| - 1 && counters[Depth(t, e)] >= 1
    ensures Kept(t, Moved(counters, Depth(t, e)), maxLen, e, false)
  {
    hide Ends;
    DepthFalls(t, e, e + 1);
    ParentAbove(t, e);
    EndThere(t, counters, e);
    EndsNext(t, counters, e);
    FullMoved(counters, maxLen, |t.w| - (e + 1), Depth(t, e));
  }

  lemma CountDeep(t: Tree, counters: seq<nat>, maxLen: nat, e: nat, limited: bool, l: nat)
    requires Grown(t) && e < |t.w| - 2 && Kept(t, counters, maxLen, e + 1, limited) && Depth(t, e) >= maxLen
    requires 1 <= l < maxLen && l < |counters| && counters[l] >= 1
    ensures l + 1 < |counters| && Kept(t, Moved(counters, l), maxLen, e, true)
  {
    hide Ends;
    FullMoved(counters, maxLen, |t.w| - (e + 1), l);
  }

  // Node e puts two codes in place of one, of length l: its depth, or if that reaches the limit, the
  // greatest length below the limit that still has a code.
  ghost predicate SplitsAt(t: Tree, maxLen: nat, e: nat, c: seq<nat>, c': seq<nat>, l: nat)
    requires Grown(t) && e <= |t.w| - 2
  {
    && 1 <= l < maxLen && l + 1 < |c| == |c'| && c[l] > 0
    && c'[l] == c[l] - 1 && c'[l + 1] == c[l + 1] + 2
    && (forall k :: 0 <= k < |c| && k != l && k != l + 1 ==> c'[k] == c[k])
    && (if Depth(t, e) < maxLen then l == Depth(t, e) else forall k :: l < k < maxLen && k < |c| ==> c[k] == 0)
  }

  ghost predicate Splits(t: Tree, maxLen: nat, e: nat, c: seq<nat>, c': seq<nat>)
    requires Grown(t) && e <= |t.w| - 2
  {
    exists l: nat :: SplitsAt(t, maxLen, e, c, c', l)
  }

  // The counters after each node, from the root down: first two codes of length 1.
  ghost predicate Splitting(t: Tree, maxLen: nat, cs: seq<seq<nat>>)
    requires Grown(t)
  {
    && 1 <= |cs| <= |t.w| - 1 && |cs[0]| == MAX_LEN + 1
    && (forall l: nat :: l <= MAX_LEN ==> cs[0][l] == if l == 1 then 2 else 0)
    && forall i :: 0 < i < |cs| ==> Splits(t, maxLen, |t.w| - 2 - i, cs[i - 1], cs[i])
  }

  lemma SplittingOn(t: Tree, maxLen: nat, cs: seq<seq<nat>>, e: nat, l: nat)
    requires Grown(t) && |t.w| - 2 == |cs| + e && Splitting(t, maxLen, cs)
    requires var c := cs[|cs| - 1];
      && 1 <= l < maxLen && l + 1 < |c| && c[l] > 0
      && (if Depth(t, e) < maxLen then l == Depth(t, e) else forall k :: l < k < maxLen && k < |c| ==> c[k] == 0)
    ensures Splitting(t, maxLen, cs + [Moved(cs[|cs| - 1], l)])
  {
    hide Depth;
    var next := Moved(cs[|cs| - 1], l);
    assert SplitsAt(t, maxLen, e, cs[|cs| - 1], next, l);
    var all := cs + [next];
    forall i | 0 < i < |all|
      ensures Splits(t, maxLen, |t.w| - 2 - i, all[i - 1], all[i])
    {
      if i < |cs| {
        assert Splits(t, maxLen, |t.w| - 2 - i, cs[i - 1], cs[i]);
      }
    }
  }

  lemma SplittingStarts(t: Tree, maxLen: nat, c: seq<nat>)
    requires Grown(t) && |c| == MAX_LEN + 1 && forall l: nat :: l <= MAX_LEN ==> c[l] == if l == 1 then 2 else 0
    ensures Splitting(t, maxLen, [c])
  {}

  // The greatest length below the limit that has a code to give.
  method FindShorter(counters: array<nat>, maxLen: nat, ghost n: nat) returns (len: nat)
    requires Full(counters[..], maxLen, n) && n < Pow2(maxLen)
    ensures 1 <= len < maxLen <= MAX_LEN && counters.Length == MAX_LEN + 1 && counters[len] > 0
    ensures forall l :: len < l < maxLen ==> counters[l] == 0
  {
    hide Kraft, Total, Pow2;
    RoomLeft(counters[..], maxLen, n);
    ghost var l: nat :| 1 <= l < maxLen && counters[..][l] > 0;
    len := maxLen - 1;
    while counters[len] == 0
      invariant l <= len < maxLen && forall k :: len < k < maxLen ==> counters[k] == 0
      decreases len
    {
      len := len - 1;
    }
  }

  method Move(counters: array<nat>, len: nat)
    requires len + 1 < counters.Length && counters[len] >= 1
    modifies counters
    ensures counters[..] == Moved(old(counters[..]), len)
  {
    counters[len] := counters[len] - 1;
    counters[len + 1] := counters[len + 1] + 2;
  }

  method FirstCounters() returns (counters: array<nat>)
    ensures fresh(counters) && counters.Length == MAX_LEN + 1
    ensures forall l: nat :: l <= MAX_LEN ==> counters[l] == if l == 1 then 2 else 0
  {
    counters := new nat[MAX_LEN + 1];
    var i := 0;
    while i <= MAX_LEN
      invariant 0 <= i <= MAX_LEN + 1 && forall l: nat :: l < i ==> counters[l] == 0
    {
      counters[i] := 0;
      i := i + 1;
    }
    counters[1] := 2;
  }

  lemma {:induction false} FirstSums(counters: seq<nat>, m: nat)
    requires |counters| == MAX_LEN + 1 && 2 <= m <= MAX_LEN + 1
    requires forall l: nat :: l <= MAX_LEN ==> counters[l] == if l == 1 then 2 else 0
    ensures Kraft(counters, m) == 0x1_0000 && Total(counters, m) == 2
    decreases m
  {
    hide Unit;
    if m > 2 {
      FirstSums(counters, m - 1);
    } else {
      AllUnits(1);
      assert Pow2(1) == 2 by { PowerTable(); }
      assert Kraft(counters, 0) == 0 && Kraft(counters, 1) == 0 && Total(counters, 1) == 0;
    }
  }

  method PutNode(p: array<nat>, num: nat, e: nat, ghost t: Tree, ghost syms: seq<nat>) returns (len: nat)
    requires num <= p.Length && e + 1 <= num && Walked(t, p[..num], syms, e + 1)
    modifies p
    ensures p[num..] == old(p[num..]) && Walked(t, p[..num], syms, e) && len == Depth(t, e)
  {
    hide Walked, Depth;
    WalkNext(t, p[..num], syms, e);
    len := Up(p[Up(p[e])]) + 1;
    SetUp(p, num, e, len);
  }

  // How many codes of each length: the depths of the tree, none beyond the limit.
  method CountLengths(p: array<nat>, num: nat, maxLen: nat, ghost t: Tree)
      returns (counters: array<nat>, ghost cs: seq<seq<nat>>)
    requires Grown(t) && |t.w| == num <= SYMBOLS && num <= p.Length && |t.par| == num - 2
    requires 1 <= maxLen <= MAX_LEN && num <= Pow2(maxLen) && forall x :: 0 <= x < num - 2 ==> Up(p[x]) == t.par[x]
    modifies p
    ensures fresh(counters) && p[num..] == old(p[num..]) && Full(counters[..], maxLen, num)
    ensures forall k :: 0 <= k < num ==> Sym(p[k]) == Sym(old(p[k]))
    ensures LeafDepth(t, 0) <= maxLen ==>
              forall l: nat :: l <= MAX_LEN ==> counters[l] == Count(LeafDepths(t), l, num)
    ensures Splitting(t, maxLen, cs) && |cs| == num - 1 && cs[num - 2] == counters[..]
  {
    hide Full, Ends, Kept, Walked, Depth, LeafDepth, Splitting;
    ghost var syms := p[..num];
    counters := FirstCounters();
    var e := num - 2;
    SetUp(p, num, e, 0);
    WalkStarts(t, p[..num], syms, e);
    CountStarts(t, counters[..], maxLen, e);
    cs := [counters[..]];
    SplittingStarts(t, maxLen, counters[..]);
    ghost var limited := false;
    while e > 0
      invariant 0 <= e <= num - 2 && p[num..] == old(p[num..]) && Walked(t, p[..num], syms, e)
      invariant counters.Length == MAX_LEN + 1 && fresh(counters) && Kept(t, counters[..], maxLen, e, limited)
      invariant |cs| == num - 1 - e && cs[|cs| - 1] == counters[..] && Splitting(t, maxLen, cs)
    {
      e := e - 1;
      var len := PutNode(p, num, e, t, syms);
      if len >= maxLen {
        KeptFull(t, counters[..], maxLen, e + 1, limited);
        len := FindShorter(counters, maxLen, num - (e + 1));
        CountDeep(t, counters[..], maxLen, e, limited, len);
        limited := true;
      } else {
        CountShallow(t, counters[..], maxLen, e, limited);
        limited := false;
      }
      SplittingOn(t, maxLen, cs, e, len);
      Move(counters, len);
      cs := cs + [counters[..]];
    }
    KeptFull(t, counters[..], maxLen, 0, limited);
    WalkedSyms(t, p[..num], syms, e);
    assert forall k :: 0 <= k < num ==> p[..num][k] == p[k];
    if LeafDepth(t, 0) <= maxLen { CountEnds(t, counters[..], maxLen, limited); }
  }

  lemma WalkStarts(t: Tree, p: seq<nat>, syms: seq<nat>, e: nat)
    requires Grown(t) && |t.w| == |p| == |syms| <= SYMBOLS && e == |p| - 2 == |t.par|
    requires p == syms[e := Pack(Sym(syms[e]), 0)]
    requires forall x :: 0 <= x < e ==> Up(syms[x]) == t.par[x]
    ensures Walked(t, p, syms, e)
  {}

  lemma CountStarts(t: Tree, counters: seq<nat>, maxLen: nat, e: nat)
    requires Grown(t) && e == |t.w| - 2 && 1 <= maxLen <= MAX_LEN && |t.w| <= Pow2(maxLen) && |counters| == MAX_LEN + 1
    requires forall l: nat :: l <= MAX_LEN ==> counters[l] == if l == 1 then 2 else 0
    ensures Kept(t, counters, maxLen, e, false)
  {
    EndsFirst(t, counters);
    FirstSums(counters, MAX_LEN + 1);
  }

  lemma KeptFull(t: Tree, counters: seq<nat>, maxLen: nat, e: nat, limited: bool)
    requires Grown(t) && e <= |t.w| - 2 && Kept(t, counters, maxLen, e, limited)
    ensures Full(counters, maxLen, |t.w| - e) && (e > 0 ==> |t.w| - e < Pow2(maxLen))
  {}

  lemma WalkedSyms(t: Tree, p: seq<nat>, syms: seq<nat>, e: nat)
    requires Walked(t, p, syms, e)
    ensures |p| == |syms| && forall k :: 0 <= k < |p| ==> Sym(p[k]) == Sym(syms[k])
  {}

  lemma CountEnds(t: Tree, counters: seq<nat>, maxLen: nat, limited: bool)
    requires Grown(t) && Kept(t, counters, maxLen, 0, limited) && LeafDepth(t, 0) <= maxLen
    ensures |counters| == MAX_LEN + 1
    ensures forall l: nat :: l <= MAX_LEN ==> counters[l] == Count(LeafDepths(t), l, |t.w|)
  {
    assert LeafUnder(t, 0) && Joins(t, 0);
    if t.top[0] > 0 { CutRises(t, 1, t.top[0]); }
    EndsLast(t, counters);
  }
}
