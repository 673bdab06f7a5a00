// Code lengths for the symbols, and the codes: in order of length, then of symbol.

module HuffmanCodes {
  import opened Words
  import opened Permutations
  import opened Counting
  import opened HuffmanSymbols
  import opened HuffmanTree
  import opened HuffmanLengths
  import HeapSorting

  // ----- Lengths for the symbols ---------------------------------------------------------------

  lemma {:induction false} CountUpdate(s: seq<nat>, i: nat, v: nat, l: nat, m: nat)
    requires i < m <= |s|
    ensures Count(s[i := v], l, m) + (if s[i] == l then 1 else 0) == Count(s, l, m) + if v == l then 1 else 0
    decreases m
  {
    if i < m - 1 {
      CountUpdate(s, i, v, l, m - 1);
    } else {
      CountPrefix(s[i := v], s, l, m - 1);
    }
  }

  lemma {:induction false} CountPrefix(s: seq<nat>, t: seq<nat>, l: nat, m: nat)
    requires m <= |s| && m <= |t| && forall k :: 0 <= k < m ==> s[k] == t[k]
    ensures Count(s, l, m) == Count(t, l, m)
    decreases m
  {
    if m > 0 { CountPrefix(s, t, l, m - 1); }
  }

  // The symbols y have got the lengths ls, one each; z says so by symbol, 0 for the others.
  ghost predicate Given(y: seq<nat>, ls: seq<nat>, z: seq<nat>) {
    && |ls| <= |y|
    && (forall k :: 0 <= k < |ls| ==> y[k] < |z| && z[y[k]] == ls[k])
    && (forall q: nat :: q < |z| && q !in y[..|ls|] ==> z[q] == 0)
    && (forall l: nat :: 1 <= l <= MAX_LEN ==> Count(z, l, |z|) == Count(ls, l, |ls|))
  }

  lemma GiveOne(y: seq<nat>, ls: seq<nat>, z: seq<nat>, len: nat)
    requires Given(y, ls, z) && |ls| < |y| && Once(y) && y[|ls|] < |z| && 1 <= len
    ensures Given(y, ls + [len], z[y[|ls|] := len])
  {
    var i := |ls|;
    var q := y[i];
    assert q !in y[..i] by {
      forall k | 0 <= k < i
        ensures y[k] != q
      {
        OncePlaces(y, k, i);
      }
    }
    assert y[..i + 1] == y[..i] + [q];
    var ls', z' := ls + [len], z[q := len];
    forall l: nat | 1 <= l <= MAX_LEN
      ensures Count(z', l, |z'|) == Count(ls', l, |ls'|)
    {
      CountUpdate(z, q, len, l, |z|);
      CountPrefix(ls', ls, l, i);
    }
  }

  lemma {:induction false} CountZeros(z: seq<nat>, l: nat, m: nat)
    requires m <= |z| && l >= 1 && forall k :: 0 <= k < m ==> z[k] == 0
    ensures Count(z, l, m) == 0
  {
    if m > 0 { CountZeros(z, l, m - 1); }
  }

  // Lengths so far: all of those above len, d of len itself.
  ghost predicate Dealt(counters: seq<nat>, ls: seq<nat>, maxLen: nat, len: nat, d: nat) {
    && 1 <= len <= maxLen <= MAX_LEN && |counters| == MAX_LEN + 1 && d <= counters[len]
    && Falling(ls) && (forall k :: 0 <= k < |ls| ==> len <= ls[k] <= maxLen)
    && (forall l: nat :: 1 <= l <= MAX_LEN ==>
                           Count(ls, l, |ls|) == if l > len then counters[l] else if l == len then d else 0)
    && |ls| + Total(counters, len + 1) == Total(counters, MAX_LEN + 1) + d
  }

  lemma DealOne(counters: seq<nat>, ls: seq<nat>, maxLen: nat, len: nat, d: nat)
    requires Dealt(counters, ls, maxLen, len, d) && d < counters[len]
    ensures Dealt(counters, ls + [len], maxLen, len, d + 1)
  {
    hide Total;
    var ls' := ls + [len];
    forall l: nat | 1 <= l <= MAX_LEN
      ensures Count(ls', l, |ls'|) == Count(ls, l, |ls|) + if l == len then 1 else 0
    {
      CountPrefix(ls', ls, l, |ls|);
    }
  }

  lemma DealNext(counters: seq<nat>, ls: seq<nat>, maxLen: nat, len: nat)
    requires 1 < len < |counters| && Dealt(counters, ls, maxLen, len, counters[len])
    ensures Dealt(counters, ls, maxLen, len - 1, 0)
  {}

  lemma DealFirst(counters: seq<nat>, maxLen: nat, n: nat)
    requires Full(counters, maxLen, n)
    ensures Dealt(counters, [], maxLen, maxLen, 0)
  {
    hide Kraft;
    TotalAbove(counters, maxLen + 1, MAX_LEN + 1);
  }

  lemma {:induction false} TotalAbove(counters: seq<nat>, a: nat, b: nat)
    requires a <= b <= |counters| && forall l :: a <= l < b ==> counters[l] == 0
    ensures Total(counters, a) == Total(counters, b)
    decreases b
  {
    if a < b { TotalAbove(counters, a, b - 1); }
  }

  // Not all lengths are dealt, so there is a symbol left.
  lemma DealtBelow(counters: seq<nat>, ls: seq<nat>, maxLen: nat, len: nat, d: nat, n: nat)
    requires Dealt(counters, ls, maxLen, len, d) && Full(counters, maxLen, n)
    ensures d < counters[len] ==> |ls| < n
    ensures len == 1 && d == counters[1] ==> |ls| == n
  {
    TotalGrows(counters, 2, len + 1);
    assert Total(counters, 2) == Total(counters, 1) + counters[1] && Total(counters, 1) == 0;
    assert Total(counters, len + 1) == Total(counters, len) + counters[len];
  }

  // All lengths are dealt.
  ghost predicate AllDealt(counters: seq<nat>, ls: seq<nat>, maxLen: nat) {
    && |counters| == MAX_LEN + 1 && Falling(ls) && (forall k :: 0 <= k < |ls| ==> 1 <= ls[k] <= maxLen)
    && (forall l: nat :: 1 <= l <= MAX_LEN ==> Count(ls, l, |ls|) == counters[l])
  }

  // The rarest symbols get the longest codes.
  method AssignLengths(p: array<nat>, num: nat, maxLen: nat, counters: array<nat>, lens: array<nat>, ghost y: seq<nat>,
                       ghost n: nat) returns (ghost ls: seq<nat>)
    requires num <= p.Length && |y| == num && Once(y) && forall k :: 0 <= k < num ==> y[k] == Sym(p[k]) < n
    requires n <= lens.Length && Full(counters[..], maxLen, num) && lens != p && lens != counters
    requires forall q: nat :: q < n && q !in y ==> lens[q] == 0
    modifies lens
    ensures |ls| == num && AllDealt(counters[..], ls, maxLen) && Given(y, ls, lens[..n])
    ensures lens[n..] == old(lens[n..])
  {
    hide Full, Dealt, Given, Once;
    ghost var z: seq<nat> := seq(n, _ => 0);
    ls := [];
    var i := 0;
    NoneGiven(y, z);
    DealFirst(counters[..], maxLen, num);
    var len: nat := maxLen;
    FullSizes(counters[..], maxLen, num);
    while len != 0
      invariant 0 <= len <= maxLen && i == |ls| <= num && |z| == n
      invariant lens[n..] == old(lens[n..]) && Given(y, ls, z) && Matches(y, ls, z, lens[..n])
      invariant if len > 0 then Dealt(counters[..], ls, maxLen, len, 0)
                else Dealt(counters[..], ls, maxLen, 1, counters[1])
    {
      var left: nat := counters[len];
      while left != 0
        invariant 0 <= left <= counters[len] && i == |ls| <= num && |z| == n
        invariant lens[n..] == old(lens[n..]) && Given(y, ls, z) && Matches(y, ls, z, lens[..n])
        invariant Dealt(counters[..], ls, maxLen, len, counters[len] - left)
        decreases left
      {
        DealtBelow(counters[..], ls, maxLen, len, counters[len] - left, num);
        DealOne(counters[..], ls, maxLen, len, counters[len] - left);
        GiveOne(y, ls, z, len);
        MatchOne(y, ls, z, lens[..n], len);
        ghost var before := lens[..n];
        lens[Sym(p[i])] := len;
        assert lens[..n] == before[y[i] := len];
        z := z[y[i] := len];
        ls := ls + [len];
        i := i + 1;
        left := left - 1;
      }
      if len > 1 { DealNext(counters[..], ls, maxLen, len); }
      len := len - 1;
    }
    DealtBelow(counters[..], ls, maxLen, 1, counters[1], num);
    LastDealt(counters[..], ls, maxLen);
    AllMatch(y, ls, z, lens[..n]);
  }

  // The lengths in the array are those given; the other symbols of y are still open.
  ghost predicate Matches(y: seq<nat>, ls: seq<nat>, z: seq<nat>, lens: seq<nat>) {
    |ls| <= |y| && |lens| == |z| && forall q: nat :: q < |z| && (q in y[..|ls|] || q !in y) ==> lens[q] == z[q]
  }

  lemma MatchOne(y: seq<nat>, ls: seq<nat>, z: seq<nat>, lens: seq<nat>, len: nat)
    requires Matches(y, ls, z, lens) && |ls| < |y| && y[|ls|] < |z|
    ensures Matches(y, ls + [len], z[y[|ls|] := len], lens[y[|ls|] := len])
  {
    assert y[..|ls| + 1] == y[..|ls|] + [y[|ls|]];
  }

  lemma AllMatch(y: seq<nat>, ls: seq<nat>, z: seq<nat>, lens: seq<nat>)
    requires Matches(y, ls, z, lens) && |ls| == |y|
    ensures lens == z
  {
    assert y[..|ls|] == y;
  }

  lemma NoneGiven(y: seq<nat>, z: seq<nat>)
    requires forall k :: 0 <= k < |z| ==> z[k] == 0
    ensures Given(y, [], z)
  {
    forall l: nat | 1 <= l <= MAX_LEN
      ensures Count(z, l, |z|) == 0
    {
      CountZeros(z, l, |z|);
    }
  }

  lemma FullSizes(counters: seq<nat>, maxLen: nat, n: nat)
    requires Full(counters, maxLen, n)
    ensures 1 <= maxLen <= MAX_LEN && |counters| == MAX_LEN + 1
  {}

  lemma LastDealt(counters: seq<nat>, ls: seq<nat>, maxLen: nat)
    requires |counters| > 1 && Dealt(counters, ls, maxLen, 1, counters[1])
    ensures AllDealt(counters, ls, maxLen)
  {}

  // ----- The codes -----------------------------------------------------------------------------

  // The first code of length l.
  function First(counters: seq<nat>, l: nat): nat
    requires l <= |counters|
  {
    if l == 0 then 0 else 2 * (First(counters, l - 1) + counters[l - 1])
  }

  // It stands right behind all shorter codes.
  lemma {:induction false} FirstShare(counters: seq<nat>, l: nat)
    requires |counters| == MAX_LEN + 1 && l <= MAX_LEN
    ensures First(counters, l) * Unit(l) == Kraft(counters, l)
  {
    hide Unit;
    if l > 0 {
      FirstShare(counters, l - 1);
      UnitHalves(l);
      Doubled(First(counters, l - 1), counters[l - 1], Unit(l));
    }
  }

  lemma Doubled(a: nat, b: nat, u: nat)
    ensures 2 * (a + b) * u == a * (2 * u) + b * (2 * u)
  {}

  lemma {:induction false} KraftGrows(counters: seq<nat>, a: nat, b: nat)
    requires a <= b <= |counters| <= MAX_LEN + 1
    ensures Kraft(counters, a) <= Kraft(counters, b)
    decreases b
  {
    hide Unit;
    if a < b { KraftGrows(counters, a, b - 1); }
  }

  // The codes with a given rank among those of length l lie between the shorter and the longer ones.
  lemma CodeShare(counters: seq<nat>, l: nat, rank: nat)
    requires |counters| == MAX_LEN + 1 && 1 <= l <= MAX_LEN && rank < counters[l]
    ensures var code := First(counters, l) + rank;
            Kraft(counters, l) <= code * Unit(l) && (code + 1) * Unit(l) <= Kraft(counters, l + 1)
  {
    hide Unit;
    FirstShare(counters, l);
    var f, c, u := First(counters, l), counters[l], Unit(l);
    Distribute(f, rank, u);
    Distribute(f, c, u);
    MulOrder(u, f + rank + 1, f + c);
  }

  // The code of symbol i.
  function CodeOf(counters: seq<nat>, lens: seq<nat>, i: nat): nat
    requires i < |lens| && lens[i] <= |counters|
  {
    First(counters, lens[i]) + Count(lens, lens[i], i)
  }

  // The counters say how many symbols have which length.
  ghost predicate Tallied(counters: seq<nat>, lens: seq<nat>, maxLen: nat, num: nat) {
    && Full(counters, maxLen, num) && (forall i :: 0 <= i < |lens| ==> lens[i] <= maxLen)
    && (forall l: nat :: 1 <= l <= MAX_LEN ==> Count(lens, l, |lens|) == counters[l])
  }

  lemma CodeFits(counters: seq<nat>, lens: seq<nat>, maxLen: nat, num: nat, i: nat)
    requires Tallied(counters, lens, maxLen, num) && i < |lens| && lens[i] > 0
    ensures Kraft(counters, lens[i]) <= CodeOf(counters, lens, i) * Unit(lens[i])
    ensures (CodeOf(counters, lens, i) + 1) * Unit(lens[i]) <= Kraft(counters, lens[i] + 1) <= 0x1_0000
    ensures CodeOf(counters, lens, i) < Pow2(lens[i])
  {
    hide Unit, Kraft, Pow2, First, Total;
    var l, code := lens[i], CodeOf(counters, lens, i);
    CountGrows(lens, i, |lens|);
    CodeShare(counters, l, Count(lens, l, i));
    KraftGrows(counters, l + 1, MAX_LEN + 1);
    AllUnits(l);
    if code >= Pow2(l) { MulStep(Pow2(l), code, Unit(l)); }
  }

  lemma MulStep(a: nat, b: nat, u: nat)
    requires a <= b && u >= 1
    ensures (b + 1) * u > a * u
  {
    assert (b + 1) * u == a * u + (b + 1 - a) * u;
    MulGe(b + 1 - a, u);
  }

  // Code a, of length k, does not begin code b, of length l.
  predicate NoPrefix(a: nat, k: nat, b: nat, l: nat)
    requires k <= l
  {
    b / Pow2(l - k) != a
  }

  lemma {:induction false} UnitPower(k: nat, l: nat)
    requires k <= l <= MAX_LEN
    ensures Unit(k) == Pow2(l - k) * Unit(l)
    decreases l
  {
    hide Unit;
    if k < l {
      UnitPower(k, l - 1);
      UnitHalves(l);
      assert Pow2(l - k) == 2 * Pow2(l - 1 - k);
      Regroup(Pow2(l - 1 - k), Unit(l));
    } else {
      assert Pow2(0) == 1 by { PowZero(); }
    }
  }

  lemma Regroup(a: nat, u: nat)
    ensures 2 * a * u == a * (2 * u)
  {}

  // A code that begins another covers its share.
  lemma PrefixCovers(a: nat, k: nat, b: nat, l: nat)
    requires k <= l <= MAX_LEN && !NoPrefix(a, k, b, l)
    ensures a * Unit(k) <= b * Unit(l) && (b + 1) * Unit(l) <= (a + 1) * Unit(k)
  {
    hide Unit, Pow2;
    UnitPower(k, l);
    var d, u := Pow2(l - k), Unit(l);
    assert b == a * d + b % d;
    assert a * d <= b && b + 1 <= (a + 1) * d;
    MulOrder(u, a * d, b);
    MulOrder(u, b + 1, (a + 1) * d);
    assert a * d * u == a * (d * u) && (a + 1) * d * u == (a + 1) * (d * u);
  }

  lemma PrefixFree(counters: seq<nat>, lens: seq<nat>, maxLen: nat, num: nat, i: nat, j: nat)
    requires Tallied(counters, lens, maxLen, num) && i < |lens| && j < |lens| && i != j && 0 < lens[i] <= lens[j]
    ensures NoPrefix(CodeOf(counters, lens, i), lens[i], CodeOf(counters, lens, j), lens[j])
  {
    hide Unit, Kraft, Pow2, First, Total;
    var a, b, k, l := CodeOf(counters, lens, i), CodeOf(counters, lens, j), lens[i], lens[j];
    CodeFits(counters, lens, maxLen, num, i);
    CodeFits(counters, lens, maxLen, num, j);
    if k < l {
      KraftGrows(counters, k + 1, l);
      MulStep(0, b, Unit(l));
      OneMore(b, Unit(l));
      if !NoPrefix(a, k, b, l) { PrefixCovers(a, k, b, l); }
    } else {
      assert Pow2(0) == 1 by { PowZero(); }
      if i < j { CountGrows(lens, i, j); } else { CountGrows(lens, j, i); }
    }
  }

  lemma OneMore(b: nat, u: nat)
    requires u >= 1
    ensures (b + 1) * u > b * u
  {}

  // The shares of all symbols.
  function Shares(lens: seq<nat>, m: nat): nat
    requires m <= |lens| && forall i :: 0 <= i < m ==> lens[i] <= MAX_LEN
  {
    if m == 0 then 0 else Shares(lens, m - 1) + if lens[m - 1] == 0 then 0 else Unit(lens[m - 1])
  }

  function Tally(lens: seq<nat>, m: nat): (c: seq<nat>)
    requires m <= |lens|
    ensures |c| == MAX_LEN + 1 && forall l: nat :: l <= MAX_LEN ==> c[l] == if l == 0 then 0 else Count(lens, l, m)
  {
    seq(MAX_LEN + 1, l requires 0 <= l <= MAX_LEN => if l == 0 then 0 else Count(lens, l, m))
  }

  lemma {:induction false} SharesByLength(lens: seq<nat>, m: nat)
    requires m <= |lens| && forall i :: 0 <= i < m ==> lens[i] <= MAX_LEN
    ensures Shares(lens, m) == Kraft(Tally(lens, m), MAX_LEN + 1)
  {
    hide Unit, Kraft;
    if m == 0 {
      ZeroKraft(Tally(lens, 0), MAX_LEN + 1);
    } else {
      SharesByLength(lens, m - 1);
      var v, c := lens[m - 1], Tally(lens, m - 1);
      if v == 0 {
        assert Tally(lens, m) == c;
      } else {
        assert Tally(lens, m) == c[v := c[v] + 1];
        KraftUpdate(c, v, c[v] + 1, MAX_LEN + 1);
      }
    }
  }

  lemma {:induction false} ZeroKraft(c: seq<nat>, m: nat)
    requires m <= |c| <= MAX_LEN + 1 && forall l :: 0 <= l < m ==> c[l] == 0
    ensures Kraft(c, m) == 0
  {
    if m > 0 { ZeroKraft(c, m - 1); }
  }

  // The lengths of all symbols fill the codes exactly.
  lemma SharesFull(counters: seq<nat>, lens: seq<nat>, maxLen: nat, num: nat)
    requires Tallied(counters, lens, maxLen, num)
    ensures forall i :: 0 <= i < |lens| ==> lens[i] <= MAX_LEN
    ensures Shares(lens, |lens|) == 0x1_0000
  {
    hide Kraft, Unit;
    SharesByLength(lens, |lens|);
    assert Tally(lens, |lens|) == counters;
  }

  ghost predicate Nexts(counters: seq<nat>, lens: seq<nat>, next: seq<nat>, i: nat) {
    && |counters| == MAX_LEN + 1 == |next| && i <= |lens|
    && forall l: nat :: 1 <= l <= MAX_LEN ==> next[l] == First(counters, l) + Count(lens, l, i)
  }

  method FirstCodes(counters: array<nat>, ghost lens: seq<nat>) returns (next: array<nat>)
    requires counters.Length == MAX_LEN + 1 && counters[0] == 0
    ensures fresh(next) && Nexts(counters[..], lens, next[..], 0)
  {
    next := new nat[MAX_LEN + 1];
    var code := 0;
    var len := 1;
    while len <= MAX_LEN
      invariant 1 <= len <= MAX_LEN + 1 && code == First(counters[..], len - 1)
      invariant forall l: nat :: 1 <= l < len ==> next[l] == First(counters[..], l)
    {
      code := (code + counters[len - 1]) * 2;
      next[len] := code;
      len := len + 1;
    }
  }

  // The codes in the order of the symbols; an unused symbol gets a word of no meaning.
  method AssignCodes(counters: array<nat>, lens: array<nat>, p: array<nat>, n: nat, ghost maxLen: nat, ghost num: nat)
    requires n <= lens.Length && n <= p.Length && p != lens && p != counters && counters.Length == MAX_LEN + 1
    requires Tallied(counters[..], lens[..n], maxLen, num)
    modifies p
    ensures p[n..] == old(p[n..])
    ensures forall i :: 0 <= i < n && lens[i] > 0 ==> lens[i] <= MAX_LEN && p[i] == CodeOf(counters[..], lens[..n], i)
  {
    hide Nexts, CodeOf, Kraft;
    ghost var s, c := lens[..n], counters[..];
    var next := FirstCodes(counters, s);
    var i := 0;
    while i < n
      invariant 0 <= i <= n && fresh(next) && Nexts(c, s, next[..], i) && p[n..] == old(p[n..])
      invariant forall k :: 0 <= k < i && s[k] > 0 ==> p[k] == CodeOf(c, s, k)
    {
      assert s[i] == lens[i];
      NextsOn(c, s, next[..], i);
      p[i] := next[lens[i]];
      Bump(next, lens[i]);
      i := i + 1;
    }
  }

  method Bump(next: array<nat>, len: nat)
    requires len < next.Length
    modifies next
    ensures next[..] == old(next[..])[len := old(next[len]) + 1]
  {
    next[len] := next[len] + 1;
  }

  lemma NextsOn(counters: seq<nat>, lens: seq<nat>, next: seq<nat>, i: nat)
    requires Nexts(counters, lens, next, i) && i < |lens| && lens[i] <= MAX_LEN
    ensures lens[i] > 0 ==> next[lens[i]] == CodeOf(counters, lens, i)
    ensures Nexts(counters, lens, next[lens[i] := next[lens[i]] + 1], i + 1)
  {}
}
