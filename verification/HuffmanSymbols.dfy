// The used symbols of an alphabet in the order of their frequencies, each packed into a word with
// its frequency above it.

module HuffmanSymbols {
  import opened Permutations
  import opened Counting
  import HeapSorting

  const SYMBOLS := 1024
  const NUM_COUNTERS := 64

  function Sym(v: nat): nat { v % SYMBOLS }
  function Up(v: nat): nat { v / SYMBOLS }

  // A word with a symbol below and a number above.
  function Pack(sym: nat, up: nat): (v: nat)
    requires sym < SYMBOLS
    ensures Sym(v) == sym && Up(v) == up
  {
    sym + up * SYMBOLS
  }

  function Ups(s: seq<nat>): (r: seq<nat>)
    ensures |r| == |s| && forall k :: 0 <= k < |s| ==> r[k] == Up(s[k])
  {
    seq(|s|, k requires 0 <= k < |s| => Up(s[k]))
  }

  lemma Repacked(v: nat)
    ensures Pack(Sym(v), Up(v)) == v
  {}

  function Bucket(freq: nat): (b: nat)
    ensures b < NUM_COUNTERS
  {
    if freq < NUM_COUNTERS - 1 then freq else NUM_COUNTERS - 1
  }

  function Buckets(freqs: seq<nat>): (k: seq<nat>)
    ensures |k| == |freqs| && forall i :: 0 <= i < |k| ==> k[i] == Bucket(freqs[i])
  {
    seq(|freqs|, i requires 0 <= i < |freqs| => Bucket(freqs[i]))
  }

  function WordOf(freqs: seq<nat>, i: nat): nat
    requires i < |freqs| <= SYMBOLS
  {
    Pack(i, freqs[i])
  }

  // The words of exactly the used symbols, each once.
  ghost predicate Listing(freqs: seq<nat>, t: seq<nat>) {
    && |freqs| <= SYMBOLS && Once(t)
    && (forall k :: 0 <= k < |t| ==> Sym(t[k]) < |freqs| && freqs[Sym(t[k])] > 0 && t[k] == WordOf(freqs, Sym(t[k])))
    && (forall i :: 0 <= i < |freqs| && freqs[i] > 0 ==> WordOf(freqs, i) in t)
  }

  lemma ListingPermuted(freqs: seq<nat>, s: seq<nat>, t: seq<nat>)
    requires Listing(freqs, s) && multiset(t) == multiset(s)
    ensures Listing(freqs, t)
  {
    forall k | 0 <= k < |t|
      ensures Sym(t[k]) < |freqs| && freqs[Sym(t[k])] > 0 && t[k] == WordOf(freqs, Sym(t[k]))
    {
      assert t[k] in multiset(t);
      assert t[k] in s;
    }
    forall i | 0 <= i < |freqs| && freqs[i] > 0
      ensures WordOf(freqs, i) in t
    {
      assert WordOf(freqs, i) in multiset(s);
      assert WordOf(freqs, i) in multiset(t);
    }
  }

  lemma PlaceOrder(keys: seq<nat>, i: nat, j: nat)
    requires i < |keys| && j < |keys| && Place(keys, i) < Place(keys, j)
    ensures keys[i] < keys[j] || (keys[i] == keys[j] && i < j)
  {
    PlaceInside(keys, i);
    PlaceInside(keys, j);
    if keys[j] < keys[i] {
      BelowGrows(keys, keys[j] + 1, keys[i], |keys|);
    } else if keys[i] == keys[j] && j < i {
      CountGrows(keys, j, i);
    }
  }

  // Below the last bucket the counting sort is already the order of the words.
  lemma WordOrder(freqs: seq<nat>, i: nat, j: nat)
    requires i < |freqs| <= SYMBOLS && j < |freqs| && Place(Buckets(freqs), i) < Place(Buckets(freqs), j)
    requires Bucket(freqs[i]) < NUM_COUNTERS - 1
    ensures WordOf(freqs, i) < WordOf(freqs, j)
  {
    PlaceOrder(Buckets(freqs), i, j);
  }

  // ----- The program ---------------------------------------------------------------------------

  function Unused(freqs: seq<nat>): (z: nat)
    ensures z <= |freqs|
  {
    Below(Buckets(freqs), 1, |freqs|)
  }

  ghost predicate Counted(freqs: seq<nat>, counters: seq<nat>, m: nat) {
    && m <= |freqs| && |counters| == NUM_COUNTERS
    && forall v: nat :: v < NUM_COUNTERS ==> counters[v] == Count(Buckets(freqs), v, m)
  }

  // The counters hold where each bucket goes on, the unused symbols left out.
  ghost predicate Starts(freqs: seq<nat>, counters: seq<nat>, m: nat) {
    && m <= |freqs| && |counters| == NUM_COUNTERS
    && forall v: nat :: 1 <= v < NUM_COUNTERS ==>
                          counters[v] + Unused(freqs) == Below(Buckets(freqs), v, |freqs|) + Count(Buckets(freqs), v, m)
  }

  method CountSymbols(freqs: seq<nat>) returns (counters: array<nat>)
    ensures fresh(counters) && Counted(freqs, counters[..], |freqs|)
  {
    counters := new nat[NUM_COUNTERS];
    var v := 0;
    while v < NUM_COUNTERS
      invariant 0 <= v <= NUM_COUNTERS && forall u: nat :: u < v ==> counters[u] == 0
    {
      counters[v] := 0;
      v := v + 1;
    }
    var i := 0;
    while i < |freqs|
      invariant 0 <= i <= |freqs| && Counted(freqs, counters[..], i)
    {
      counters[Bucket(freqs[i])] := counters[Bucket(freqs[i])] + 1;
      i := i + 1;
    }
  }

  method SumCounts(freqs: seq<nat>, counters: array<nat>) returns (num: nat)
    requires Counted(freqs, counters[..], |freqs|)
    modifies counters
    ensures Starts(freqs, counters[..], 0) && num == |freqs| - Unused(freqs)
  {
    ghost var k, n := Buckets(freqs), |freqs|;
    num := 0;
    var i := 1;
    while i < NUM_COUNTERS
      invariant 1 <= i <= NUM_COUNTERS && num + Unused(freqs) == Below(k, i, n)
      invariant forall u: nat :: 1 <= u < i ==> counters[u] + Unused(freqs) == Below(k, u, n)
      invariant forall u: nat :: i <= u < NUM_COUNTERS ==> counters[u] == Count(k, u, n)
    {
      BelowNext(k, i, n);
      var temp := counters[i];
      counters[i] := num;
      num := num + temp;
      i := i + 1;
    }
    AllBelow(k, NUM_COUNTERS, n);
  }

  // The first m symbols are in place; x is where all of them, used or not, would go.
  ghost predicate Filed(freqs: seq<nat>, p: seq<nat>, lens: seq<nat>, x: seq<nat>, m: nat) {
    && |freqs| <= SYMBOLS && |p| >= |freqs| && |lens| >= |freqs| && Placed(Buckets(freqs), x, m)
    && (forall i: nat :: i < m && freqs[i] == 0 ==> lens[i] == 0)
    && (forall i: nat :: i < m && freqs[i] > 0 ==> InPlace(freqs, p, i))
  }

  ghost predicate InPlace(freqs: seq<nat>, p: seq<nat>, i: nat)
    requires i < |freqs| <= SYMBOLS
  {
    var at := Place(Buckets(freqs), i) - Unused(freqs);
    0 <= at < |p| && p[at] == WordOf(freqs, i)
  }

  lemma UsedPlace(freqs: seq<nat>, i: nat)
    requires i < |freqs| && freqs[i] > 0
    ensures Unused(freqs) <= Place(Buckets(freqs), i) < |freqs|
  {
    PlaceInside(Buckets(freqs), i);
    BelowGrows(Buckets(freqs), 1, Bucket(freqs[i]), |freqs|);
  }

  lemma FiledNext(freqs: seq<nat>, p: seq<nat>, lens: seq<nat>, x: seq<nat>, m: nat)
    requires Filed(freqs, p, lens, x, m) && m < |freqs|
    ensures Place(Buckets(freqs), m) < |x|
    ensures freqs[m] == 0 ==> Filed(freqs, p, lens[m := 0], x[Place(Buckets(freqs), m) := m], m + 1)
    ensures freqs[m] > 0 ==> Unused(freqs) <= Place(Buckets(freqs), m) < |freqs|
    ensures freqs[m] > 0 ==> var at := Place(Buckets(freqs), m) - Unused(freqs);
                             Filed(freqs, p[at := WordOf(freqs, m)], lens, x[Place(Buckets(freqs), m) := m], m + 1)
  {
    hide Place, Placed, Below;
    PlacedNext(Buckets(freqs), x, m);
    PlacedLength(Buckets(freqs), x, m);
    if freqs[m] > 0 {
      UsedPlace(freqs, m);
      var at: nat := Place(Buckets(freqs), m) - Unused(freqs);
      var p' := p[at := WordOf(freqs, m)];
      forall i: nat | i < m && freqs[i] > 0
        ensures InPlace(freqs, p', i)
      {
        assert InPlace(freqs, p, i);
        PlacesDiffer(Buckets(freqs), i, m);
      }
    }
  }

  method FileSymbols(freqs: seq<nat>, counters: array<nat>, p: array<nat>, lens: array<nat>) returns (ghost x: seq<nat>)
    requires |freqs| <= SYMBOLS && |freqs| <= p.Length && |freqs| <= lens.Length && Starts(freqs, counters[..], 0)
    requires counters != p && p != lens && lens != counters
    modifies counters, p, lens
    ensures Starts(freqs, counters[..], |freqs|) && Filed(freqs, p[..], lens[..], x, |freqs|)
    ensures forall i :: |freqs| <= i < lens.Length ==> lens[i] == old(lens[i])
  {
    hide Filed, Below;
    x := seq(|freqs|, _ => 0);
    NoneFiled(freqs, p[..], lens[..], x);
    var i := 0;
    while i < |freqs|
      invariant 0 <= i <= |freqs| && Starts(freqs, counters[..], i) && Filed(freqs, p[..], lens[..], x, i)
      invariant forall j :: |freqs| <= j < lens.Length ==> lens[j] == old(lens[j])
    {
      FiledNext(freqs, p[..], lens[..], x, i);
      var freq := freqs[i];
      x := x[Place(Buckets(freqs), i) := i];
      if freq == 0 {
        ghost var l := lens[..];
        lens[i] := 0;
        assert lens[..] == l[i := 0];
      } else {
        var b := Bucket(freq);
        ghost var p0 := p[..];
        assert counters[b] == Place(Buckets(freqs), i) - Unused(freqs);
        p[counters[b]] := Pack(i, freq);
        assert p[..] == p0[Place(Buckets(freqs), i) - Unused(freqs) := WordOf(freqs, i)];
        counters[b] := counters[b] + 1;
      }
      i := i + 1;
    }
  }

  lemma NoneFiled(freqs: seq<nat>, p: seq<nat>, lens: seq<nat>, x: seq<nat>)
    requires |freqs| <= SYMBOLS && |p| >= |freqs| && |lens| >= |freqs| && |x| == |freqs|
    ensures Filed(freqs, p, lens, x, 0)
  {
    PlacedNone(Buckets(freqs), x);
  }

  // Place k holds the word of the symbol that belongs there.
  lemma FiledWord(freqs: seq<nat>, p: seq<nat>, lens: seq<nat>, x: seq<nat>, k: nat)
    requires Filed(freqs, p, lens, x, |freqs|) && Unused(freqs) + k < |freqs|
    ensures |x| == |freqs|
    ensures var i := x[Unused(freqs) + k];
            i < |freqs| && freqs[i] > 0 && Place(Buckets(freqs), i) == Unused(freqs) + k && p[k] == WordOf(freqs, i)
  {
    hide Below, Place;
    PlacedLength(Buckets(freqs), x, |freqs|);
    AllPlaced(Buckets(freqs), x);
    var i := x[Unused(freqs) + k];
    assert Place(Buckets(freqs), i) == Unused(freqs) + k;
    PlaceInside(Buckets(freqs), i);
    assert freqs[i] > 0;
    assert InPlace(freqs, p, i);
  }

  lemma FiledLists(freqs: seq<nat>, p: seq<nat>, lens: seq<nat>, x: seq<nat>, num: nat)
    requires Filed(freqs, p, lens, x, |freqs|) && num == |freqs| - Unused(freqs)
    ensures Listing(freqs, p[..num])
  {
    hide Below, Place, Filed;
    FiledLengths(freqs, p, lens, x);
    forall k: nat | k < num
      ensures Sym(p[k]) < |freqs| && freqs[Sym(p[k])] > 0 && p[k] == WordOf(freqs, Sym(p[k]))
      ensures Place(Buckets(freqs), Sym(p[k])) == Unused(freqs) + k
    {
      FiledWord(freqs, p, lens, x, k);
    }
    OnceFromPlaces(p[..num]);
    forall i: nat | i < |freqs| && freqs[i] > 0
      ensures WordOf(freqs, i) in p[..num]
    {
      FiledSymbol(freqs, p, lens, x, i);
      assert p[..num][Place(Buckets(freqs), i) - Unused(freqs)] == WordOf(freqs, i);
    }
  }

  lemma FiledSymbol(freqs: seq<nat>, p: seq<nat>, lens: seq<nat>, x: seq<nat>, i: nat)
    requires Filed(freqs, p, lens, x, |freqs|) && i < |freqs| && freqs[i] > 0
    ensures var at := Place(Buckets(freqs), i) - Unused(freqs);
            0 <= at < |freqs| - Unused(freqs) && p[at] == WordOf(freqs, i)
  {
    UsedPlace(freqs, i);
    assert InPlace(freqs, p, i);
  }

  lemma FiledLengths(freqs: seq<nat>, p: seq<nat>, lens: seq<nat>, x: seq<nat>)
    requires Filed(freqs, p, lens, x, |freqs|)
    ensures |freqs| <= SYMBOLS && |p| >= |freqs| && |lens| >= |freqs|
    ensures forall i: nat :: i < |freqs| && freqs[i] == 0 ==> lens[i] == 0
  {}

  // Sorted but for the last bucket, which begins at place c.
  lemma FiledOrder(freqs: seq<nat>, p: seq<nat>, lens: seq<nat>, x: seq<nat>, c: nat, j: nat, k: nat)
    requires Filed(freqs, p, lens, x, |freqs|) && c + Unused(freqs) == Below(Buckets(freqs), NUM_COUNTERS - 1, |freqs|)
    requires j < k && j < c && k + Unused(freqs) < |freqs|
    ensures p[j] < p[k]
  {
    hide Place;
    FiledWord(freqs, p, lens, x, j);
    FiledWord(freqs, p, lens, x, k);
    var i := x[Unused(freqs) + j];
    PlaceInside(Buckets(freqs), i);
    if Bucket(freqs[i]) >= NUM_COUNTERS - 1 { BelowGrows(Buckets(freqs), NUM_COUNTERS - 1, Bucket(freqs[i]), |freqs|); }
    WordOrder(freqs, i, x[Unused(freqs) + k]);
  }

  lemma SortedTail(s: seq<nat>, t: seq<nat>, c: nat)
    requires c <= |s| == |t| && t[..c] == s[..c] && multiset(t[c..]) == multiset(s[c..]) && HeapSorting.Sorted(t[c..])
    requires forall j, k :: 0 <= j < k < |s| && j < c ==> s[j] <= s[k]
    ensures HeapSorting.Sorted(t) && multiset(t) == multiset(s)
  {
    assert t == t[..c] + t[c..] && s == s[..c] + s[c..];
    forall j, k | 0 <= j < k < |t|
      ensures t[j] <= t[k]
    {
      if j >= c {
        assert t[j] == t[c..][j - c] && t[k] == t[c..][k - c];
      } else {
        assert t[j] == t[..c][j] == s[j];
        TailOccurs(s, t, c, k);
      }
    }
  }

  lemma TailOccurs(s: seq<nat>, t: seq<nat>, c: nat, k: nat)
    requires c <= |s| == |t| && t[..c] == s[..c] && multiset(t[c..]) == multiset(s[c..]) && k < |t|
    ensures exists l: nat :: l < |s| && (l == k || (l >= c && k >= c)) && s[l] == t[k]
  {
    if k < c {
      assert t[k] == t[..c][k] == s[k];
    } else {
      assert t[k] == t[c..][k - c];
      assert t[k] in multiset(t[c..]);
      assert t[k] in s[c..];
      var l :| 0 <= l < |s| - c && s[c..][l] == t[k];
      assert s[c + l] == t[k];
    }
  }

  // The words from place c on get sorted too.
  method SortRest(p: array<nat>, c: nat, num: nat)
    requires c <= num <= p.Length && forall j, k :: 0 <= j < k < num && j < c ==> p[..num][j] <= p[..num][k]
    modifies p
    ensures HeapSorting.Sorted(p[..num]) && multiset(p[..num]) == multiset(old(p[..num]))
  {
    hide HeapSorting.Sorted;
    ghost var s := p[..num];
    assert p[c..c + (num - c)] == s[c..] && p[..c] == s[..c];
    HeapSorting.HeapSort(p, c, num - c);
    assert p[..num][c..] == p[c..c + (num - c)] && p[..num][..c] == p[..c];
    SortedTail(s, p[..num], c);
  }

  // After filing, a counter holds where its bucket ends.
  lemma BucketEnd(freqs: seq<nat>, counters: seq<nat>, v: nat)
    requires Starts(freqs, counters, |freqs|) && 1 <= v < NUM_COUNTERS
    ensures counters[v] + Unused(freqs) == Below(Buckets(freqs), v + 1, |freqs|)
  {
    hide Below, Unused, Buckets;
    SameLength(freqs);
    BelowNext(Buckets(freqs), v, |freqs|);
  }

  lemma SameLength(freqs: seq<nat>)
    ensures |Buckets(freqs)| == |freqs|
  {}

  // Where the last bucket begins and ends.
  lemma LastBucket(freqs: seq<nat>, counters: seq<nat>, num: nat)
    requires Starts(freqs, counters, |freqs|) && num == |freqs| - Unused(freqs)
    ensures counters[NUM_COUNTERS - 1] == num && counters[NUM_COUNTERS - 2] <= num
    ensures counters[NUM_COUNTERS - 2] + Unused(freqs) == Below(Buckets(freqs), NUM_COUNTERS - 1, |freqs|)
  {
    hide Below, Starts, Unused;
    BucketEnd(freqs, counters, NUM_COUNTERS - 2);
    BucketEnd(freqs, counters, NUM_COUNTERS - 1);
    AllBelow(Buckets(freqs), NUM_COUNTERS, |freqs|);
  }

  lemma BeforeBucket(freqs: seq<nat>, p: seq<nat>, lens: seq<nat>, x: seq<nat>, c: nat, num: nat)
    requires Filed(freqs, p, lens, x, |freqs|) && num == |freqs| - Unused(freqs)
    requires c + Unused(freqs) == Below(Buckets(freqs), NUM_COUNTERS - 1, |freqs|)
    ensures num <= |p| && forall j, k :: 0 <= j < k < num && j < c ==> p[..num][j] <= p[..num][k]
  {
    hide Below, Place, Filed;
    FiledLengths(freqs, p, lens, x);
    forall j: nat, k: nat | j < k < num && j < c
      ensures p[..num][j] <= p[..num][k]
    {
      FiledOrder(freqs, p, lens, x, c, j, k);
    }
  }

  // The used symbols in the order of their words; the unused ones get length 0.
  method SortSymbols(freqs: seq<nat>, p: array<nat>, lens: array<nat>) returns (num: nat)
    requires |freqs| <= SYMBOLS && |freqs| <= p.Length && |freqs| <= lens.Length && p != lens
    modifies p, lens
    ensures num <= |freqs| && Listing(freqs, p[..num]) && HeapSorting.Sorted(p[..num])
    ensures forall i :: 0 <= i < |freqs| && freqs[i] == 0 ==> lens[i] == 0
  {
    hide Below, Place, Filed, Listing, HeapSorting.Sorted;
    var counters := CountSymbols(freqs);
    num := SumCounts(freqs, counters);
    ghost var x := FileSymbols(freqs, counters, p, lens);
    LastBucket(freqs, counters[..], num);
    FiledLists(freqs, p[..], lens[..], x, num);
    FiledLengths(freqs, p[..], lens[..], x);
    counters[0] := 0;
    var c := counters[NUM_COUNTERS - 2];
    BeforeBucket(freqs, p[..], lens[..], x, c, num);
    ghost var s := p[..num];
    assert p[..][..num] == s;
    SortRest(p, c, counters[NUM_COUNTERS - 1]);
    ListingPermuted(freqs, s, p[..num]);
  }
}
