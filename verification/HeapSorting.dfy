// In-place heap sort of n words of an array, from word o on.

module HeapSorting {
  // The C code counts from 1: P(s, i) is its p[i].
  function P(s: seq<nat>, i: nat): nat
    requires 1 <= i <= |s|
  {
    s[i - 1]
  }

  function Put(s: seq<nat>, i: nat, v: nat): (t: seq<nat>)
    requires 1 <= i <= |s|
    ensures |t| == |s|
  {
    s[i - 1 := v]
  }

  predicate IsChild(k: nat, c: nat) { c == 2 * k || c == 2 * k + 1 }

  // The node at k is not smaller than its children, as far as size.
  predicate Over(s: seq<nat>, k: nat, size: nat)
    requires 1 <= k <= size <= |s|
  {
    (2 * k <= size ==> P(s, k) >= P(s, 2 * k)) && (2 * k + 1 <= size ==> P(s, k) >= P(s, 2 * k + 1))
  }

  ghost predicate Heap(s: seq<nat>, lo: nat, size: nat) {
    1 <= lo && size <= |s| && forall k: nat :: lo <= k <= size ==> Over(s, k, size)
  }

  // A heap with a hole at k that waits for temp: above the hole everything is large enough.
  ghost predicate Hole(s: seq<nat>, lo: nat, size: nat, k: nat, temp: nat) {
    && 1 <= lo <= k <= size <= |s| && (forall j: nat :: lo <= j <= size && j != k ==> Over(s, j, size))
    && (forall j: nat :: lo <= j <= size && IsChild(j, k) ==> Roof(s, j, k, size, temp))
  }

  predicate Roof(s: seq<nat>, j: nat, k: nat, size: nat, temp: nat)
    requires 1 <= j <= size <= |s| && 1 <= k
  {
    && P(s, j) >= temp && (2 * k <= size ==> P(s, j) >= P(s, 2 * k))
    && (2 * k + 1 <= size ==> P(s, j) >= P(s, 2 * k + 1))
  }

  // The greater child of k.
  function Greater(s: seq<nat>, k: nat, size: nat): (c: nat)
    requires 1 <= k && 2 * k <= size <= |s|
    ensures IsChild(k, c) && k < c <= size
  {
    if 2 * k < size && P(s, 2 * k + 1) > P(s, 2 * k) then 2 * k + 1 else 2 * k
  }

  lemma HoleDown(s: seq<nat>, lo: nat, size: nat, k: nat, temp: nat)
    requires Hole(s, lo, size, k, temp) && 2 * k <= size && temp < P(s, Greater(s, k, size))
    ensures var c := Greater(s, k, size); Hole(Put(s, k, P(s, c)), lo, size, c, temp)
  {
    var c := Greater(s, k, size);
    var t := Put(s, k, P(s, c));
    assert Over(s, c, size);
    forall j: nat | lo <= j <= size && j != c
      ensures Over(t, j, size)
    {
      assert j != k ==> Over(s, j, size);
      assert IsChild(j, k) ==> Roof(s, j, k, size, temp);
    }
    forall j: nat | lo <= j <= size && IsChild(j, c)
      ensures Roof(t, j, c, size, temp)
    {
      assert j == k;
    }
  }

  lemma HoleFilled(s: seq<nat>, lo: nat, size: nat, k: nat, temp: nat)
    requires Hole(s, lo, size, k, temp) && (2 * k <= size ==> temp >= P(s, Greater(s, k, size)))
    ensures Heap(Put(s, k, temp), lo, size)
  {
    var t := Put(s, k, temp);
    forall j: nat | lo <= j <= size
      ensures Over(t, j, size)
    {
      assert j != k ==> Over(s, j, size);
      assert IsChild(j, k) ==> Roof(s, j, k, size, temp);
    }
  }

  lemma SwapSame(s: seq<nat>, i: nat, j: nat)
    requires i < |s| && j < |s|
    ensures multiset(s[i := s[j]][j := s[i]]) == multiset(s)
  {}

  // Moving a value up into the hole, then filling the new hole.
  lemma MoveSame(s: seq<nat>, k: nat, c: nat, temp: nat)
    requires 1 <= k < c <= |s|
    ensures multiset(Put(Put(s, k, P(s, c)), c, temp)) == multiset(Put(s, k, temp))
  {
    SwapSame(Put(s, k, temp), k - 1, c - 1);
    assert Put(Put(s, k, P(s, c)), c, temp) == Put(s, k, temp)[k - 1 := s[c - 1]][c - 1 := temp];
  }

  // What sifting does to the words: a heap from lo on, of the same words with temp in the hole.
  ghost predicate Sifted(s: seq<nat>, t: seq<nat>, lo: nat, size: nat, k: nat, temp: nat)
    requires 1 <= k <= |s|
  {
    && |t| == |s| && Heap(t, lo, size) && multiset(t) == multiset(Put(s, k, temp))
    && (forall i :: 0 <= i < k - 1 ==> t[i] == s[i]) && (forall i :: size <= i < |s| ==> t[i] == s[i])
  }

  method SiftDown(a: array<nat>, o: nat, n: nat, ghost lo: nat, k0: nat, size: nat, temp: nat)
    requires o + n <= a.Length && Hole(a[o..o + n], lo, size, k0, temp)
    modifies a
    ensures a[..o] == old(a[..o]) && a[o + n..] == old(a[o + n..])
    ensures Sifted(old(a[o..o + n]), a[o..o + n], lo, size, k0, temp)
  {
    hide Hole, Heap, Put, Over;
    ghost var s0 := a[o..o + n];
    var k := k0;
    HoleIs(s0, lo, size, k, temp);
    while 2 * k <= size
      invariant 1 <= k0 <= k <= size <= n && Hole(a[o..o + n], lo, size, k, temp)
      invariant multiset(Put(a[o..o + n], k, temp)) == multiset(Put(s0, k0, temp))
      invariant a[..o] == old(a[..o]) && a[o + n..] == old(a[o + n..])
      invariant Untouched(s0, a[o..o + n], k0, size)
      decreases size - k
    {
      var s := 2 * k;
      if s < size && a[o + s] > a[o + s - 1] {
        s := s + 1;
      }
      if temp >= a[o + s - 1] {
        break;
      }
      HoleDown(a[o..o + n], lo, size, k, temp);
      MoveSame(a[o..o + n], k, s, temp);
      SetWord(a, o, n, k, a[o + s - 1], s0, k0, size);
      k := s;
    }
    HoleFilled(a[o..o + n], lo, size, k, temp);
    SetWord(a, o, n, k, temp, s0, k0, size);
  }

  ghost predicate Untouched(s: seq<nat>, t: seq<nat>, k: nat, size: nat)
    requires 1 <= k
  {
    && |t| == |s| && (forall i :: 0 <= i < k - 1 && i < |s| ==> t[i] == s[i])
    && forall i :: size <= i < |s| ==> t[i] == s[i]
  }

  method SetWord(a: array<nat>, o: nat, n: nat, k: nat, v: nat, ghost s0: seq<nat>, ghost k0: nat, ghost size: nat)
    requires 1 <= k0 <= k <= size <= n && o + n <= a.Length && Untouched(s0, a[o..o + n], k0, size)
    modifies a
    ensures a[o..o + n] == Put(old(a[o..o + n]), k, v) && a[..o] == old(a[..o]) && a[o + n..] == old(a[o + n..])
    ensures Untouched(s0, a[o..o + n], k0, size)
  {
    a[o + k - 1] := v;
  }

  lemma HoleIs(s: seq<nat>, lo: nat, size: nat, k: nat, temp: nat)
    requires Hole(s, lo, size, k, temp)
    ensures 1 <= lo <= k <= size <= |s|
  {}

  // ----- Sorting ------------------------------------------------------------------------------------

  ghost predicate Sorted(s: seq<nat>) { forall i, j :: 0 <= i < j < |s| ==> s[i] <= s[j] }

  // A heap of the first size words; the others are in place: sorted, and not smaller than any of it.
  ghost predicate Sorting(s: seq<nat>, size: nat) {
    && Heap(s, 1, size)
    && (forall i, j :: size <= i < j < |s| ==> s[i] <= s[j])
    && (forall i, j :: 0 <= i < size <= j < |s| ==> s[i] <= s[j])
  }

  // Everything below the root is at most the greater of its two children.
  lemma {:induction false} UnderChild(s: seq<nat>, size: nat, j: nat)
    requires Heap(s, 1, size) && 2 <= j <= size
    ensures P(s, j) <= P(s, Greater(s, 1, size))
  {
    if j > 3 {
      assert Over(s, j / 2, size);
      UnderChild(s, size, j / 2);
    }
  }

  lemma RootMax(s: seq<nat>, size: nat)
    requires Heap(s, 1, size) && size >= 1
    ensures forall i :: 0 <= i < size ==> s[i] <= s[0]
  {
    assert Over(s, 1, size);
    forall i: nat | i < size
      ensures s[i] <= s[0]
    {
      if i > 0 { UnderChild(s, size, i + 1); }
    }
  }

  // One round: the root goes behind the heap, the greater child takes its place, and the hole is there.
  function RoundStart(s: seq<nat>, size: nat): (t: seq<nat>)
    requires 3 < size <= |s|
    ensures |t| == |s|
  {
    s[size - 1 := s[0]][0 := P(s, Greater(s, 1, size))]
  }

  lemma RoundHole(s: seq<nat>, size: nat)
    requires Heap(s, 1, size) && size > 3
    ensures Hole(RoundStart(s, size), 1, size - 1, Greater(s, 1, size), P(s, size))
  {
    var k, temp, t, m := Greater(s, 1, size), P(s, size), RoundStart(s, size), size - 1;
    UnderChild(s, size, size);
    assert Over(s, k, size) && Over(s, 1, size);
    assert Roof(t, 1, k, size - 1, temp);
    forall j: nat | 1 <= j <= m && j != k
      ensures Over(t, j, m)
    {
      assert Over(s, j, size);
    }
  }

  lemma RoundSame(s: seq<nat>, size: nat)
    requires 3 < size <= |s|
    ensures multiset(Put(RoundStart(s, size), Greater(s, 1, size), P(s, size))) == multiset(s)
  {
    var k := Greater(s, 1, size);
    var u := s[0 := s[size - 1]][size - 1 := s[0]];
    SwapSame(s, 0, size - 1);
    SwapSame(u, 0, k - 1);
    Rotated(s, k - 1, size - 1);
  }

  lemma Rotated(s: seq<nat>, i: nat, j: nat)
    requires 0 < i < j < |s|
    ensures var u := s[0 := s[j]][j := s[0]]; s[j := s[0]][0 := s[i]][i := s[j]] == u[0 := u[i]][i := u[0]]
  {
    var u := s[0 := s[j]][j := s[0]];
    assert u[i] == s[i] && u[0] == s[j];
  }

  // After the round the words behind the heap are one more.
  lemma RoundSorted(s: seq<nat>, t: seq<nat>, size: nat)
    requires Sorting(s, size) && size > 3 && Heap(t, 1, size - 1) && multiset(t) == multiset(s) && |t| == |s|
    requires t[size - 1] == s[0] && forall i :: size <= i < |s| ==> t[i] == s[i]
    ensures Sorting(t, size - 1)
  {
    RootMax(s, size);
    SameTail(s, t, size);
    forall i | 0 <= i < size - 1
      ensures t[i] <= s[0]
    {
      assert t[i] in multiset(t[..size]);
    }
  }

  lemma SameTail(s: seq<nat>, t: seq<nat>, size: nat)
    requires size <= |s| == |t| && multiset(t) == multiset(s) && forall i :: size <= i < |s| ==> t[i] == s[i]
    ensures multiset(t[..size]) == multiset(s[..size])
  {
    assert s == s[..size] + s[size..];
    assert t == t[..size] + t[size..];
    assert s[size..] == t[size..];
    var c := multiset(s[size..]);
    assert multiset(s[..size]) == multiset(s) - c;
    assert multiset(t[..size]) == multiset(t) - c;
  }

  lemma Leaves(s: seq<nat>, size: nat)
    requires size <= |s|
    ensures Heap(s, size / 2 + 1, size)
  {}

  lemma HeapHole(s: seq<nat>, lo: nat, size: nat)
    requires Heap(s, lo + 1, size) && 1 <= lo <= size
    ensures Hole(s, lo, size, lo, P(s, lo)) && Put(s, lo, P(s, lo)) == s
  {
    assert Put(s, lo, P(s, lo)) == s;
  }

  method BuildHeap(a: array<nat>, o: nat, n: nat)
    requires 2 <= n && o + n <= a.Length
    modifies a
    ensures a[..o] == old(a[..o]) && a[o + n..] == old(a[o + n..])
    ensures Heap(a[o..o + n], 1, n) && multiset(a[o..o + n]) == multiset(old(a[o..o + n]))
  {
    hide Heap, Hole, Put;
    Leaves(a[o..o + n], n);
    var i := n / 2;
    while i != 0
      invariant 0 <= i <= n / 2 && Heap(a[o..o + n], i + 1, n)
      invariant a[..o] == old(a[..o]) && a[o + n..] == old(a[o + n..])
      invariant multiset(a[o..o + n]) == multiset(old(a[o..o + n]))
    {
      HeapHole(a[o..o + n], i, n);
      var temp := a[o + i - 1];
      SiftDown(a, o, n, i, i, n, temp);
      i := i - 1;
    }
  }

  method HeapSort(a: array<nat>, o: nat, n: nat)
    requires o + n <= a.Length
    modifies a
    ensures a[..o] == old(a[..o]) && a[o + n..] == old(a[o + n..])
    ensures Sorted(a[o..o + n]) && multiset(a[o..o + n]) == multiset(old(a[o..o + n]))
  {
    hide Heap, Hole, Sorting;
    if n <= 1 {
      return;
    }
    BuildHeap(a, o, n);
    SortingStarts(a[o..o + n]);
    var size := n;
    while size > 3
      invariant 2 <= size <= n && Sorting(a[o..o + n], size)
      invariant a[..o] == old(a[..o]) && a[o + n..] == old(a[o + n..])
      invariant multiset(a[o..o + n]) == multiset(old(a[o..o + n]))
    {
      SortRound(a, o, n, size);
      size := size - 1;
    }
    SortRest(a, o, n, size);
  }

  lemma SortingStarts(s: seq<nat>)
    requires Heap(s, 1, |s|)
    ensures Sorting(s, |s|)
  {}

  lemma SortingHeap(s: seq<nat>, size: nat)
    requires Sorting(s, size)
    ensures Heap(s, 1, size)
  {}

  method SortRound(a: array<nat>, o: nat, n: nat, size: nat)
    requires 3 < size <= n && o + n <= a.Length && Sorting(a[o..o + n], size)
    modifies a
    ensures a[..o] == old(a[..o]) && a[o + n..] == old(a[o + n..])
    ensures Sorting(a[o..o + n], size - 1) && multiset(a[o..o + n]) == multiset(old(a[o..o + n]))
  {
    hide Heap, Hole, Sorting;
    ghost var s := a[o..o + n];
    SortingHeap(s, size);
    RoundHole(s, size);
    RoundSame(s, size);
    var temp := a[o + size - 1];
    var k := if a[o + 2] > a[o + 1] then 3 else 2;
    a[o + size - 1] := a[o];
    a[o] := a[o + k - 1];
    assert a[o..o + n] == RoundStart(s, size);
    SiftDown(a, o, n, 1, k, size - 1, temp);
    RoundSorted(s, a[o..o + n], size);
  }

  // The last two or three words.
  method SortRest(a: array<nat>, o: nat, n: nat, size: nat)
    requires 2 <= size <= 3 && size <= n && o + n <= a.Length && Sorting(a[o..o + n], size)
    modifies a
    ensures a[..o] == old(a[..o]) && a[o + n..] == old(a[o + n..])
    ensures Sorted(a[o..o + n]) && multiset(a[o..o + n]) == multiset(old(a[o..o + n]))
  {
    hide Sorting, Sorted;
    ghost var s := a[o..o + n];
    var temp := a[o + size - 1];
    SetAt(a, o, n, size - 1, a[o]);
    if size > 2 && a[o + 1] < temp {
      RestThree(s);
      SetAt(a, o, n, 0, a[o + 1]);
      SetAt(a, o, n, 1, temp);
    } else {
      RestSwap(s, size);
      SetAt(a, o, n, 0, temp);
    }
  }

  method SetAt(a: array<nat>, o: nat, n: nat, i: nat, v: nat)
    requires i < n && o + n <= a.Length
    modifies a
    ensures a[o..o + n] == old(a[o..o + n])[i := v] && a[..o] == old(a[..o]) && a[o + n..] == old(a[o + n..])
  {
    a[o + i] := v;
  }

  lemma RestThree(s: seq<nat>)
    requires Sorting(s, 3) && s[1] < s[2]
    ensures var t := s[2 := s[0]][0 := s[1]][1 := s[2]]; Sorted(t) && multiset(t) == multiset(s)
  {
    hide Sorted, Heap;
    SortingHeap(s, 3);
    RootMax(s, 3);
    ThreeSame(s);
    ThreeSorted(s[2 := s[0]][0 := s[1]][1 := s[2]]);
  }

  lemma ThreeSame(s: seq<nat>)
    requires |s| >= 3
    ensures multiset(s[2 := s[0]][0 := s[1]][1 := s[2]]) == multiset(s)
  {
    var u := s[0 := s[2]][2 := s[0]];
    SwapSame(s, 0, 2);
    SwapSame(u, 0, 1);
    assert s[2 := s[0]][0 := s[1]][1 := s[2]] == u[0 := u[1]][1 := u[0]];
  }

  lemma ThreeSorted(t: seq<nat>)
    requires |t| >= 3 && t[0] <= t[1] <= t[2]
    requires (forall j :: 3 <= j < |t| ==> t[0] <= t[j] && t[1] <= t[j] && t[2] <= t[j])
    requires forall i, j :: 3 <= i < j < |t| ==> t[i] <= t[j]
    ensures Sorted(t)
  {}

  lemma RestSwap(s: seq<nat>, size: nat)
    requires 2 <= size <= 3 && Sorting(s, size) && (size > 2 ==> s[1] >= s[2])
    ensures var t := s[size - 1 := s[0]][0 := s[size - 1]]; Sorted(t) && multiset(t) == multiset(s)
  {
    assert Over(s, 1, size);
    SwapSame(s, size - 1, 0);
  }
}
