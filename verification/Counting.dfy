// Counting sort: how often a key occurs before a place, and where each item goes.

module Counting {
  import opened Permutations

  // How many of the first m positions have the key v, and how many a smaller one.
  function Count(keys: seq<nat>, v: nat, m: nat): nat
    requires m <= |keys|
  {
    if m == 0 then 0 else Count(keys, v, m - 1) + if keys[m - 1] == v then 1 else 0
  }

  function Below(keys: seq<nat>, v: nat, m: nat): (b: nat)
    requires m <= |keys|
    ensures b <= m && (v == 0 ==> b == 0)
  {
    if m == 0 then 0 else Below(keys, v, m - 1) + if keys[m - 1] < v then 1 else 0
  }

  lemma {:induction false} BelowNext(keys: seq<nat>, v: nat, m: nat)
    requires m <= |keys|
    ensures Below(keys, v + 1, m) == Below(keys, v, m) + Count(keys, v, m)
    decreases m
  {
    if m > 0 { BelowNext(keys, v, m - 1); }
  }

  lemma {:induction false} BelowGrows(keys: seq<nat>, v: nat, w: nat, m: nat)
    requires m <= |keys| && v <= w
    ensures Below(keys, v, m) <= Below(keys, w, m)
    decreases m
  {
    if m > 0 { BelowGrows(keys, v, w, m - 1); }
  }

  lemma {:induction false} CountGrows(keys: seq<nat>, i: nat, m: nat)
    requires i < m <= |keys|
    ensures Count(keys, keys[i], i) < Count(keys, keys[i], m)
    decreases m
  {
    if i < m - 1 { CountGrows(keys, i, m - 1); }
  }

  // Where the counting sort puts position i.
  function Place(keys: seq<nat>, i: nat): nat
    requires i < |keys|
  {
    Below(keys, keys[i], |keys|) + Count(keys, keys[i], i)
  }

  lemma PlaceInside(keys: seq<nat>, i: nat)
    requires i < |keys|
    ensures Below(keys, keys[i], |keys|) <= Place(keys, i) < Below(keys, keys[i] + 1, |keys|) <= |keys|
  {
    BelowNext(keys, keys[i], |keys|);
    CountGrows(keys, i, |keys|);
  }

  lemma KeyOfPlace(keys: seq<nat>, i: nat, v: nat)
    requires i < |keys| && Below(keys, v, |keys|) <= Place(keys, i) < Below(keys, v + 1, |keys|)
    ensures keys[i] == v
  {
    PlaceInside(keys, i);
    if keys[i] < v { BelowGrows(keys, keys[i] + 1, v, |keys|); }
    if v < keys[i] { BelowGrows(keys, v + 1, keys[i], |keys|); }
  }

  lemma PlacesDiffer(keys: seq<nat>, i: nat, j: nat)
    requires i < j < |keys|
    ensures Place(keys, i) != Place(keys, j)
  {
    PlaceInside(keys, i);
    PlaceInside(keys, j);
    if keys[i] == keys[j] {
      CountGrows(keys, i, j);
    } else if Place(keys, i) == Place(keys, j) {
      KeyOfPlace(keys, i, keys[j]);
    }
  }

  lemma {:induction false} AllBelow(keys: seq<nat>, v: nat, m: nat)
    requires m <= |keys| && forall i :: 0 <= i < m ==> keys[i] < v
    ensures Below(keys, v, m) == m
    decreases m
  {
    if m > 0 { AllBelow(keys, v, m - 1); }
  }

  // ----- Items in place ------------------------------------------------------------------------

  // The first m positions are in place.
  ghost predicate Placed(keys: seq<nat>, words: seq<nat>, m: nat) {
    m <= |keys| == |words| && forall p: nat :: p < m ==> Place(keys, p) < |words| && words[Place(keys, p)] == p
  }

  lemma PlacedNext(keys: seq<nat>, words: seq<nat>, m: nat)
    requires Placed(keys, words, m) && m < |keys|
    ensures Place(keys, m) < |words| && Placed(keys, words[Place(keys, m) := m], m + 1)
  {
    PlaceInside(keys, m);
    forall p: nat | p < m
      ensures Place(keys, p) != Place(keys, m)
    {
      PlacesDiffer(keys, p, m);
    }
  }

  // All positions occur, and every position is in its place.
  lemma AllPlaced(keys: seq<nat>, words: seq<nat>)
    requires Placed(keys, words, |keys|)
    ensures IsPermutation(words) && forall k: nat :: k < |words| ==> words[k] < |keys| && Place(keys, words[k]) == k
  {
    forall p: nat | p < |words|
      ensures p in words
    {
      assert words[Place(keys, p)] == p;
    }
    AllOccur(words);
    PermutationFacts(words);
    forall k: nat | k < |words|
      ensures words[k] < |keys| && Place(keys, words[k]) == k
    {
      var l := Place(keys, words[k]);
      if l < k { OncePlaces(words, l, k); }
      if k < l { OncePlaces(words, k, l); }
    }
  }

  lemma PlacedNone(keys: seq<nat>, words: seq<nat>)
    requires |words| == |keys|
    ensures Placed(keys, words, 0)
  {}

  lemma PlacedLength(keys: seq<nat>, words: seq<nat>, m: nat)
    requires Placed(keys, words, m)
    ensures |words| == |keys|
  {}
}
