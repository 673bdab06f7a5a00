// Sequences without repetition, and mapping the elements of a sequence.

module Permutations {
  function Upto(n: nat): (s: seq<nat>)
    ensures |s| == n && forall k :: 0 <= k < n ==> s[k] == k
  {
    seq(n, k requires 0 <= k < n => k)
  }

  ghost predicate IsPermutation(s: seq<nat>) { multiset(s) == multiset(Upto(|s|)) }

  // No value twice.
  ghost predicate Once(s: seq<nat>) { forall v: nat :: multiset(s)[v] <= 1 }

  lemma {:induction false} UptoOnce(n: nat)
    ensures Once(Upto(n)) && forall v: nat :: v < n <==> multiset(Upto(n))[v] == 1
  {
    if n > 0 {
      UptoOnce(n - 1);
      assert Upto(n) == Upto(n - 1) + [n - 1];
    }
  }

  lemma PermutationFacts(s: seq<nat>)
    requires IsPermutation(s)
    ensures Once(s) && (forall k :: 0 <= k < |s| ==> s[k] < |s|) && forall p: nat :: p < |s| ==> p in s
  {
    UptoOnce(|s|);
    forall k | 0 <= k < |s|
      ensures s[k] < |s|
    {
      assert s[k] in multiset(s);
    }
    forall p: nat | p < |s|
      ensures p in s
    {
      assert p in multiset(s);
    }
  }

  lemma OnceSnoc(s: seq<nat>, x: nat)
    requires Once(s) && x !in s
    ensures Once(s + [x])
  {
    var last: multiset<nat> := multiset{x};
    assert multiset(s + [x]) == multiset(s) + last;
  }

  lemma OncePlaces(s: seq<nat>, i: nat, j: nat)
    requires Once(s) && i < j < |s|
    ensures s[i] != s[j]
  {
    assert s == s[..j] + s[j..];
    assert multiset(s)[s[i]] == multiset(s[..j])[s[i]] + multiset(s[j..])[s[i]];
    assert s[..j][i] == s[i];
    assert s[i] in s[..j];
    assert s[j..][0] == s[j];
    assert s[j] in s[j..];
  }

  lemma {:induction false} OnceFromPlaces(s: seq<nat>)
    requires forall i, j :: 0 <= i < j < |s| ==> s[i] != s[j]
    ensures Once(s)
    decreases |s|
  {
    if s != [] {
      var n := |s| - 1;
      OnceFromPlaces(s[..n]);
      OnceSnoc(s[..n], s[n]);
      assert s == s[..n] + [s[n]];
    }
  }

  lemma OnceHalves(s: seq<nat>, t: seq<nat>, v: nat)
    requires Once(s + t) && v in s
    ensures v !in t
  {
    assert multiset(s + t)[v] == multiset(s)[v] + multiset(t)[v];
  }

  lemma OnceParts(s: seq<nat>, t: seq<nat>)
    requires Once(s + t)
    ensures Once(s) && Once(t)
  {
    forall v: nat
      ensures multiset(s)[v] <= 1 && multiset(t)[v] <= 1
    {
      assert multiset(s + t)[v] == multiset(s)[v] + multiset(t)[v];
    }
  }

  // A sequence of n numbers in which all below n occur has each of them once.
  lemma {:induction false} AllOccur(s: seq<nat>)
    requires forall p: nat :: p < |s| ==> p in s
    ensures IsPermutation(s)
  {
    if s != [] {
      var last: nat := |s| - 1;
      assert last in s;
      var k :| 0 <= k < |s| && s[k] == last;
      var t := s[..k] + s[k + 1..];
      assert s == s[..k] + [s[k]] + s[k + 1..];
      forall p: nat | p < |t|
        ensures p in t
      {
        assert p in s && p != s[k];
      }
      AllOccur(t);
      assert Upto(|s|) == Upto(last) + [last];
    }
  }

  function Apply(f: nat -> nat, s: seq<nat>): (t: seq<nat>)
    ensures |t| == |s| && forall k :: 0 <= k < |s| ==> t[k] == f(s[k])
  {
    seq(|s|, k requires 0 <= k < |s| => f(s[k]))
  }

  function Without(s: seq<nat>, k: nat): (t: seq<nat>)
    requires k < |s|
    ensures |t| == |s| - 1
  {
    s[..k] + s[k + 1..]
  }

  lemma WithoutSame(s: seq<nat>, k: nat)
    requires k < |s|
    ensures multiset(s) == multiset(Without(s, k)) + multiset{s[k]}
  {
    assert s == s[..k] + [s[k]] + s[k + 1..];
  }

  lemma {:induction false} ApplySame(f: nat -> nat, s: seq<nat>, t: seq<nat>)
    requires multiset(s) == multiset(t)
    ensures multiset(Apply(f, s)) == multiset(Apply(f, t))
    decreases |s|
  {
    hide Apply, Without;
    if s == [] {
      assert t == [];
    } else {
      assert s[0] in multiset(t);
      var k: nat :| k < |t| && t[k] == s[0];
      TakenOut(s, t, k);
      ApplySame(f, Without(s, 0), Without(t, k));
      ApplyPart(f, s, 0);
      ApplyPart(f, t, k);
    }
  }

  lemma TakenOut(s: seq<nat>, t: seq<nat>, k: nat)
    requires multiset(s) == multiset(t) && s != [] && k < |t| && t[k] == s[0]
    ensures multiset(Without(s, 0)) == multiset(Without(t, k))
  {
    hide Without;
    WithoutSame(s, 0);
    WithoutSame(t, k);
    var x := multiset{s[0]};
    assert multiset(Without(s, 0)) == multiset(s) - x;
    assert multiset(Without(t, k)) == multiset(t) - x;
  }

  lemma ApplyPart(f: nat -> nat, s: seq<nat>, k: nat)
    requires k < |s|
    ensures multiset(Apply(f, s)) == multiset(Apply(f, Without(s, k))) + multiset{f(s[k])}
  {
    assert Apply(f, Without(s, k)) == Without(Apply(f, s), k);
    WithoutSame(Apply(f, s), k);
  }
}
