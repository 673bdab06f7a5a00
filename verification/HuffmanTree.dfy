// The tree over the sorted symbols: two queues in one array, the symbols still to take and the nodes
// still to take.

module HuffmanTree {
  import opened HuffmanSymbols
  import HeapSorting

  // The sum of the first m.
  function Total(s: seq<nat>, m: nat): nat
    requires m <= |s|
  {
    if m == 0 then 0 else Total(s, m - 1) + s[m - 1]
  }

  lemma {:induction false} TotalPrefix(s: seq<nat>, t: seq<nat>, m: nat)
    requires m <= |s| && m <= |t| && s[..m] == t[..m]
    ensures Total(s, m) == Total(t, m)
  {
    if m > 0 {
      assert s[..m][m - 1] == t[..m][m - 1];
      assert s[..m - 1] == s[..m][..m - 1] && t[..m - 1] == t[..m][..m - 1];
      TotalPrefix(s, t, m - 1);
    }
  }

  lemma {:induction false} TotalGrows(s: seq<nat>, a: nat, b: nat)
    requires a <= b <= |s|
    ensures Total(s, a) <= Total(s, b)
  {
    if a < b { TotalGrows(s, a, b - 1); }
  }

  // Node e joins the leaves from cut[e] to cut[e + 1] and the nodes from Below(e) to Below(e + 1),
  // two together; v are the weights of the nodes, par the parents of nodes, top those of leaves.
  datatype Tree = Tree(w: seq<nat>, cut: seq<nat>, v: seq<nat>, par: seq<nat>, top: seq<nat>)

  // Nodes taken before node e.
  function Taken(t: Tree, e: nat): int
    requires e < |t.cut|
  {
    2 * e - t.cut[e]
  }

  ghost predicate Joins(t: Tree, e: nat)
    requires e + 1 < |t.cut| && e < |t.v|
  {
    && t.cut[e] <= t.cut[e + 1] <= t.cut[e] + 2 && t.cut[e + 1] <= |t.w|
    && 0 <= Taken(t, e) <= Taken(t, e + 1) <= e
    && t.v[e] == Total(t.w, t.cut[e + 1]) - Total(t.w, t.cut[e]) + Total(t.v, Taken(t, e + 1)) - Total(t.v, Taken(t, e))
  }

  ghost predicate LeafUnder(t: Tree, k: nat)
    requires k < |t.top|
  {
    t.top[k] + 1 < |t.cut| && t.cut[t.top[k]] <= k < t.cut[t.top[k] + 1]
  }

  ghost predicate NodeUnder(t: Tree, x: nat)
    requires x < |t.par|
  {
    t.par[x] + 1 < |t.cut| && Taken(t, t.par[x]) <= x < Taken(t, t.par[x] + 1)
  }

  // The first e nodes of a tree.
  ghost predicate Growing(t: Tree, e: nat) {
    && |t.cut| == e + 1 && |t.v| == e && t.cut[0] == 0 && t.cut[e] <= |t.w| && 0 <= Taken(t, e) <= e
    && |t.top| == t.cut[e] && |t.par| == Taken(t, e)
    && (forall x: nat :: x < e ==> Joins(t, x))
    && (forall k: nat :: k < |t.top| ==> LeafUnder(t, k))
    && (forall x: nat :: x < |t.par| ==> NodeUnder(t, x))
  }

  // A finished tree: all leaves and all nodes but the root are taken.
  ghost predicate Grown(t: Tree) { |t.w| >= 2 && Growing(t, |t.w| - 1) && t.cut[|t.w| - 1] == |t.w| }

  // One more node, over the next leaves up to i and nodes up to b.
  function Join(t: Tree, i: nat, b: nat, weight: nat): Tree
    requires i >= |t.top| && b >= |t.par|
  {
    Tree(t.w, t.cut + [i], t.v + [weight], t.par + seq(b - |t.par|, _ => |t.v|), t.top + seq(i - |t.top|, _ => |t.v|))
  }

  lemma JoinGrows(t: Tree, e: nat, i: nat, b: nat, weight: nat)
    requires Growing(t, e) && |t.top| <= i <= |t.w| && |t.par| <= b <= e && i + b == 2 * e + 2
    requires i <= |t.top| + 2
    requires weight == Total(t.w, i) - Total(t.w, |t.top|) + Total(t.v, b) - Total(t.v, |t.par|)
    ensures Growing(Join(t, i, b, weight), e + 1)
  {
    hide Total;
    var u := Join(t, i, b, weight);
    forall x: nat | x <= e
      ensures TotalKept(t.v, u.v, x)
    {
      assert u.v[..x] == t.v[..x];
      TotalPrefix(u.v, t.v, x);
    }
    forall x: nat | x <= e
      ensures Joins(u, x)
    {
      if x < e {
        assert Joins(t, x);
        assert TotalKept(t.v, u.v, Taken(t, x)) && TotalKept(t.v, u.v, Taken(t, x + 1));
      } else {
        assert TotalKept(t.v, u.v, Taken(t, e)) && TotalKept(t.v, u.v, b);
      }
    }
    forall k: nat | k < |u.top|
      ensures LeafUnder(u, k)
    {
      assert k < |t.top| ==> LeafUnder(t, k);
    }
    forall x: nat | x < |u.par|
      ensures NodeUnder(u, x)
    {
      assert x < |t.par| ==> NodeUnder(t, x);
    }
  }

  ghost predicate TotalKept(s: seq<nat>, t: seq<nat>, m: int) { 0 <= m <= |s| && m <= |t| && Total(s, m) == Total(t,
                            m) }

  // What is not yet taken weighs as much as all leaves together.
  lemma {:induction false} WeightKept(t: Tree, e: nat)
    requires Growing(t, |t.v|) && e <= |t.v|
    ensures t.cut[e] <= |t.w| && 0 <= Taken(t, e) <= e
    ensures Total(t.v, e) == Total(t.w, t.cut[e]) + Total(t.v, Taken(t, e))
  {
    if e > 0 {
      assert Joins(t, e - 1);
      WeightKept(t, e - 1);
    }
  }

  // Of leaf i and node b the program takes the lighter one, the leaf when they weigh the same.
  predicate TakesLeaf(t: Tree, i: nat, b: nat, e: nat)
    requires e <= |t.v|
  {
    i < |t.w| && (b >= e || t.w[i] <= t.v[b])
  }

  // How the two under node e were chosen, from leaf i and node b on.
  predicate Chosen(t: Tree, e: nat, i: nat, b: nat, i': nat)
    requires e <= |t.v|
  {
    var first := TakesLeaf(t, i, b, e);
    var second := if first then TakesLeaf(t, i + 1, b, e) else TakesLeaf(t, i, b + 1, e);
    i' == i + (if first then 1 else 0) + if second then 1 else 0
  }

  ghost predicate Choices(t: Tree, e: nat)
    requires Growing(t, e)
  {
    forall x: nat :: x < e ==> Joins(t, x) && Chosen(t, x, t.cut[x], Taken(t, x), t.cut[x + 1])
  }

  lemma JoinChoices(t: Tree, e: nat, i: nat, b: nat, weight: nat)
    requires Growing(t, e) && Choices(t, e) && |t.top| <= i && |t.par| <= b
    requires Growing(Join(t, i, b, weight), e + 1) && Chosen(t, e, |t.top|, |t.par|, i)
    ensures Choices(Join(t, i, b, weight), e + 1)
  {
    var u := Join(t, i, b, weight);
    forall x: nat | x <= e
      ensures Joins(u, x) && Chosen(u, x, u.cut[x], Taken(u, x), u.cut[x + 1])
    {
      assert x < e ==> Joins(t, x) && Chosen(t, x, t.cut[x], Taken(t, x), t.cut[x + 1]);
    }
  }

  // ----- The array -----------------------------------------------------------------------------

  // While node e is made, with the leaves below i and the nodes below b taken: the words keep their
  // symbols, and the numbers above them are the weights in the queues and the parents of nodes.
  ghost predicate Queues(t: Tree, p: seq<nat>, words: seq<nat>, e: nat, i: nat, b: nat) {
    && Growing(t, e) && |t.w| == |words| == |p| <= SYMBOLS && |t.top| <= i <= |p| && |t.par| <= b <= e < |p|
    && (forall k :: 0 <= k < |p| ==> Sym(p[k]) == Sym(words[k]))
    && (forall k :: 0 <= k < |p| ==> Up(words[k]) == t.w[k])
    && (forall k :: i <= k < |p| ==> p[k] == words[k])
    && (forall x :: b <= x < e ==> Up(p[x]) == t.v[x])
    && (forall x :: 0 <= x < b ==> Up(p[x]) == if x < |t.par| then t.par[x] else e)
    && (forall k :: e <= k < i ==> Up(p[k]) <= e)
  }

  // With the frequencies below 2^22 in all, the words fit 32 bits at any time.
  lemma WordsFit(t: Tree, p: seq<nat>, words: seq<nat>, e: nat, i: nat, b: nat, k: nat)
    requires Queues(t, p, words, e, i, b) && Total(t.w, |t.w|) < 0x40_0000 && k < |p|
    ensures p[k] < 0x1_0000_0000
  {
    Repacked(p[k]);
    if k >= i {
      TotalGrows(t.w, k + 1, |t.w|);
    } else if b <= k < e {
      TotalGrows(t.v, k + 1, e);
      WeightKept(t, e);
      WeightsTaken(t, e);
    } else if k < b {
      assert k < |t.par| ==> NodeUnder(t, k);
    }
  }

  // The nodes not yet taken weigh no more than the leaves.
  lemma {:induction false} WeightsTaken(t: Tree, e: nat)
    requires Growing(t, |t.v|) && e <= |t.v|
    ensures t.cut[e] <= |t.w| && 0 <= Taken(t, e) <= e
    ensures forall x: nat :: x < e ==> t.v[x] <= Total(t.w, |t.w|)
    decreases e
  {
    if e > 0 {
      assert Joins(t, e - 1);
      WeightsTaken(t, e - 1);
      WeightKept(t, e);
      WeightKept(t, e - 1);
      TotalGrows(t.v, Taken(t, e), e - 1);
      TotalGrows(t.w, t.cut[e], |t.w|);
    }
  }

  lemma LeafTaken(t: Tree, p: seq<nat>, words: seq<nat>, e: nat, i: nat, b: nat)
    requires Queues(t, p, words, e, i, b) && i < |p|
    ensures Up(p[i]) == t.w[i] && Queues(t, p[i := Pack(Sym(p[i]), e)], words, e, i + 1, b)
  {
    assert i >= e;
  }

  lemma NodeTaken(t: Tree, p: seq<nat>, words: seq<nat>, e: nat, i: nat, b: nat)
    requires Queues(t, p, words, e, i, b) && b < e
    ensures Up(p[b]) == t.v[b] && Queues(t, p[b := Pack(Sym(p[b]), e)], words, e, i, b + 1)
  {
    assert i >= e;
  }

  lemma NodeMade(t: Tree, p: seq<nat>, words: seq<nat>, e: nat, i: nat, b: nat, weight: nat)
    requires Queues(t, p, words, e, i, b) && i + b == 2 * e + 2 && i <= |t.top| + 2 && e + 1 < |p|
    requires weight == Total(t.w, i) - Total(t.w, |t.top|) + Total(t.v, b) - Total(t.v, |t.par|)
    ensures Growing(Join(t, i, b, weight), e + 1)
    ensures Queues(Join(t, i, b, weight), p[e := Pack(Sym(p[e]), weight)], words, e + 1, i, b)
  {
    hide Total;
    JoinGrows(t, e, i, b, weight);
  }

  method SetUp(p: array<nat>, num: nat, k: nat, up: nat)
    requires k < num <= p.Length
    modifies p
    ensures p[..num] == old(p[..num])[k := Pack(Sym(old(p[k])), up)] && p[num..] == old(p[num..])
  {
    p[k] := Pack(Sym(p[k]), up);
  }

  // Takes the lighter front of the two queues.
  method Take(p: array<nat>, num: nat, i: nat, b: nat, e: nat, ghost t: Tree, ghost words: seq<nat>)
    returns (freq: nat, i': nat, b': nat)
    requires num <= p.Length && Queues(t, p[..num], words, e, i, b) && (i < num || b < e)
    modifies p
    ensures p[num..] == old(p[num..]) && Queues(t, p[..num], words, e, i', b')
    ensures if TakesLeaf(t, i, b, e) then i' == i + 1 && b' == b && freq == t.w[i]
            else i' == i && b' == b + 1 && freq == t.v[b]
  {
    hide Growing, Total;
    ghost var q := p[..num];
    if i < num { LeafTaken(t, q, words, e, i, b); }
    if b < e { NodeTaken(t, q, words, e, i, b); }
    assert (i < num ==> q[i] == p[i]) && (b < e ==> q[b] == p[b]);
    var n;
    if i != num && (b == e || Up(p[i]) <= Up(p[b])) {
      n, i', b' := i, i + 1, b;
    } else {
      n, i', b' := b, i, b + 1;
    }
    freq := Up(p[n]);
    SetUp(p, num, n, e);
  }

  // Makes node e over the two lightest.
  method JoinNext(p: array<nat>, num: nat, i: nat, b: nat, e: nat, ghost t: Tree, ghost words: seq<nat>)
    returns (i': nat, b': nat, ghost t': Tree)
    requires num <= p.Length && Queues(t, p[..num], words, e, i, b) && |t.top| == i && |t.par| == b && num - e > 1
    requires Choices(t, e)
    modifies p
    ensures p[num..] == old(p[num..]) && Queues(t', p[..num], words, e + 1, i', b')
    ensures |t'.top| == i' && |t'.par| == b' && t'.w == t.w && Choices(t', e + 1)
  {
    hide Growing, Choices, Queues;
    QueueSizes(t, p[..num], words, e, i, b);
    var freq, i1, b1 := Take(p, num, i, b, e, t, words);
    var freq2;
    freq2, i', b' := Take(p, num, i1, b1, e, t, words);
    freq := freq + freq2;
    NodeMade(t, p[..num], words, e, i', b', freq);
    SetUp(p, num, e, freq);
    t' := Join(t, i', b', freq);
    JoinChoices(t, e, i', b', freq);
  }

  lemma QueueSizes(t: Tree, p: seq<nat>, words: seq<nat>, e: nat, i: nat, b: nat)
    requires Queues(t, p, words, e, i, b)
    ensures Growing(t, e) && |t.top| + |t.par| == 2 * e && e < |p| == |t.w| && e == |t.v| && |t.top| <= i <= |t.w|
    ensures |t.par| <= b <= e
  {}

  // The tree over the sorted words; they fit 32 bits throughout.
  method BuildTree(p: array<nat>, num: nat) returns (ghost t: Tree)
    requires 2 <= num <= p.Length && num <= SYMBOLS && Total(Ups(p[..num]), num) < 0x40_0000
    modifies p
    ensures p[num..] == old(p[num..]) && |t.w| == num && |t.par| == num - 2 && Grown(t) && Choices(t, num - 1)
    ensures t.w == Ups(old(p[..num])) && forall k :: 0 <= k < num ==> Sym(p[k]) == Sym(old(p[k]))
    ensures forall x :: 0 <= x < num - 2 ==> Up(p[x]) == t.par[x]
  {
    hide Growing, Choices, Queues;
    ghost var words := p[..num];
    t := Tree(Ups(words), [0], [], [], []);
    NoNodes(t, words);
    var i, b, e := 0, 0, 0;
    while num - e > 1
      invariant 0 <= e <= num - 1 && Queues(t, p[..num], words, e, i, b) && |t.top| == i && |t.par| == b
      invariant Growing(t, e) && Choices(t, e) && t.w == Ups(words) && p[num..] == old(p[num..])
      invariant AllFit(p[..num])
      decreases num - e
    {
      i, b, t := JoinNext(p, num, i, b, e, t, words);
      e := e + 1;
      QueueSizes(t, p[..num], words, e, i, b);
      AllWordsFit(t, p[..num], words, e, i, b);
    }
    AllTaken(t, p[..num], words, e, i, b);
    assert forall k :: 0 <= k < num ==> p[..num][k] == p[k];
  }

  ghost predicate AllFit(p: seq<nat>) { forall k :: 0 <= k < |p| ==> p[k] < 0x1_0000_0000 }

  lemma AllWordsFit(t: Tree, p: seq<nat>, words: seq<nat>, e: nat, i: nat, b: nat)
    requires Queues(t, p, words, e, i, b) && Total(t.w, |t.w|) < 0x40_0000
    ensures AllFit(p)
  {
    forall k: nat | k < |p|
      ensures p[k] < 0x1_0000_0000
    {
      WordsFit(t, p, words, e, i, b, k);
    }
  }

  lemma NoNodes(t: Tree, words: seq<nat>)
    requires t.cut == [0] && t.v == t.par == t.top == [] && 2 <= |t.w| == |words| <= SYMBOLS
    requires t.w == Ups(words) && Total(t.w, |t.w|) < 0x40_0000
    ensures Queues(t, words, words, 0, 0, 0) && Growing(t, 0) && Choices(t, 0) && AllFit(words)
  {
    assert Queues(t, words, words, 0, 0, 0);
    AllWordsFit(t, words, words, 0, 0, 0);
  }

  lemma AllTaken(t: Tree, p: seq<nat>, words: seq<nat>, e: nat, i: nat, b: nat)
    requires Queues(t, p, words, e, i, b) && |t.top| == i && |t.par| == b && e == |p| - 1 && |p| >= 2
    ensures Grown(t) && |t.par| == |p| - 2
    ensures forall k :: 0 <= k < |p| ==> Sym(p[k]) == Sym(words[k])
    ensures forall x :: 0 <= x < |p| - 2 ==> Up(p[x]) == t.par[x]
  {
    assert Joins(t, e - 1);
  }
}
