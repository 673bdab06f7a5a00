// The search trees of the binary-tree match finder, as values: how a new string splits a tree,
// which matches show up on the way, and why comparing can start behind a prefix that is already
// known to be equal.

module MatchTree {
  import opened Words

  // Nodes are positions in the text; the strings that start there are what is ordered.
  datatype Tree = Leaf | Node(pos: nat, left: Tree, right: Tree)

  datatype Match = Match(len: nat, pos: nat)

  function Nodes(t: Tree): set<nat> {
    if t.Leaf? then {} else {t.pos} + Nodes(t.left) + Nodes(t.right)
  }

  predicate Same(text: seq<Byte>, a: nat, b: nat, i: nat) {
    a + i < |text| && b + i < |text| && text[a + i] == text[b + i]
  }

  // Length of the common beginning of the strings at a and b, from k on and up to limit.
  function LcpFrom(text: seq<Byte>, a: nat, b: nat, limit: nat, k: nat): (r: nat)
    requires k <= limit && a + limit <= |text| && b + limit <= |text|
    ensures k <= r <= limit
    ensures forall i: nat :: k <= i < r ==> Same(text, a, b, i)
    ensures r < limit ==> text[a + r] != text[b + r]
    decreases limit - k
  {
    if k == limit || text[a + k] != text[b + k] then k else LcpFrom(text, a, b, limit, k + 1)
  }

  function Lcp(text: seq<Byte>, a: nat, b: nat, limit: nat): (r: nat)
    requires a + limit <= |text| && b + limit <= |text|
    ensures r <= limit
    ensures forall i: nat :: 0 <= i < r ==> Same(text, a, b, i)
    ensures r < limit ==> text[a + r] != text[b + r]
  {
    LcpFrom(text, a, b, limit, 0)
  }

  lemma LcpIs(text: seq<Byte>, a: nat, b: nat, limit: nat, k: nat)
    requires k <= limit && a + limit <= |text| && b + limit <= |text|
    requires forall i: nat :: 0 <= i < k ==> Same(text, a, b, i)
    requires k < limit ==> text[a + k] != text[b + k]
    ensures Lcp(text, a, b, limit) == k
  {
    var r := Lcp(text, a, b, limit);
    assert r < k ==> Same(text, a, b, r);
    assert k < r ==> Same(text, a, b, k);
  }

  // The order of the strings, as far as limit bytes.
  predicate Before(text: seq<Byte>, a: nat, b: nat, limit: nat)
    requires a + limit <= |text| && b + limit <= |text|
  {
    var k := Lcp(text, a, b, limit);
    k < limit && text[a + k] < text[b + k]
  }

  predicate NotAfter(text: seq<Byte>, a: nat, b: nat, limit: nat)
    requires a + limit <= |text| && b + limit <= |text|
  {
    !Before(text, b, a, limit)
  }

  lemma LcpSymmetric(text: seq<Byte>, a: nat, b: nat, limit: nat)
    requires a + limit <= |text| && b + limit <= |text|
    ensures Lcp(text, a, b, limit) == Lcp(text, b, a, limit)
  {
    var k := Lcp(text, a, b, limit);
    forall i: nat | i < k
      ensures Same(text, b, a, i)
    {
      assert Same(text, a, b, i);
    }
    LcpIs(text, b, a, limit, k);
  }

  // What three strings have in common, and the bytes that tell them apart.
  lemma Three(text: seq<Byte>, a: nat, b: nat, c: nat, limit: nat)
    requires a + limit <= |text| && b + limit <= |text| && c + limit <= |text|
    ensures var k, m, r := Lcp(text, a, b, limit), Lcp(text, b, c, limit), Lcp(text, a, c, limit);
      && (k < m ==> r == k && Same(text, b, c, k))
      && (m < k ==> r == m && Same(text, a, b, m))
      && (k == m ==> r >= k && (r > k ==> Same(text, a, c, k)))
  {
    var k, m, r := Lcp(text, a, b, limit), Lcp(text, b, c, limit), Lcp(text, a, c, limit);
    forall i: nat | i < k && i < m
      ensures Same(text, a, c, i)
    {
      assert Same(text, a, b, i) && Same(text, b, c, i);
    }
    if k < m {
      assert Same(text, b, c, k);
      LcpIs(text, a, c, limit, k);
    } else if m < k {
      assert Same(text, a, b, m);
      LcpIs(text, a, c, limit, m);
    } else {
      assert r < k ==> Same(text, a, c, r);
      assert r > k ==> Same(text, a, c, k);
    }
  }

  lemma NotAfterTrans(text: seq<Byte>, a: nat, b: nat, c: nat, limit: nat)
    requires a + limit <= |text| && b + limit <= |text| && c + limit <= |text|
    requires NotAfter(text, a, b, limit) && NotAfter(text, b, c, limit)
    ensures NotAfter(text, a, c, limit)
  {
    hide Lcp;
    LcpSymmetric(text, a, b, limit);
    LcpSymmetric(text, b, c, limit);
    LcpSymmetric(text, a, c, limit);
    Three(text, a, b, c, limit);
  }

  // A string between two others shares with a fourth at least what both of them share with it.
  lemma Between(text: seq<Byte>, a: nat, x: nat, b: nat, c: nat, limit: nat)
    requires a + limit <= |text| && b + limit <= |text| && c + limit <= |text| && x + limit <= |text|
    requires NotAfter(text, a, x, limit) && NotAfter(text, x, b, limit)
    ensures Lcp(text, x, c, limit) >= Lcp(text, a, c, limit) || Lcp(text, x, c, limit) >= Lcp(text, b, c, limit)
  {
    hide Lcp;
    LcpSymmetric(text, a, c, limit);
    LcpSymmetric(text, b, c, limit);
    LcpSymmetric(text, x, a, limit);
    LcpSymmetric(text, x, b, limit);
    Three(text, x, c, a, limit);
    Three(text, x, c, b, limit);
  }

  // A string on the far side of another shares no more.
  lemma FarSide(text: seq<Byte>, x: nat, y: nat, c: nat, limit: nat)
    requires x + limit <= |text| && y + limit <= |text| && c + limit <= |text|
    requires || (NotAfter(text, x, y, limit) && Before(text, y, c, limit))
             || (NotAfter(text, y, x, limit) && Before(text, c, y, limit))
    ensures Lcp(text, x, c, limit) <= Lcp(text, y, c, limit)
    ensures NotAfter(text, x, y, limit) && Before(text, y, c, limit) ==> Before(text, x, c, limit)
    ensures NotAfter(text, y, x, limit) && Before(text, c, y, limit) ==> Before(text, c, x, limit)
  {
    hide Lcp;
    LcpSymmetric(text, x, y, limit);
    LcpSymmetric(text, y, c, limit);
    LcpSymmetric(text, x, c, limit);
    Three(text, x, y, c, limit);
  }

  // ----- Trees -----------------------------------------------------------------------------------

  // All strings of the tree are long enough.
  predicate Fits(text: seq<Byte>, t: Tree, limit: nat) {
    t.Node? ==> t.pos + limit <= |text| && Fits(text, t.left, limit) && Fits(text, t.right, limit)
  }

  lemma {:induction false} FitsAll(text: seq<Byte>, t: Tree, limit: nat, x: nat)
    requires Fits(text, t, limit) && x in Nodes(t)
    ensures x + limit <= |text|
  {
    if x in Nodes(t.left) { FitsAll(text, t.left, limit, x); }
    else if x in Nodes(t.right) { FitsAll(text, t.right, limit, x); }
  }

  ghost predicate AllUpTo(text: seq<Byte>, t: Tree, y: nat, limit: nat)
    requires y + limit <= |text|
  {
    forall x :: x in Nodes(t) ==> x + limit <= |text| && NotAfter(text, x, y, limit)
  }

  ghost predicate AllFrom(text: seq<Byte>, t: Tree, y: nat, limit: nat)
    requires y + limit <= |text|
  {
    forall x :: x in Nodes(t) ==> x + limit <= |text| && NotAfter(text, y, x, limit)
  }

  // Smaller strings to the left, greater to the right; equal ones, as far as limit, on any side.
  ghost predicate Ordered(text: seq<Byte>, t: Tree, limit: nat)
    requires Fits(text, t, limit)
  {
    t.Node? ==>
      && AllUpTo(text, t.left, t.pos, limit) && AllFrom(text, t.right, t.pos, limit)
      && Ordered(text, t.left, limit) && Ordered(text, t.right, limit)
  }

  // Each position occurs once, and a node is younger than everything below it.
  predicate Proper(t: Tree) {
    t.Node? ==>
      && Proper(t.left) && Proper(t.right) && Nodes(t.left) !! Nodes(t.right)
      && (forall x :: x in Nodes(t.left) ==> x < t.pos) && (forall x :: x in Nodes(t.right) ==> x < t.pos)
  }

  datatype Parts = Parts(less: Tree, more: Tree)

  // The tree cut in two by the string at cur: at most cut nodes are compared with it, and what
  // hangs below is dropped then; a node with an equal string gives way.
  function Part(text: seq<Byte>, t: Tree, cur: nat, limit: nat, cut: nat): Parts
    requires Fits(text, t, limit) && cur + limit <= |text|
  {
    if t.Leaf? || cut == 0 then Parts(Leaf, Leaf)
    else
      var len := Lcp(text, t.pos, cur, limit);
      if len == limit then Parts(t.left, t.right)
      else if text[t.pos + len] < text[cur + len] then
        var r := Part(text, t.right, cur, limit, cut - 1);
        Parts(Node(t.pos, t.left, r.less), r.more)
      else
        var r := Part(text, t.left, cur, limit, cut - 1);
        Parts(r.less, Node(t.pos, r.more, t.right))
  }

  // The matches reported on the way: each longer than maxLen and all before it.
  function Found(text: seq<Byte>, t: Tree, cur: nat, limit: nat, cut: nat, maxLen: nat): seq<Match>
    requires Fits(text, t, limit) && cur + limit <= |text|
  {
    if t.Leaf? || cut == 0 then []
    else
      var len := Lcp(text, t.pos, cur, limit);
      var here := if maxLen < len then [Match(len, t.pos)] else [];
      var best := if maxLen < len then len else maxLen;
      if len == limit then here
      else if text[t.pos + len] < text[cur + len] then here + Found(text, t.right, cur, limit, cut - 1, best)
      else here + Found(text, t.left, cur, limit, cut - 1, best)
  }

  // Whether the search ends by itself, before the cut limit.
  predicate Finishes(text: seq<Byte>, t: Tree, cur: nat, limit: nat, cut: nat)
    requires Fits(text, t, limit) && cur + limit <= |text|
  {
    t.Leaf? || (cut > 0 &&
      var len := Lcp(text, t.pos, cur, limit);
      if len == limit then true
      else if text[t.pos + len] < text[cur + len] then Finishes(text, t.right, cur, limit, cut - 1)
      else Finishes(text, t.left, cur, limit, cut - 1))
  }

  // The new tree, with the new string at the top.
  function Insert(text: seq<Byte>, t: Tree, cur: nat, limit: nat, cut: nat): Tree
    requires Fits(text, t, limit) && cur + limit <= |text|
  {
    var r := Part(text, t, cur, limit, cut);
    Node(cur, r.less, r.more)
  }

  lemma {:induction false} PartNodes(text: seq<Byte>, t: Tree, cur: nat, limit: nat, cut: nat)
    requires Fits(text, t, limit) && cur + limit <= |text| && Proper(t)
    ensures var r := Part(text, t, cur, limit, cut);
      && Nodes(r.less) + Nodes(r.more) <= Nodes(t) && Nodes(r.less) !! Nodes(r.more)
      && Proper(r.less) && Proper(r.more)
  {
    hide Lcp, Nodes, Proper;
    if t.Leaf? || cut == 0 {
      NoNodes();
    } else {
      NodesUnder(t, t.left, t.right);
      var len := Lcp(text, t.pos, cur, limit);
      if len == limit {
      } else if text[t.pos + len] < text[cur + len] {
        PartNodes(text, t.right, cur, limit, cut - 1);
        NodesUnder(t, t.left, Part(text, t.right, cur, limit, cut - 1).less);
      } else {
        PartNodes(text, t.left, cur, limit, cut - 1);
        NodesUnder(t, Part(text, t.left, cur, limit, cut - 1).more, t.right);
      }
    }
  }

  lemma NoNodes()
    ensures Nodes(Leaf) == {} && Proper(Leaf)
  {}

  // Smaller subtrees under the same position.
  lemma NodesUnder(t: Tree, l: Tree, r: Tree)
    requires t.Node? && Proper(t)
    ensures Proper(t.left) && Proper(t.right) && Nodes(t.left) !! Nodes(t.right)
    ensures t.pos !in Nodes(t.left) + Nodes(t.right) && Nodes(t) == Nodes(t.left) + Nodes(t.right) + {t.pos}
    ensures Nodes(Node(t.pos, l, r)) == Nodes(l) + Nodes(r) + {t.pos}
    ensures Proper(l) && Proper(r) && Nodes(l) <= Nodes(t.left) && Nodes(r) <= Nodes(t.right) ==>
              Proper(Node(t.pos, l, r))
  {}

  // Nothing else is lost: with no cut, only a node with an equal string goes.
  lemma {:induction false} PartKeeps(text: seq<Byte>, t: Tree, cur: nat, limit: nat, cut: nat, x: nat)
    requires Fits(text, t, limit) && cur + limit <= |text| && x in Nodes(t) && Finishes(text, t, cur, limit, cut)
    ensures var r := Part(text, t, cur, limit, cut);
      || x in Nodes(r.less) || x in Nodes(r.more)
      || (x + limit <= |text| && Lcp(text, x, cur, limit) == limit)
  {
    var len := Lcp(text, t.pos, cur, limit);
    if len < limit {
      if text[t.pos + len] < text[cur + len] {
        if x in Nodes(t.right) { PartKeeps(text, t.right, cur, limit, cut - 1, x); }
      } else {
        if x in Nodes(t.left) { PartKeeps(text, t.left, cur, limit, cut - 1, x); }
      }
    }
  }

  lemma {:induction false} PartFits(text: seq<Byte>, t: Tree, cur: nat, limit: nat, cut: nat)
    requires Fits(text, t, limit) && cur + limit <= |text|
    ensures Fits(text, Part(text, t, cur, limit, cut).less, limit)
    ensures Fits(text, Part(text, t, cur, limit, cut).more, limit)
  {
    if t.Node? && cut > 0 {
      PartFits(text, t.left, cur, limit, cut - 1);
      PartFits(text, t.right, cur, limit, cut - 1);
    }
  }

  // The search-tree order survives the insertion.
  lemma {:induction false} PartOrdered(text: seq<Byte>, t: Tree, cur: nat, limit: nat, cut: nat)
    requires Fits(text, t, limit) && cur + limit <= |text| && Proper(t) && Ordered(text, t, limit)
    ensures var r := Part(text, t, cur, limit, cut);
      && Fits(text, r.less, limit) && Fits(text, r.more, limit)
      && Ordered(text, r.less, limit) && Ordered(text, r.more, limit)
      && AllUpTo(text, r.less, cur, limit) && AllFrom(text, r.more, cur, limit)
  {
    hide Lcp, AllUpTo, AllFrom, NotAfter;
    PartFits(text, t, cur, limit, cut);
    NoneIn(text, cur, limit);
    if t.Node? && cut > 0 {
      var len := Lcp(text, t.pos, cur, limit);
      Compared(text, t.pos, cur, limit);
      if len == limit {
        Smaller(text, t.left, t.pos, cur, limit);
        Greater(text, t.right, t.pos, cur, limit);
      } else if text[t.pos + len] < text[cur + len] {
        PartOrdered(text, t.right, cur, limit, cut - 1);
        PartRight(text, t, cur, limit, cut);
      } else {
        PartOrdered(text, t.left, cur, limit, cut - 1);
        PartLeft(text, t, cur, limit, cut);
      }
    }
  }

  lemma PartRight(text: seq<Byte>, t: Tree, cur: nat, limit: nat, cut: nat)
    requires Fits(text, t, limit) && cur + limit <= |text| && Proper(t) && Ordered(text, t, limit) && t.Node? && cut > 0
    requires NotAfter(text, t.pos, cur, limit)
    requires var r := Part(text, t.right, cur, limit, cut - 1).less;
             Fits(text, r, limit) && Ordered(text, r, limit) && AllUpTo(text, r, cur, limit)
    ensures var u := Node(t.pos, t.left, Part(text, t.right, cur, limit, cut - 1).less);
      Fits(text, u, limit) && Ordered(text, u, limit) && AllUpTo(text, u, cur, limit)
  {
    hide Lcp, AllUpTo, AllFrom, NotAfter, Proper, Part;
    assert Proper(t.right) by { ProperBelow(t); }
    var r := Part(text, t.right, cur, limit, cut - 1);
    PartNodes(text, t.right, cur, limit, cut - 1);
    Smaller(text, t.left, t.pos, cur, limit);
    FewerFrom(text, t.right, r.less, t.pos, limit);
    Together(text, t.pos, t.left, r.less, cur, limit);
  }

  lemma PartLeft(text: seq<Byte>, t: Tree, cur: nat, limit: nat, cut: nat)
    requires Fits(text, t, limit) && cur + limit <= |text| && Proper(t) && Ordered(text, t, limit) && t.Node? && cut > 0
    requires NotAfter(text, cur, t.pos, limit)
    requires var r := Part(text, t.left, cur, limit, cut - 1).more;
             Fits(text, r, limit) && Ordered(text, r, limit) && AllFrom(text, r, cur, limit)
    ensures var u := Node(t.pos, Part(text, t.left, cur, limit, cut - 1).more, t.right);
      Fits(text, u, limit) && Ordered(text, u, limit) && AllFrom(text, u, cur, limit)
  {
    hide Lcp, AllUpTo, AllFrom, NotAfter, Proper, Part;
    assert Proper(t.left) by { ProperBelow(t); }
    var r := Part(text, t.left, cur, limit, cut - 1);
    PartNodes(text, t.left, cur, limit, cut - 1);
    Greater(text, t.right, t.pos, cur, limit);
    FewerUpTo(text, t.left, r.more, t.pos, limit);
    Together(text, t.pos, r.more, t.right, cur, limit);
  }

  lemma ProperBelow(t: Tree)
    requires t.Node? && Proper(t)
    ensures Proper(t.left) && Proper(t.right)
  {}

  lemma NoneIn(text: seq<Byte>, cur: nat, limit: nat)
    requires cur + limit <= |text|
    ensures AllUpTo(text, Leaf, cur, limit) && AllFrom(text, Leaf, cur, limit)
  {}

  lemma Compared(text: seq<Byte>, y: nat, cur: nat, limit: nat)
    requires y + limit <= |text| && cur + limit <= |text|
    ensures var len := Lcp(text, y, cur, limit);
      && (len == limit ==> NotAfter(text, y, cur, limit) && NotAfter(text, cur, y, limit))
      && (len < limit && text[y + len] < text[cur + len] ==>
            NotAfter(text, y, cur, limit) && Before(text, y, cur, limit))
      && (len < limit && text[y + len] >= text[cur + len] ==>
            NotAfter(text, cur, y, limit) && Before(text, cur, y, limit))
  {
    LcpSymmetric(text, y, cur, limit);
  }

  lemma FewerFrom(text: seq<Byte>, t: Tree, u: Tree, y: nat, limit: nat)
    requires y + limit <= |text| && AllFrom(text, t, y, limit) && Nodes(u) <= Nodes(t)
    ensures AllFrom(text, u, y, limit)
  {}

  lemma FewerUpTo(text: seq<Byte>, t: Tree, u: Tree, y: nat, limit: nat)
    requires y + limit <= |text| && AllUpTo(text, t, y, limit) && Nodes(u) <= Nodes(t)
    ensures AllUpTo(text, u, y, limit)
  {}

  lemma Together(text: seq<Byte>, y: nat, l: Tree, r: Tree, cur: nat, limit: nat)
    requires y + limit <= |text| && cur + limit <= |text|
    ensures AllUpTo(text, l, cur, limit) && AllUpTo(text, r, cur, limit) && NotAfter(text, y, cur, limit) ==>
      AllUpTo(text, Node(y, l, r), cur, limit)
    ensures AllFrom(text, l, cur, limit) && AllFrom(text, r, cur, limit) && NotAfter(text, cur, y, limit) ==>
      AllFrom(text, Node(y, l, r), cur, limit)
  {
    hide NotAfter;
    assert Nodes(Node(y, l, r)) == {y} + Nodes(l) + Nodes(r);
  }

  lemma Smaller(text: seq<Byte>, t: Tree, y: nat, cur: nat, limit: nat)
    requires y + limit <= |text| && cur + limit <= |text|
    requires AllUpTo(text, t, y, limit) && NotAfter(text, y, cur, limit)
    ensures AllUpTo(text, t, cur, limit)
  {
    hide NotAfter;
    forall x | x in Nodes(t)
      ensures x + limit <= |text| && NotAfter(text, x, cur, limit)
    {
      NotAfterTrans(text, x, y, cur, limit);
    }
  }

  lemma Greater(text: seq<Byte>, t: Tree, y: nat, cur: nat, limit: nat)
    requires y + limit <= |text| && cur + limit <= |text|
    requires AllFrom(text, t, y, limit) && NotAfter(text, cur, y, limit)
    ensures AllFrom(text, t, cur, limit)
  {
    hide NotAfter;
    forall x | x in Nodes(t)
      ensures x + limit <= |text| && NotAfter(text, cur, x, limit)
    {
      NotAfterTrans(text, cur, y, x, limit);
    }
  }

  // Main result: insertion keeps the tree proper and ordered.
  lemma InsertOrdered(text: seq<Byte>, t: Tree, cur: nat, limit: nat, cut: nat)
    requires Fits(text, t, limit) && cur + limit <= |text| && Proper(t) && Ordered(text, t, limit)
    requires forall x :: x in Nodes(t) ==> x < cur
    ensures var t' := Insert(text, t, cur, limit, cut);
      Fits(text, t', limit) && Proper(t') && Ordered(text, t', limit) && Nodes(t') <= Nodes(t) + {cur}
  {
    hide Part, AllUpTo, AllFrom, Lcp;
    PartFits(text, t, cur, limit, cut);
    PartNodes(text, t, cur, limit, cut);
    PartOrdered(text, t, cur, limit, cut);
    var r := Part(text, t, cur, limit, cut);
    assert forall x :: x in Nodes(r.less) + Nodes(r.more) ==> x in Nodes(t);
  }

  // ----- What is reported ------------------------------------------------------------------------

  // Where the search goes from a node whose string is not equal.
  function Onward(text: seq<Byte>, t: Tree, cur: nat, limit: nat): Tree
    requires t.Node? && Fits(text, t, limit) && cur + limit <= |text| && Lcp(text, t.pos, cur, limit) < limit
  {
    var len := Lcp(text, t.pos, cur, limit);
    if text[t.pos + len] < text[cur + len] then t.right else t.left
  }

  function Best(len: nat, maxLen: nat): nat { if maxLen < len then len else maxLen }

  function Here(len: nat, pos: nat, maxLen: nat): seq<Match> { if maxLen < len then [Match(len, pos)] else [] }

  lemma FoundStep(text: seq<Byte>, t: Tree, cur: nat, limit: nat, cut: nat, maxLen: nat)
    requires t.Node? && cut > 0 && Fits(text, t, limit) && cur + limit <= |text|
    ensures var len := Lcp(text, t.pos, cur, limit);
      if len == limit then Found(text, t, cur, limit, cut, maxLen) == Here(len, t.pos, maxLen)
      else
        var u := Onward(text, t, cur, limit);
        && Fits(text, u, limit)
        && Found(text, t, cur, limit, cut, maxLen) ==
           Here(len, t.pos, maxLen) + Found(text, u, cur, limit, cut - 1, Best(len, maxLen))
        && (Finishes(text, t, cur, limit, cut) ==> Finishes(text, u, cur, limit, cut - 1))
  {
    hide Lcp;
  }

  // Matches with nodes of the tree, as long as they can be, and longer and longer.
  ghost predicate Genuine(text: seq<Byte>, t: Tree, cur: nat, limit: nat, maxLen: nat, f: seq<Match>)
    requires cur + limit <= |text|
  {
    && (forall i :: 0 <= i < |f| ==>
          && f[i].pos in Nodes(t) && f[i].pos + limit <= |text|
          && f[i].len == Lcp(text, f[i].pos, cur, limit) > maxLen)
    && (forall i, j :: 0 <= i < j < |f| ==> f[i].len < f[j].len)
  }

  lemma GenuineMore(text: seq<Byte>, t: Tree, u: Tree, cur: nat, limit: nat, maxLen: nat, f: seq<Match>)
    requires t.Node? && Fits(text, t, limit) && cur + limit <= |text| && (u == t.left || u == t.right || f == [])
    requires var len := Lcp(text, t.pos, cur, limit); Genuine(text, u, cur, limit, Best(len, maxLen), f)
    ensures var len := Lcp(text, t.pos, cur, limit); Genuine(text, t, cur, limit, maxLen, Here(len, t.pos, maxLen) + f)
  {
    hide Lcp;
    var len := Lcp(text, t.pos, cur, limit);
    var here := Here(len, t.pos, maxLen);
    var g := here + f;
    forall i | 0 <= i < |g|
      ensures g[i].pos in Nodes(t) && g[i].pos + limit <= |text| && g[i].len == Lcp(text, g[i].pos, cur, limit) > maxLen
    {
      if i >= |here| { assert g[i] == f[i - |here|]; }
    }
    forall i, j | 0 <= i < j < |g|
      ensures g[i].len < g[j].len
    {
      assert g[j] == f[j - |here|];
      if i >= |here| { assert g[i] == f[i - |here|]; }
    }
  }

  // Main result: every reported match is genuine and as long as it can be, and the lengths grow.
  lemma {:induction false} FoundGenuine(text: seq<Byte>, t: Tree, cur: nat, limit: nat, cut: nat, maxLen: nat)
    requires Fits(text, t, limit) && cur + limit <= |text|
    ensures Genuine(text, t, cur, limit, maxLen, Found(text, t, cur, limit, cut, maxLen))
  {
    hide Genuine, Lcp;
    GenuineNone(text, t, cur, limit, maxLen);
    if t.Node? && cut > 0 {
      FoundStep(text, t, cur, limit, cut, maxLen);
      var len := Lcp(text, t.pos, cur, limit);
      if len < limit {
        var u := Onward(text, t, cur, limit);
        FoundGenuine(text, u, cur, limit, cut - 1, Best(len, maxLen));
        GenuineMore(text, t, u, cur, limit, maxLen, Found(text, u, cur, limit, cut - 1, Best(len, maxLen)));
      } else {
        GenuineNone(text, t, cur, limit, Best(len, maxLen));
        GenuineMore(text, t, t, cur, limit, maxLen, []);
        assert Here(len, t.pos, maxLen) + [] == Here(len, t.pos, maxLen);
      }
    }
  }

  lemma GenuineNone(text: seq<Byte>, t: Tree, cur: nat, limit: nat, maxLen: nat)
    requires cur + limit <= |text|
    ensures Genuine(text, t, cur, limit, maxLen, [])
  {}

  function Longest(f: seq<Match>, maxLen: nat): nat { if f == [] then maxLen else f[|f| - 1].len }

  // Main result: if the cut limit is not reached, no string in the tree has more in common with
  // the one at cur than the last match reported.
  lemma {:induction false} FoundLongest(text: seq<Byte>, t: Tree, cur: nat, limit: nat, cut: nat, maxLen: nat, x: nat)
    requires Fits(text, t, limit) && cur + limit <= |text| && Ordered(text, t, limit) && x in Nodes(t)
    requires Finishes(text, t, cur, limit, cut)
    ensures x + limit <= |text|
    ensures Lcp(text, x, cur, limit) <= Longest(Found(text, t, cur, limit, cut, maxLen), maxLen)
    decreases t
  {
    hide Lcp, NotAfter, Before, Found, Finishes;
    FitsAll(text, t, limit, x);
    var len := Lcp(text, t.pos, cur, limit);
    FinishesStarted(text, t, cur, limit, cut);
    FoundStep(text, t, cur, limit, cut, maxLen);
    Compared(text, t.pos, cur, limit);
    if len < limit {
      var u, best := Onward(text, t, cur, limit), Best(len, maxLen);
      LongestGrows(text, u, cur, limit, cut - 1, best);
      if x in Nodes(u) {
        FoundLongest(text, u, cur, limit, cut - 1, best, x);
      } else if x != t.pos {
        FarSide(text, x, t.pos, cur, limit);
      }
    }
  }

  lemma FinishesStarted(text: seq<Byte>, t: Tree, cur: nat, limit: nat, cut: nat)
    requires t.Node? && Fits(text, t, limit) && cur + limit <= |text| && Finishes(text, t, cur, limit, cut)
    ensures cut > 0
  {}

  lemma LongestGrows(text: seq<Byte>, t: Tree, cur: nat, limit: nat, cut: nat, maxLen: nat)
    requires Fits(text, t, limit) && cur + limit <= |text|
    ensures Longest(Found(text, t, cur, limit, cut, maxLen), maxLen) >= maxLen
  {
    hide Found, Lcp;
    FoundGenuine(text, t, cur, limit, cut, maxLen);
  }
}
