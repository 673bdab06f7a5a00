// The binary-tree match finder at work: the trees are links in a cyclic array, two cells for
// each position of the window, and a search relinks them on its way.

module MatchFinder {
  import opened Words
  import opened MatchTree

  // Where the cells of a position are: offset and size of the cyclic array.
  datatype Ring = Ring(offset: nat, size: nat)

  function Slot(g: Ring, p: nat): (s: nat)
    requires g.size >= 1
    ensures s < g.size
  {
    (p + g.offset) % g.size
  }

  function LeftCell(g: Ring, p: nat): (c: nat)
    requires g.size >= 1
    ensures c < 2 * g.size
  {
    2 * Slot(g, p)
  }

  function RightCell(g: Ring, p: nat): (c: nat)
    requires g.size >= 1
    ensures c < 2 * g.size
  {
    2 * Slot(g, p) + 1
  }

  // In the window at position now; a reference outside it stands for an empty tree.
  predicate InWindow(g: Ring, now: nat, p: nat) { p <= now < p + g.size }

  predicate Whole(son: seq<nat>, g: Ring) { g.size >= 1 && |son| == 2 * g.size }

  // The tree that a reference leads to.
  function TreeOf(son: seq<nat>, g: Ring, now: nat, ref: nat): Tree
    requires Whole(son, g)
  {
    if !InWindow(g, now, ref) then Leaf
    else
      var l, r := son[LeftCell(g, ref)], son[RightCell(g, ref)];
      Node(ref, if l < ref then TreeOf(son, g, now, l) else Leaf, if r < ref then TreeOf(son, g, now, r) else Leaf)
  }

  // Every link leads to an older position.
  predicate Linked(son: seq<nat>, g: Ring, now: nat, ref: nat)
    requires Whole(son, g)
  {
    InWindow(g, now, ref) ==>
      var l, r := son[LeftCell(g, ref)], son[RightCell(g, ref)];
      l < ref && r < ref && Linked(son, g, now, l) && Linked(son, g, now, r)
  }

  function Cells(g: Ring, t: Tree): set<nat>
    requires g.size >= 1
  {
    if t.Leaf? then {} else {LeftCell(g, t.pos), RightCell(g, t.pos)} + Cells(g, t.left) + Cells(g, t.right)
  }

  // No two nodes share a cell.
  predicate Tidy(g: Ring, t: Tree)
    requires g.size >= 1
  {
    t.Node? ==>
      && Tidy(g, t.left) && Tidy(g, t.right) && Cells(g, t.left) !! Cells(g, t.right)
      && {LeftCell(g, t.pos), RightCell(g, t.pos)} !! Cells(g, t.left) + Cells(g, t.right)
  }

  lemma SlotsDiffer(g: Ring, now: nat, p: nat, q: nat)
    requires g.size >= 1 && InWindow(g, now, p) && InWindow(g, now, q) && p != q
    ensures Slot(g, p) != Slot(g, q)
  {
    if p < q { ModDiffer(p + g.offset, q + g.offset, g.size); } else { ModDiffer(q + g.offset, p + g.offset, g.size); }
  }

  lemma {:induction false} CellsOutside(g: Ring, now: nat, t: Tree, p: nat)
    requires g.size >= 1 && InWindow(g, now, p) && p !in Nodes(t) && forall x :: x in Nodes(t) ==> InWindow(g, now, x)
    ensures LeftCell(g, p) !in Cells(g, t) && RightCell(g, p) !in Cells(g, t)
  {
    if t.Node? {
      SlotsDiffer(g, now, p, t.pos);
      CellsOutside(g, now, t.left, p);
      CellsOutside(g, now, t.right, p);
    }
  }

  lemma {:induction false} CellsApart(g: Ring, now: nat, t: Tree, u: Tree)
    requires g.size >= 1 && Nodes(t) !! Nodes(u)
    requires forall x :: x in Nodes(t) || x in Nodes(u) ==> InWindow(g, now, x)
    ensures Cells(g, t) !! Cells(g, u)
  {
    if t.Node? {
      CellsOutside(g, now, u, t.pos);
      CellsApart(g, now, t.left, u);
      CellsApart(g, now, t.right, u);
    }
  }

  lemma {:induction false} ProperTidy(g: Ring, now: nat, t: Tree)
    requires g.size >= 1 && Proper(t) && forall x :: x in Nodes(t) ==> InWindow(g, now, x)
    ensures Tidy(g, t)
  {
    if t.Node? {
      ProperTidy(g, now, t.left);
      ProperTidy(g, now, t.right);
      CellsApart(g, now, t.left, t.right);
      CellsOutside(g, now, t.left, t.pos);
      CellsOutside(g, now, t.right, t.pos);
    }
  }

  // Everything in a tree is in the window and no younger than its root.
  lemma {:induction false} TreeOfInWindow(son: seq<nat>, g: Ring, now: nat, ref: nat)
    requires Whole(son, g)
    ensures forall x :: x in Nodes(TreeOf(son, g, now, ref)) ==> InWindow(g, now, x) && x <= ref
    decreases ref
  {
    if InWindow(g, now, ref) {
      var l, r := son[LeftCell(g, ref)], son[RightCell(g, ref)];
      if l < ref { TreeOfInWindow(son, g, now, l); }
      if r < ref { TreeOfInWindow(son, g, now, r); }
    }
  }

  // A tree does not change as long as its own cells do not.
  lemma {:induction false} TreeFrame(son: seq<nat>, son': seq<nat>, g: Ring, now: nat, ref: nat)
    requires Whole(son, g) && Whole(son', g) && Linked(son, g, now, ref)
    requires forall c :: c in Cells(g, TreeOf(son, g, now, ref)) ==> 0 <= c < 2 * g.size && son'[c] == son[c]
    ensures Linked(son', g, now, ref) && TreeOf(son', g, now, ref) == TreeOf(son, g, now, ref)
    decreases ref
  {
    if InWindow(g, now, ref) {
      TreeFrame(son, son', g, now, son[LeftCell(g, ref)]);
      TreeFrame(son, son', g, now, son[RightCell(g, ref)]);
    }
  }

  lemma {:induction false} CellsInside(g: Ring, t: Tree)
    requires g.size >= 1
    ensures forall c :: c in Cells(g, t) ==> c < 2 * g.size
  {
    if t.Node? {
      CellsInside(g, t.left);
      CellsInside(g, t.right);
    }
  }

  // ----- Relinking -------------------------------------------------------------------------------

  // The cells after a search from ref on: more and less are where the next link to a greater and
  // to a smaller string goes.
  function Relink(son: seq<nat>, g: Ring, text: seq<Byte>, pos: nat, ref: nat, more: nat, less: nat,
                  limit: nat, cut: nat): (son': seq<nat>)
    requires Whole(son, g) && more < 2 * g.size && less < 2 * g.size && pos + limit <= |text| && ref < pos
    ensures |son'| == |son|
    decreases cut
  {
    if cut == 0 || !InWindow(g, pos, ref) then son[more := 0][less := 0]
    else
      var l, r := LeftCell(g, ref), RightCell(g, ref);
      var len := Lcp(text, ref, pos, limit);
      if len == limit then son[less := son[l]][more := son[less := son[l]][r]]
      else if text[ref + len] < text[pos + len] then
        var s := son[less := ref];
        if s[r] < pos then Relink(s, g, text, pos, s[r], more, r, limit, cut - 1) else s
      else
        var s := son[more := ref];
        if s[l] < pos then Relink(s, g, text, pos, s[l], l, less, limit, cut - 1) else s
  }

  ghost predicate SameOutside(son: seq<nat>, son': seq<nat>, cells: set<nat>) {
    |son| == |son'| && forall c: nat :: c < |son| && c !in cells ==> son'[c] == son[c]
  }

  // What a search needs: a tree of older positions, and two cells outside it.
  ghost predicate Ready(son: seq<nat>, g: Ring, pos: nat, ref: nat, more: nat, less: nat) {
    && Whole(son, g) && g.size <= pos && ref < pos && Linked(son, g, pos, ref)
    && more < 2 * g.size && less < 2 * g.size && more != less
    && Tidy(g, TreeOf(son, g, pos, ref))
    && more !in Cells(g, TreeOf(son, g, pos, ref)) && less !in Cells(g, TreeOf(son, g, pos, ref))
  }

  lemma {:induction false} OlderFits(son: seq<nat>, g: Ring, text: seq<Byte>, pos: nat, ref: nat, limit: nat)
    requires Whole(son, g) && ref < pos && pos + limit <= |text|
    ensures Fits(text, TreeOf(son, g, pos, ref), limit)
    decreases ref
  {
    if InWindow(g, pos, ref) {
      var l, r := son[LeftCell(g, ref)], son[RightCell(g, ref)];
      if l < ref { OlderFits(son, g, text, pos, l, limit); }
      if r < ref { OlderFits(son, g, text, pos, r, limit); }
    }
  }

  // The root of a search, its children and their trees.
  lemma Unfold(son: seq<nat>, g: Ring, pos: nat, ref: nat, more: nat, less: nat)
    requires Ready(son, g, pos, ref, more, less) && InWindow(g, pos, ref)
    ensures var l, r, t := LeftCell(g, ref), RightCell(g, ref), TreeOf(son, g, pos, ref);
      && t == Node(ref, TreeOf(son, g, pos, son[l]), TreeOf(son, g, pos, son[r]))
      && son[l] < ref && son[r] < ref && Linked(son, g, pos, son[l]) && Linked(son, g, pos, son[r])
      && Tidy(g, t.left) && Tidy(g, t.right) && Cells(g, t.left) !! Cells(g, t.right)
      && Cells(g, t) == {l, r} + Cells(g, t.left) + Cells(g, t.right)
      && l != r && l != less && l != more && r != less && r != more
      && {l, r, less, more} !! Cells(g, t.left) + Cells(g, t.right)
  {}

  // Writing a cell outside a tree.
  lemma WriteOutside(son: seq<nat>, g: Ring, pos: nat, ref: nat, cell: nat, v: nat)
    requires Whole(son, g) && Linked(son, g, pos, ref) && cell < 2 * g.size
    requires cell !in Cells(g, TreeOf(son, g, pos, ref))
    ensures var s := son[cell := v]; Linked(s, g, pos, ref) && TreeOf(s, g, pos, ref) == TreeOf(son, g, pos, ref)
  {
    CellsInside(g, TreeOf(son, g, pos, ref));
    TreeFrame(son, son[cell := v], g, pos, ref);
  }

  // The conclusion of RelinkParts, for the state s that is reached.
  ghost predicate Parted(son: seq<nat>, s: seq<nat>, g: Ring, pos: nat, ref: nat, more: nat, less: nat, t: Tree,
                         p: Parts)
    requires Whole(son, g) && more < 2 * g.size && less < 2 * g.size
  {
    && SameOutside(son, s, Cells(g, t) + {more, less})
    && TreeOf(s, g, pos, s[less]) == p.less && Linked(s, g, pos, s[less]) && s[less] <= ref
    && TreeOf(s, g, pos, s[more]) == p.more && Linked(s, g, pos, s[more]) && s[more] <= ref
  }

  lemma PartedNone(son: seq<nat>, g: Ring, pos: nat, ref: nat, more: nat, less: nat, t: Tree)
    requires Whole(son, g) && g.size <= pos && more < 2 * g.size && less < 2 * g.size
    ensures Parted(son, son[more := 0][less := 0], g, pos, ref, more, less, t, Parts(Leaf, Leaf))
  {}

  lemma PartedEqual(son: seq<nat>, g: Ring, pos: nat, ref: nat, more: nat, less: nat)
    requires Ready(son, g, pos, ref, more, less) && InWindow(g, pos, ref)
    ensures var l, r, t := LeftCell(g, ref), RightCell(g, ref), TreeOf(son, g, pos, ref);
      && son[less := son[l]][more := son[less := son[l]][r]] == son[less := son[l]][more := son[r]]
      && Parted(son, son[less := son[l]][more := son[r]], g, pos, ref, more, less, t, Parts(t.left, t.right))
  {
    hide TreeOf, Linked, Cells, Tidy, Ready;
    ReadyIs(son, g, pos, ref, more, less);
    Unfold(son, g, pos, ref, more, less);
    var l, r := LeftCell(g, ref), RightCell(g, ref);
    var s := son[less := son[l]];
    WriteOutside(son, g, pos, son[l], less, son[l]);
    WriteOutside(son, g, pos, son[r], less, son[l]);
    WriteOutside(s, g, pos, son[l], more, son[r]);
    WriteOutside(s, g, pos, son[r], more, son[r]);
  }

  // A step to the right: the node goes to the smaller part, and the search on below it is Ready.
  lemma StepLess(son: seq<nat>, g: Ring, pos: nat, ref: nat, more: nat, less: nat)
    requires Ready(son, g, pos, ref, more, less) && InWindow(g, pos, ref)
    ensures var s, r := son[less := ref], RightCell(g, ref);
      && s[r] == son[r] < ref && Ready(s, g, pos, s[r], more, r)
      && TreeOf(s, g, pos, s[r]) == TreeOf(son, g, pos, ref).right
  {
    hide TreeOf, Linked, Cells, Tidy;
    Unfold(son, g, pos, ref, more, less);
    WriteOutside(son, g, pos, son[RightCell(g, ref)], less, ref);
  }

  lemma StepMore(son: seq<nat>, g: Ring, pos: nat, ref: nat, more: nat, less: nat)
    requires Ready(son, g, pos, ref, more, less) && InWindow(g, pos, ref)
    ensures var s, l := son[more := ref], LeftCell(g, ref);
      && s[l] == son[l] < ref && Ready(s, g, pos, s[l], l, less)
      && TreeOf(s, g, pos, s[l]) == TreeOf(son, g, pos, ref).left
  {
    hide TreeOf, Linked, Cells, Tidy;
    Unfold(son, g, pos, ref, more, less);
    WriteOutside(son, g, pos, son[LeftCell(g, ref)], more, ref);
  }

  ghost predicate Spared(a: seq<nat>, b: seq<nat>, cells: set<nat>, others: set<nat>) {
    SameOutside(a, b, cells) && cells !! others && forall c :: c in others ==> c < |a| && b[c] == a[c]
  }

  // What the search below did, seen from the node.
  lemma BackLess(son: seq<nat>, s: seq<nat>, g: Ring, pos: nat, ref: nat, more: nat, less: nat, p: Parts)
    requires Ready(son, g, pos, ref, more, less) && InWindow(g, pos, ref)
    requires var t, r := TreeOf(son, g, pos, ref), RightCell(g, ref);
      Parted(son[less := ref], s, g, pos, son[r], more, r, t.right, p)
    ensures var t := TreeOf(son, g, pos, ref);
      Parted(son, s, g, pos, ref, more, less, t, Parts(Node(ref, t.left, p.less), p.more))
  {
    hide TreeOf, Linked, Cells, Tidy, Ready;
    ReadyIs(son, g, pos, ref, more, less);
    Unfold(son, g, pos, ref, more, less);
    var l, r, t := LeftCell(g, ref), RightCell(g, ref), TreeOf(son, g, pos, ref);
    assert Spared(son[less := ref], s, Cells(g, t.right) + {more, r}, {less, l} + Cells(g, t.left)) by {
      CellsInside(g, t.left);
    }
    TreeFrame(son, s, g, pos, son[l]);
    Fold(s, g, pos, ref);
  }

  lemma BackMore(son: seq<nat>, s: seq<nat>, g: Ring, pos: nat, ref: nat, more: nat, less: nat, p: Parts)
    requires Ready(son, g, pos, ref, more, less) && InWindow(g, pos, ref)
    requires var t, l := TreeOf(son, g, pos, ref), LeftCell(g, ref);
      Parted(son[more := ref], s, g, pos, son[l], l, less, t.left, p)
    ensures var t := TreeOf(son, g, pos, ref);
      Parted(son, s, g, pos, ref, more, less, t, Parts(p.less, Node(ref, p.more, t.right)))
  {
    hide TreeOf, Linked, Cells, Tidy, Ready;
    ReadyIs(son, g, pos, ref, more, less);
    Unfold(son, g, pos, ref, more, less);
    var l, r, t := LeftCell(g, ref), RightCell(g, ref), TreeOf(son, g, pos, ref);
    assert Spared(son[more := ref], s, Cells(g, t.left) + {l, less}, {more, r} + Cells(g, t.right)) by {
      CellsInside(g, t.right);
    }
    TreeFrame(son, s, g, pos, son[r]);
    Fold(s, g, pos, ref);
  }

  lemma Fold(s: seq<nat>, g: Ring, pos: nat, ref: nat)
    requires Whole(s, g) && InWindow(g, pos, ref) && s[LeftCell(g, ref)] < ref && s[RightCell(g, ref)] < ref
    requires Linked(s, g, pos, s[LeftCell(g, ref)]) && Linked(s, g, pos, s[RightCell(g, ref)])
    ensures Linked(s, g, pos, ref)
    ensures TreeOf(s, g, pos, ref) ==
      Node(ref, TreeOf(s, g, pos, s[LeftCell(g, ref)]), TreeOf(s, g, pos, s[RightCell(g, ref)]))
  {}

  // Main result about the links: they carry out the split of the tree, and touch no other cell.
  lemma {:induction false} RelinkParts(son: seq<nat>, g: Ring, text: seq<Byte>, pos: nat, ref: nat, more: nat,
                                       less: nat,
                                       limit: nat, cut: nat)
    requires Ready(son, g, pos, ref, more, less) && pos + limit <= |text|
    requires Fits(text, TreeOf(son, g, pos, ref), limit)
    ensures var t := TreeOf(son, g, pos, ref);
      Parted(son, Relink(son, g, text, pos, ref, more, less, limit, cut), g, pos, ref, more, less, t,
             Part(text, t, pos, limit, cut))
    decreases cut
  {
    hide TreeOf, Linked, Cells, Tidy, Ready, Parted, Lcp;
    ReadyIs(son, g, pos, ref, more, less);
    var t := TreeOf(son, g, pos, ref);
    if cut == 0 || !InWindow(g, pos, ref) {
      PartedNone(son, g, pos, ref, more, less, t);
    } else {
      Unfold(son, g, pos, ref, more, less);
      var l, r := LeftCell(g, ref), RightCell(g, ref);
      var len := Lcp(text, ref, pos, limit);
      if len == limit {
        PartedEqual(son, g, pos, ref, more, less);
      } else if text[ref + len] < text[pos + len] {
        var s := son[less := ref];
        StepLess(son, g, pos, ref, more, less);
        RelinkParts(s, g, text, pos, s[r], more, r, limit, cut - 1);
        BackLess(son, Relink(s, g, text, pos, s[r], more, r, limit, cut - 1), g, pos, ref, more, less,
                 Part(text, t.right, pos, limit, cut - 1));
      } else {
        var s := son[more := ref];
        StepMore(son, g, pos, ref, more, less);
        RelinkParts(s, g, text, pos, s[l], l, less, limit, cut - 1);
        BackMore(son, Relink(s, g, text, pos, s[l], l, less, limit, cut - 1), g, pos, ref, more, less,
                 Part(text, t.left, pos, limit, cut - 1));
      }
    }
  }

  lemma ReadyIs(son: seq<nat>, g: Ring, pos: nat, ref: nat, more: nat, less: nat)
    requires Ready(son, g, pos, ref, more, less)
    ensures Whole(son, g) && g.size <= pos && ref < pos && more < 2 * g.size && less < 2 * g.size && more != less
    ensures !InWindow(g, pos, ref) ==> TreeOf(son, g, pos, ref) == Leaf
  {}

  // After a search from the cells of position pos, its tree is the old one with pos inserted.
  lemma Inserted(son: seq<nat>, g: Ring, text: seq<Byte>, pos: nat, ref: nat, limit: nat, cut: nat)
    requires Whole(son, g) && Ready(son, g, pos, ref, RightCell(g, pos), LeftCell(g, pos)) && pos + limit <= |text|
    ensures var t := TreeOf(son, g, pos, ref);
      var s := Relink(son, g, text, pos, ref, RightCell(g, pos), LeftCell(g, pos), limit, cut);
      && Fits(text, t, limit)
      && TreeOf(s, g, pos, pos) == Insert(text, t, pos, limit, cut) && Linked(s, g, pos, pos)
      && SameOutside(son, s, Cells(g, t) + {RightCell(g, pos), LeftCell(g, pos)})
  {
    hide Relink, Part;
    OlderFits(son, g, text, pos, ref, limit);
    RelinkParts(son, g, text, pos, ref, RightCell(g, pos), LeftCell(g, pos), limit, cut);
    var s := Relink(son, g, text, pos, ref, RightCell(g, pos), LeftCell(g, pos), limit, cut);
    Fold(s, g, pos, pos);
  }

  // ----- The loops ---------------------------------------------------------------------------------

  // The cells of an older position, as the loops compute them.
  lemma PairIs(g: Ring, pos: nat, delta: nat)
    requires g.size >= 1 && 1 <= delta < g.size && delta <= pos
    ensures Slot(g, pos - delta) == if delta > Slot(g, pos) then Slot(g, pos) - delta + g.size else Slot(g, pos) - delta
  {
    var q, c := (pos + g.offset) / g.size, Slot(g, pos);
    if delta > c {
      assert pos - delta + g.offset == g.size * (q - 1) + (c - delta + g.size);
      ModUnique(pos - delta + g.offset, g.size, q - 1, c - delta + g.size);
    } else {
      ModUnique(pos - delta + g.offset, g.size, q, c - delta);
    }
  }

  // The pairs of numbers that stand for matches: length and distance less one.
  function Flat(f: seq<Match>, pos: nat): seq<int> {
    if f == [] then [] else [f[0].len, pos - 1 - f[0].pos] + Flat(f[1..], pos)
  }

  lemma FlatOne(m: Match, f: seq<Match>, pos: nat)
    ensures Flat([m] + f, pos) == [m.len, pos - 1 - m.pos] + Flat(f, pos)
  {
    assert ([m] + f)[1..] == f;
  }

  // What is known of a tree from the last smaller and the last greater node on the way to it.
  ghost predicate Bounded(text: seq<Byte>, t: Tree, pos: nat, limit: nat, len0: nat, hi: nat, len1: nat, lo: nat)
    requires pos + limit <= |text|
  {
    && len0 < limit && len1 < limit
    && (len0 > 0 ==> hi + limit <= |text| && Lcp(text, hi, pos, limit) == len0 && AllUpTo(text, t, hi, limit))
    && (len1 > 0 ==> lo + limit <= |text| && Lcp(text, lo, pos, limit) == len1 && AllFrom(text, t, lo, limit))
  }

  // Comparing may start behind the shorter of the two common beginnings.
  lemma KnownEqual(text: seq<Byte>, t: Tree, pos: nat, limit: nat, len0: nat, hi: nat, len1: nat, lo: nat)
    requires t.Node? && Fits(text, t, limit) && pos + limit <= |text|
    requires Bounded(text, t, pos, limit, len0, hi, len1, lo)
    ensures Lcp(text, t.pos, pos, limit) >= if len0 < len1 then len0 else len1
  {
    if len0 > 0 && len1 > 0 {
      Between(text, lo, t.pos, hi, pos, limit);
    }
  }

  lemma BoundedDown(text: seq<Byte>, t: Tree, pos: nat, limit: nat, len0: nat, hi: nat, len1: nat, lo: nat)
    requires t.Node? && Fits(text, t, limit) && pos + limit <= |text| && Ordered(text, t, limit)
    requires Bounded(text, t, pos, limit, len0, hi, len1, lo) && Lcp(text, t.pos, pos, limit) < limit
    ensures var len := Lcp(text, t.pos, pos, limit);
      && Bounded(text, t.right, pos, limit, len0, hi, len, t.pos)
      && Bounded(text, t.left, pos, limit, len, t.pos, len1, lo)
  {
    hide Lcp, NotAfter;
  }

  // The length of the common beginning, when it is known to reach beyond known.
  method Extend(text: seq<Byte>, ref: nat, pos: nat, limit: nat, known: nat) returns (len: nat)
    requires ref + limit <= |text| && pos + limit <= |text| && known < limit && known <= Lcp(text, ref, pos, limit)
    requires text[ref + known] == text[pos + known]
    ensures len == Lcp(text, ref, pos, limit) > known
  {
    ghost var want := Lcp(text, ref, pos, limit);
    len := known + 1;
    while len != limit && text[ref + len] == text[pos + len]
      invariant known < len <= want
      decreases limit - len
    {
      len := len + 1;
    }
    assert len < want ==> Same(text, ref, pos, len);
  }

  lemma LcpHere(text: seq<Byte>, ref: nat, pos: nat, limit: nat, len: nat)
    requires ref + limit <= |text| && pos + limit <= |text| && len <= Lcp(text, ref, pos, limit)
    requires len < limit && text[ref + len] != text[pos + len]
    ensures len == Lcp(text, ref, pos, limit)
  {
    assert len < Lcp(text, ref, pos, limit) ==> Same(text, ref, pos, len);
  }

  lemma HereFlat(len: nat, p: nat, best: nat, pos: nat)
    ensures Flat(Here(len, p, best), pos) == if best < len then [len, pos - 1 - p] else []
  {
    FlatOne(Match(len, p), [], pos);
    assert [Match(len, p)] + [] == [Match(len, p)];
  }

  // How far the string at ref equals the current one, and what is reported of it.
  method Compare(text: seq<Byte>, ref: nat, pos: nat, limit: nat, known: nat, best: nat) returns (len: nat,
                 found: seq<int>)
    requires ref + limit <= |text| && pos + limit <= |text| && known <= Lcp(text, ref, pos, limit)
    requires known < limit && known <= best
    ensures len == Lcp(text, ref, pos, limit) && found == Flat(Here(len, ref, best), pos)
    ensures len < limit ==> text[ref + len] != text[pos + len]
  {
    hide Lcp, Flat;
    len := known;
    found := [];
    if text[ref + len] == text[pos + len] {
      len := Extend(text, ref, pos, limit, len);
      if best < len {
        found := [len, pos - ref - 1];
      }
    } else {
      LcpHere(text, ref, pos, limit, len);
    }
    LcpEnds(text, ref, pos, limit);
    HereFlat(len, ref, best, pos);
  }

  lemma LcpEnds(text: seq<Byte>, ref: nat, pos: nat, limit: nat)
    requires ref + limit <= |text| && pos + limit <= |text|
    ensures var len := Lcp(text, ref, pos, limit); len <= limit && (len < limit ==> text[ref + len] != text[pos + len])
  {}

  // The state of a search: what is left to do carries on to the same cells and the same matches.
  ghost predicate Searching(son: seq<nat>, g: Ring, text: seq<Byte>, pos: nat, ref: nat, more: nat, less: nat,
                            limit: nat, cut: nat, best: nat, whole: seq<nat>, rest: seq<int>)
    requires pos + limit <= |text|
  {
    && Ready(son, g, pos, ref, more, less) && Fits(text, TreeOf(son, g, pos, ref), limit)
    && Ordered(text, TreeOf(son, g, pos, ref), limit)
    && Relink(son, g, text, pos, ref, more, less, limit, cut) == whole
    && Flat(Found(text, TreeOf(son, g, pos, ref), pos, limit, cut, best), pos) == rest
  }

  lemma SearchStarts(son: seq<nat>, g: Ring, text: seq<Byte>, pos: nat, ref: nat, more: nat, less: nat,
                     limit: nat, cut: nat, best: nat)
    requires Ready(son, g, pos, ref, more, less) && 1 <= limit && pos + limit <= |text|
    requires Fits(text, TreeOf(son, g, pos, ref), limit) && Ordered(text, TreeOf(son, g, pos, ref), limit)
    ensures Searching(son, g, text, pos, ref, more, less, limit, cut, best,
                      Relink(son, g, text, pos, ref, more, less, limit, cut),
                      Flat(Found(text, TreeOf(son, g, pos, ref), pos, limit, cut, best), pos))
    ensures Bounded(text, TreeOf(son, g, pos, ref), pos, limit, 0, 0, 0, 0)
  {}

  lemma SearchReady(son: seq<nat>, g: Ring, text: seq<Byte>, pos: nat, ref: nat, more: nat, less: nat,
                    limit: nat, cut: nat, best: nat, whole: seq<nat>, rest: seq<int>)
    requires pos + limit <= |text| && Searching(son, g, text, pos, ref, more, less, limit, cut, best, whole, rest)
    ensures Ready(son, g, pos, ref, more, less) && Fits(text, TreeOf(son, g, pos, ref), limit)
    ensures Ordered(text, TreeOf(son, g, pos, ref), limit)
  {
    hide Ready, Relink;
  }

  lemma SearchEnds(son: seq<nat>, g: Ring, text: seq<Byte>, pos: nat, ref: nat, more: nat, less: nat,
                   limit: nat, cut: nat, best: nat, whole: seq<nat>, rest: seq<int>)
    requires pos + limit <= |text| && Searching(son, g, text, pos, ref, more, less, limit, cut, best, whole, rest)
    requires cut == 0 || !InWindow(g, pos, ref)
    ensures whole == son[more := 0][less := 0] && rest == []
  {}

  lemma SearchEqual(son: seq<nat>, g: Ring, text: seq<Byte>, pos: nat, ref: nat, more: nat, less: nat,
                    limit: nat, cut: nat, best: nat, whole: seq<nat>, rest: seq<int>)
    requires pos + limit <= |text| && Searching(son, g, text, pos, ref, more, less, limit, cut, best, whole, rest)
    requires cut > 0 && InWindow(g, pos, ref) && ref + limit <= |text| && Lcp(text, ref, pos, limit) == limit
    ensures whole == son[less := son[LeftCell(g, ref)]][more := son[RightCell(g, ref)]]
    ensures rest == Flat(Here(limit, ref, best), pos)
  {
    hide Part, Lcp, TreeOf, Linked, Tidy, Cells, Ordered, Ready;
    ReadyIs(son, g, pos, ref, more, less);
    Unfold(son, g, pos, ref, more, less);
    PartedEqual(son, g, pos, ref, more, less);
  }

  lemma SearchLess(son: seq<nat>, g: Ring, text: seq<Byte>, pos: nat, ref: nat, more: nat, less: nat,
                   limit: nat, cut: nat, best: nat, whole: seq<nat>, rest: seq<int>) returns (rest': seq<int>)
    requires pos + limit <= |text| && Searching(son, g, text, pos, ref, more, less, limit, cut, best, whole, rest)
    requires cut > 0 && InWindow(g, pos, ref) && ref + limit <= |text|
    requires var len := Lcp(text, ref, pos, limit); len < limit && text[ref + len] < text[pos + len]
    ensures var s, r, len := son[less := ref], RightCell(g, ref), Lcp(text, ref, pos, limit);
      && Searching(s, g, text, pos, s[r], more, r, limit, cut - 1, Best(len, best), whole, rest')
      && TreeOf(s, g, pos, s[r]) == TreeOf(son, g, pos, ref).right
      && rest == Flat(Here(len, ref, best), pos) + rest'
  {
    hide Part, Lcp, TreeOf, Linked, Tidy, Cells, Ready, Found, Flat;
    ReadyIs(son, g, pos, ref, more, less);
    Unfold(son, g, pos, ref, more, less);
    StepLess(son, g, pos, ref, more, less);
    var t, len := TreeOf(son, g, pos, ref), Lcp(text, ref, pos, limit);
    FoundStep(text, t, pos, limit, cut, best);
    rest' := Flat(Found(text, t.right, pos, limit, cut - 1, Best(len, best)), pos);
    FlatHere(len, ref, best, Found(text, t.right, pos, limit, cut - 1, Best(len, best)), pos);
  }

  lemma SearchMore(son: seq<nat>, g: Ring, text: seq<Byte>, pos: nat, ref: nat, more: nat, less: nat,
                   limit: nat, cut: nat, best: nat, whole: seq<nat>, rest: seq<int>) returns (rest': seq<int>)
    requires pos + limit <= |text| && Searching(son, g, text, pos, ref, more, less, limit, cut, best, whole, rest)
    requires cut > 0 && InWindow(g, pos, ref) && ref + limit <= |text|
    requires var len := Lcp(text, ref, pos, limit); len < limit && text[ref + len] >= text[pos + len]
    ensures var s, l, len := son[more := ref], LeftCell(g, ref), Lcp(text, ref, pos, limit);
      && Searching(s, g, text, pos, s[l], l, less, limit, cut - 1, Best(len, best), whole, rest')
      && TreeOf(s, g, pos, s[l]) == TreeOf(son, g, pos, ref).left
      && rest == Flat(Here(len, ref, best), pos) + rest'
  {
    hide Part, Lcp, TreeOf, Linked, Tidy, Cells, Ready, Found, Flat;
    ReadyIs(son, g, pos, ref, more, less);
    Unfold(son, g, pos, ref, more, less);
    StepMore(son, g, pos, ref, more, less);
    var t, len := TreeOf(son, g, pos, ref), Lcp(text, ref, pos, limit);
    FoundStep(text, t, pos, limit, cut, best);
    rest' := Flat(Found(text, t.left, pos, limit, cut - 1, Best(len, best)), pos);
    FlatHere(len, ref, best, Found(text, t.left, pos, limit, cut - 1, Best(len, best)), pos);
  }

  lemma FlatHere(len: nat, p: nat, best: nat, f: seq<Match>, pos: nat)
    ensures Flat(Here(len, p, best) + f, pos) == Flat(Here(len, p, best), pos) + Flat(f, pos)
  {
    if best < len {
      FlatOne(Match(len, p), f, pos);
      FlatOne(Match(len, p), [], pos);
      assert [Match(len, p)] + [] == [Match(len, p)];
    } else {
      assert Here(len, p, best) + f == f;
    }
  }

  method SetLink(son: array<nat>, cell: nat, ref: nat)
    requires cell < son.Length
    modifies son
    ensures son[..] == old(son[..])[cell := ref]
  {
    son[cell] := ref;
  }

  // The search runs out of tree: both open links end.
  method EndLinks(son: array<nat>, ghost g: Ring, ghost text: seq<Byte>, ghost pos: nat, ghost ref: nat, more: nat,
                  less: nat,
                  ghost limit: nat, ghost cut: nat, ghost best: nat, ghost whole: seq<nat>, ghost rest: seq<int>)
    requires pos + limit <= |text| && Searching(son[..], g, text, pos, ref, more, less, limit, cut, best, whole, rest)
    requires more < son.Length && less < son.Length && (cut == 0 || !InWindow(g, pos, ref))
    modifies son
    ensures son[..] == whole && rest == []
  {
    hide Searching;
    SearchEnds(son[..], g, text, pos, ref, more, less, limit, cut, best, whole, rest);
    SetLink(son, more, 0);
    SetLink(son, less, 0);
  }

  // An equal string: the new node takes over the two trees of the old one.
  method TakeOver(son: array<nat>, ghost g: Ring, ghost text: seq<Byte>, ghost pos: nat, ghost ref: nat, more: nat,
                  less: nat, pair: nat,
                  ghost limit: nat, ghost cut: nat, ghost best: nat, ghost whole: seq<nat>, ghost rest: seq<int>)
    requires pos + limit <= |text| && Searching(son[..], g, text, pos, ref, more, less, limit, cut, best, whole, rest)
    requires cut > 0 && InWindow(g, pos, ref) && ref + limit <= |text| && Lcp(text, ref, pos, limit) == limit
    requires more < son.Length && less < son.Length && g.size >= 1 && pair == LeftCell(g, ref) && pair + 1 < son.Length
    requires more != less && {more, less} !! {pair, pair + 1}
    modifies son
    ensures son[..] == whole && rest == Flat(Here(limit, ref, best), pos)
  {
    hide Searching, Flat, Lcp;
    SearchEqual(son[..], g, text, pos, ref, more, less, limit, cut, best, whole, rest);
    SetLink(son, less, son[pair]);
    SetLink(son, more, son[pair + 1]);
  }

  // The old node belongs with the smaller strings, or with the greater ones; the search goes on below it.
  method GoLess(son: array<nat>, ghost g: Ring, ghost text: seq<Byte>, ghost pos: nat, ref: nat, ghost more: nat,
                less: nat,
                right: nat, ghost limit: nat, ghost cut: nat, ghost best: nat, ghost whole: seq<nat>,
                ghost rest: seq<int>)
      returns (ref': nat, ghost rest': seq<int>)
    requires pos + limit <= |text| && Searching(son[..], g, text, pos, ref, more, less, limit, cut, best, whole, rest)
    requires cut > 0 && InWindow(g, pos, ref) && ref + limit <= |text| && Whole(son[..], g)
    requires var len := Lcp(text, ref, pos, limit); len < limit && text[ref + len] < text[pos + len]
    requires less < son.Length && g.size >= 1 && right == RightCell(g, ref)
    modifies son
    ensures var len := Lcp(text, ref, pos, limit);
      && Searching(son[..], g, text, pos, ref', more, right, limit, cut - 1, Best(len, best), whole, rest')
      && TreeOf(son[..], g, pos, ref') == old(TreeOf(son[..], g, pos, ref)).right
      && rest == Flat(Here(len, ref, best), pos) + rest'
  {
    hide Searching, Flat, Lcp, TreeOf;
    rest' := SearchLess(son[..], g, text, pos, ref, more, less, limit, cut, best, whole, rest);
    SetLink(son, less, ref);
    ref' := son[right];
  }

  method GoMore(son: array<nat>, ghost g: Ring, ghost text: seq<Byte>, ghost pos: nat, ref: nat, more: nat,
                ghost less: nat,
                left: nat, ghost limit: nat, ghost cut: nat, ghost best: nat, ghost whole: seq<nat>,
                ghost rest: seq<int>)
      returns (ref': nat, ghost rest': seq<int>)
    requires pos + limit <= |text| && Searching(son[..], g, text, pos, ref, more, less, limit, cut, best, whole, rest)
    requires cut > 0 && InWindow(g, pos, ref) && ref + limit <= |text| && Whole(son[..], g)
    requires var len := Lcp(text, ref, pos, limit); len < limit && text[ref + len] >= text[pos + len]
    requires more < son.Length && g.size >= 1 && left == LeftCell(g, ref)
    modifies son
    ensures var len := Lcp(text, ref, pos, limit);
      && Searching(son[..], g, text, pos, ref', left, less, limit, cut - 1, Best(len, best), whole, rest')
      && TreeOf(son[..], g, pos, ref') == old(TreeOf(son[..], g, pos, ref)).left
      && rest == Flat(Here(len, ref, best), pos) + rest'
  {
    hide Searching, Flat, Lcp, TreeOf;
    rest' := SearchMore(son[..], g, text, pos, ref, more, less, limit, cut, best, whole, rest);
    SetLink(son, more, ref);
    ref' := son[left];
  }

  // What the loop needs to know of the node it looks at.
  lemma SearchNode(son: seq<nat>, g: Ring, text: seq<Byte>, pos: nat, ref: nat, more: nat, less: nat,
                   limit: nat, cut: nat, best: nat, whole: seq<nat>, rest: seq<int>)
    requires pos + limit <= |text| && Searching(son, g, text, pos, ref, more, less, limit, cut, best, whole, rest)
    ensures Whole(son, g) && ref < pos && ref + limit <= |text| && more < |son| && less < |son|
    ensures var t := TreeOf(son, g, pos, ref);
      && Fits(text, t, limit) && Ordered(text, t, limit) && (InWindow(g, pos, ref) ==> t.Node? && t.pos == ref)
    ensures InWindow(g, pos, ref) ==> more != less && {more, less} !! {LeftCell(g, ref), RightCell(g, ref)}
    ensures InWindow(g, pos, ref) ==> var c, delta := Slot(g, pos), pos - ref;
      Slot(g, ref) == if delta > c then c - delta + g.size else c - delta
  {
    hide Relink, TreeOf, Linked, Tidy, Cells, Ready, Ordered;
    SearchReady(son, g, text, pos, ref, more, less, limit, cut, best, whole, rest);
    ReadyIs(son, g, pos, ref, more, less);
    if InWindow(g, pos, ref) {
      Unfold(son, g, pos, ref, more, less);
      PairIs(g, pos, pos - ref);
    }
  }

  // A search that reports matches: length and distance less one of each.
  method GetMatches(limit: nat, curMatch: nat, pos: nat, text: seq<Byte>, son: array<nat>, cyclicPos: nat, size: nat,
                    cutValue: nat, maxLen: nat, ghost g: Ring) returns (distances: seq<int>)
    requires g.size == size && size >= 1 && son.Length == 2 * size && cyclicPos == Slot(g, pos)
    requires Ready(son[..], g, pos, curMatch, RightCell(g, pos), LeftCell(g, pos))
    requires maxLen < limit && pos + limit <= |text| && Fits(text, TreeOf(son[..], g, pos, curMatch), limit)
    requires Ordered(text, TreeOf(son[..], g, pos, curMatch), limit)
    modifies son
    ensures son[..] ==
            Relink(old(son[..]), g, text, pos, curMatch, RightCell(g, pos), LeftCell(g, pos), limit, cutValue)
    ensures distances == Flat(Found(text, old(TreeOf(son[..], g, pos, curMatch)), pos, limit, cutValue, maxLen), pos)
  {
    hide Relink, Found, Lcp, TreeOf, Linked, Tidy, Cells, Ordered, Ready, Flat, Searching, Bounded, Fits;
    ReadyIs(son[..], g, pos, curMatch, RightCell(g, pos), LeftCell(g, pos));
    var ptr0: nat, ptr1: nat := 2 * cyclicPos + 1, 2 * cyclicPos;
    var len0: nat, len1: nat, ref: nat, cut: nat, best: nat := 0, 0, curMatch, cutValue, maxLen;
    ghost var hi: nat, lo: nat := 0, 0;
    ghost var whole := Relink(son[..], g, text, pos, curMatch, ptr0, ptr1, limit, cutValue);
    ghost var rest := Flat(Found(text, TreeOf(son[..], g, pos, curMatch), pos, limit, cutValue, maxLen), pos);
    ghost var want := rest;
    SearchStarts(son[..], g, text, pos, curMatch, ptr0, ptr1, limit, cutValue, maxLen);
    distances := [];
    while true
      invariant Searching(son[..], g, text, pos, ref, ptr0, ptr1, limit, cut, best, whole, rest)
      invariant Bounded(text, TreeOf(son[..], g, pos, ref), pos, limit, len0, hi, len1, lo)
      invariant distances + rest == want && len0 <= best < limit && len1 <= best && Whole(son[..], g)
      decreases cut
    {
      SearchNode(son[..], g, text, pos, ref, ptr0, ptr1, limit, cut, best, whole, rest);
      var delta := pos - ref;
      if cut == 0 || delta >= size {
        EndLinks(son, g, text, pos, ref, ptr0, ptr1, limit, cut, best, whole, rest);
        return;
      }
      ghost var t := TreeOf(son[..], g, pos, ref);
      KnownEqual(text, t, pos, limit, len0, hi, len1, lo);
      var pair: nat := 2 * (if delta > cyclicPos then cyclicPos - delta + size else cyclicPos - delta);
      var len, found := Compare(text, ref, pos, limit, if len0 < len1 then len0 else len1, best);
      ghost var todo := rest;
      if len == limit {
        TakeOver(son, g, text, pos, ref, ptr0, ptr1, pair, limit, cut, best, whole, rest);
        distances := distances + found;
        return;
      }
      BoundedDown(text, t, pos, limit, len0, hi, len1, lo);
      if text[ref + len] < text[pos + len] {
        lo, len1 := ref, len;
        ref, rest := GoLess(son, g, text, pos, ref, ptr0, ptr1, pair + 1, limit, cut, best, whole, rest);
        ptr1 := pair + 1;
      } else {
        hi, len0 := ref, len;
        ref, rest := GoMore(son, g, text, pos, ref, ptr0, ptr1, pair, limit, cut, best, whole, rest);
        ptr0 := pair;
      }
      assert todo == found + rest;
      distances := distances + found;
      best := if best < len then len else best;
      cut := cut - 1;
    }
  }

  // The same search without reporting: it makes exactly the same change.
  method SkipMatches(limit: nat, curMatch: nat, pos: nat, text: seq<Byte>, son: array<nat>, cyclicPos: nat, size: nat,
                     cutValue: nat, ghost g: Ring)
    requires g.size == size && size >= 1 && son.Length == 2 * size && cyclicPos == Slot(g, pos)
    requires Ready(son[..], g, pos, curMatch, RightCell(g, pos), LeftCell(g, pos))
    requires 1 <= limit && pos + limit <= |text| && Fits(text, TreeOf(son[..], g, pos, curMatch), limit)
    requires Ordered(text, TreeOf(son[..], g, pos, curMatch), limit)
    modifies son
    ensures son[..] ==
            Relink(old(son[..]), g, text, pos, curMatch, RightCell(g, pos), LeftCell(g, pos), limit, cutValue)
  {
    hide Relink, Found, Lcp, TreeOf, Linked, Tidy, Cells, Ordered, Ready, Flat, Searching, Bounded, Fits;
    ReadyIs(son[..], g, pos, curMatch, RightCell(g, pos), LeftCell(g, pos));
    var ptr0: nat, ptr1: nat := 2 * cyclicPos + 1, 2 * cyclicPos;
    var len0: nat, len1: nat, ref: nat, cut: nat := 0, 0, curMatch, cutValue;
    ghost var hi: nat, lo: nat, best: nat := 0, 0, 0;
    ghost var whole := Relink(son[..], g, text, pos, curMatch, ptr0, ptr1, limit, cutValue);
    ghost var rest := Flat(Found(text, TreeOf(son[..], g, pos, curMatch), pos, limit, cutValue, best), pos);
    SearchStarts(son[..], g, text, pos, curMatch, ptr0, ptr1, limit, cutValue, best);
    while true
      invariant Searching(son[..], g, text, pos, ref, ptr0, ptr1, limit, cut, best, whole, rest)
      invariant Bounded(text, TreeOf(son[..], g, pos, ref), pos, limit, len0, hi, len1, lo)
      invariant len0 < limit && len1 < limit && Whole(son[..], g)
      decreases cut
    {
      SearchNode(son[..], g, text, pos, ref, ptr0, ptr1, limit, cut, best, whole, rest);
      var delta := pos - ref;
      if cut == 0 || delta >= size {
        EndLinks(son, g, text, pos, ref, ptr0, ptr1, limit, cut, best, whole, rest);
        return;
      }
      ghost var t := TreeOf(son[..], g, pos, ref);
      KnownEqual(text, t, pos, limit, len0, hi, len1, lo);
      var pair: nat := 2 * (if delta > cyclicPos then cyclicPos - delta + size else cyclicPos - delta);
      var len: nat := if len0 < len1 then len0 else len1;
      if text[ref + len] == text[pos + len] {
        len := Extend(text, ref, pos, limit, len);
        if len == limit {
          TakeOver(son, g, text, pos, ref, ptr0, ptr1, pair, limit, cut, best, whole, rest);
          return;
        }
      }
      LcpHere(text, ref, pos, limit, len);
      BoundedDown(text, t, pos, limit, len0, hi, len1, lo);
      if text[ref + len] < text[pos + len] {
        lo, len1 := ref, len;
        ref, rest := GoLess(son, g, text, pos, ref, ptr0, ptr1, pair + 1, limit, cut, best, whole, rest);
        ptr1 := pair + 1;
      } else {
        hi, len0 := ref, len;
        ref, rest := GoMore(son, g, text, pos, ref, ptr0, ptr1, pair, limit, cut, best, whole, rest);
        ptr0 := pair;
      }
      best := Best(len, best);
      cut := cut - 1;
    }
  }
}
