// The match finder over a whole stream: many trees in one cyclic array, a window that moves on,
// and positions that are renumbered before they grow too large.

module MatchRun {
  import opened Words
  import opened MatchTree
  import opened MatchFinder

  // ----- The window moves on --------------------------------------------------------------------

  // What is left of a tree when positions before bound leave the window.
  function Prune(t: Tree, bound: nat): Tree {
    if t.Leaf? || t.pos < bound then Leaf else Node(t.pos, Prune(t.left, bound), Prune(t.right, bound))
  }

  lemma {:induction false} PruneNodes(t: Tree, bound: nat)
    ensures Nodes(Prune(t, bound)) <= Nodes(t)
    ensures Proper(t) ==>
              Proper(Prune(t, bound)) && forall x :: x in Nodes(t) && x >= bound ==> x in Nodes(Prune(t, bound))
  {
    if t.Node? {
      PruneNodes(t.left, bound);
      PruneNodes(t.right, bound);
    }
  }

  lemma {:induction false} PruneOrdered(text: seq<Byte>, t: Tree, limit: nat, bound: nat)
    requires Fits(text, t, limit) && Ordered(text, t, limit)
    ensures Fits(text, Prune(t, bound), limit) && Ordered(text, Prune(t, bound), limit)
  {
    if t.Node? {
      PruneOrdered(text, t.left, limit, bound);
      PruneOrdered(text, t.right, limit, bound);
      PruneNodes(t.left, bound);
      PruneNodes(t.right, bound);
      FewerUpTo(text, t.left, Prune(t.left, bound), t.pos, limit);
      FewerFrom(text, t.right, Prune(t.right, bound), t.pos, limit);
    }
  }

  lemma {:induction false} WindowMoves(son: seq<nat>, g: Ring, now: nat, ref: nat)
    requires Whole(son, g) && g.size <= now && ref <= now && Linked(son, g, now, ref)
    ensures Linked(son, g, now + 1, ref)
    ensures TreeOf(son, g, now + 1, ref) == Prune(TreeOf(son, g, now, ref), now + 2 - g.size)
    decreases ref
  {
    if InWindow(g, now, ref) {
      WindowMoves(son, g, now, son[LeftCell(g, ref)]);
      WindowMoves(son, g, now, son[RightCell(g, ref)]);
    }
  }

  // A shorter limit, as near the end of the stream, keeps the order.
  lemma {:induction false} OrderedShorter(text: seq<Byte>, t: Tree, limit: nat, shorter: nat)
    requires shorter <= limit && Fits(text, t, limit) && Ordered(text, t, limit)
    ensures Fits(text, t, shorter) && Ordered(text, t, shorter)
  {
    if t.Node? {
      OrderedShorter(text, t.left, limit, shorter);
      OrderedShorter(text, t.right, limit, shorter);
      forall x | x in Nodes(t.left)
        ensures x + shorter <= |text| && NotAfter(text, x, t.pos, shorter)
      {
        NotAfterShorter(text, x, t.pos, limit, shorter);
      }
      forall x | x in Nodes(t.right)
        ensures x + shorter <= |text| && NotAfter(text, t.pos, x, shorter)
      {
        NotAfterShorter(text, t.pos, x, limit, shorter);
      }
    }
  }

  lemma NotAfterShorter(text: seq<Byte>, a: nat, b: nat, limit: nat, shorter: nat)
    requires shorter <= limit && a + limit <= |text| && b + limit <= |text| && NotAfter(text, a, b, limit)
    ensures NotAfter(text, a, b, shorter)
  {
    var k := Lcp(text, b, a, shorter);
    if k < shorter {
      LcpIs(text, b, a, limit, k);
    }
  }

  // ----- Renumbering ---------------------------------------------------------------------------

  function Normal(v: nat, sub: nat): nat { if v <= sub then 0 else v - sub }

  function NormalAll(s: seq<nat>, sub: nat): (r: seq<nat>)
    ensures |r| == |s|
  {
    seq(|s|, i requires 0 <= i < |s| => Normal(s[i], sub))
  }

  function ShiftTree(t: Tree, sub: nat): Tree {
    if t.Leaf? || t.pos <= sub then Leaf else Node(t.pos - sub, ShiftTree(t.left, sub), ShiftTree(t.right, sub))
  }

  // Renumbered links lead to the renumbered tree, if nothing in the window is cut off.
  lemma {:induction false} NormalTree(son: seq<nat>, g: Ring, now: nat, ref: nat, sub: nat)
    requires Whole(son, g) && sub + g.size <= now && ref < now && Linked(son, g, now, ref)
    ensures var s', g' := NormalAll(son, sub), Ring(g.offset + sub, g.size);
      && Linked(s', g', now - sub, Normal(ref, sub))
      && TreeOf(s', g', now - sub, Normal(ref, sub)) == ShiftTree(TreeOf(son, g, now, ref), sub)
    decreases ref
  {
    if InWindow(g, now, ref) {
      var g' := Ring(g.offset + sub, g.size);
      assert Slot(g', ref - sub) == Slot(g, ref);
      NormalTree(son, g, now, son[LeftCell(g, ref)], sub);
      NormalTree(son, g, now, son[RightCell(g, ref)], sub);
    }
  }

  function Up(x: nat, sub: nat): nat { x + sub }

  lemma {:induction false} ShiftNodes(t: Tree, sub: nat)
    ensures forall x: nat :: x in Nodes(ShiftTree(t, sub)) ==> Up(x, sub) in Nodes(t)
    ensures Proper(t) ==> Proper(ShiftTree(t, sub))
  {
    if t.Node? {
      ShiftNodes(t.left, sub);
      ShiftNodes(t.right, sub);
      forall x: nat | x in Nodes(ShiftTree(t, sub))
        ensures Up(x, sub) in Nodes(t)
      {}
    }
  }

  lemma {:induction false} LcpShift(text: seq<Byte>, a: nat, b: nat, limit: nat, k: nat, sub: nat)
    requires sub <= a && sub <= b && k <= limit && a + limit <= |text| && b + limit <= |text|
    ensures LcpFrom(text[sub..], a - sub, b - sub, limit, k) == LcpFrom(text, a, b, limit, k)
    decreases limit - k
  {
    if k < limit && text[a + k] == text[b + k] {
      LcpShift(text, a, b, limit, k + 1, sub);
    }
  }

  lemma NotAfterShift(text: seq<Byte>, a: nat, b: nat, limit: nat, sub: nat)
    requires sub <= a && sub <= b && a + limit <= |text| && b + limit <= |text|
    ensures NotAfter(text[sub..], a - sub, b - sub, limit) == NotAfter(text, a, b, limit)
  {
    LcpShift(text, b, a, limit, 0, sub);
  }

  lemma ShiftSides(text: seq<Byte>, t: Tree, y: nat, limit: nat, sub: nat)
    requires sub <= y && sub <= |text| && y + limit <= |text|
    ensures AllUpTo(text, t, y, limit) ==> AllUpTo(text[sub..], ShiftTree(t, sub), y - sub, limit)
    ensures AllFrom(text, t, y, limit) ==> AllFrom(text[sub..], ShiftTree(t, sub), y - sub, limit)
  {
    hide NotAfter;
    ShiftNodes(t, sub);
    forall x: nat | x in Nodes(ShiftTree(t, sub)) && Up(x, sub) + limit <= |text|
      ensures NotAfter(text[sub..], x, y - sub, limit) == NotAfter(text, Up(x, sub), y, limit)
      ensures NotAfter(text[sub..], y - sub, x, limit) == NotAfter(text, y, Up(x, sub), limit)
    {
      NotAfterShift(text, x + sub, y, limit, sub);
      NotAfterShift(text, y, x + sub, limit, sub);
    }
  }

  lemma {:induction false} OrderedShift(text: seq<Byte>, t: Tree, limit: nat, sub: nat)
    requires sub <= |text| && Fits(text, t, limit) && Ordered(text, t, limit)
    ensures Fits(text[sub..], ShiftTree(t, sub), limit) && Ordered(text[sub..], ShiftTree(t, sub), limit)
  {
    hide AllUpTo, AllFrom;
    if t.Node? && t.pos > sub {
      OrderedShift(text, t.left, limit, sub);
      OrderedShift(text, t.right, limit, sub);
      ShiftSides(text, t.left, t.pos, limit, sub);
      ShiftSides(text, t.right, t.pos, limit, sub);
    }
  }

  // ----- All the trees at once --------------------------------------------------------------------

  // One bucket: a proper, ordered tree of older positions.
  ghost predicate Sound(son: seq<nat>, g: Ring, text: seq<Byte>, now: nat, ref: nat, limit: nat) {
    && Whole(son, g) && ref < now && Linked(son, g, now, ref)
    && var t := TreeOf(son, g, now, ref);
    && Proper(t) && Fits(text, t, limit) && Ordered(text, t, limit)
  }

  // All of them, and no position in two.
  ghost predicate Forest(son: seq<nat>, heads: seq<nat>, g: Ring, text: seq<Byte>, now: nat, limit: nat) {
    && Whole(son, g) && g.size <= now
    && (forall b :: 0 <= b < |heads| ==> Sound(son, g, text, now, heads[b], limit))
    && (forall b, c :: 0 <= b < c < |heads| ==> Apart(son, g, now, heads[b], heads[c]))
  }

  ghost predicate Apart(son: seq<nat>, g: Ring, now: nat, ref: nat, other: nat)
    requires Whole(son, g)
  {
    Nodes(TreeOf(son, g, now, ref)) !! Nodes(TreeOf(son, g, now, other))
  }

  lemma SoundReady(son: seq<nat>, g: Ring, text: seq<Byte>, pos: nat, ref: nat, limit: nat)
    requires Sound(son, g, text, pos, ref, limit) && g.size <= pos
    ensures Ready(son, g, pos, ref, RightCell(g, pos), LeftCell(g, pos))
  {
    TreeOfInWindow(son, g, pos, ref);
    ProperTidy(g, pos, TreeOf(son, g, pos, ref));
    CellsOutside(g, pos, TreeOf(son, g, pos, ref), pos);
  }

  // The bucket that is searched, one position later.
  lemma SearchedBucket(son: seq<nat>, g: Ring, text: seq<Byte>, pos: nat, ref: nat, limit: nat, cut: nat)
    requires Sound(son, g, text, pos, ref, limit) && g.size <= pos && pos + limit <= |text|
    ensures var s := Relink(son, g, text, pos, ref, RightCell(g, pos), LeftCell(g, pos), limit, cut);
      var t := TreeOf(son, g, pos, ref);
      && Sound(s, g, text, pos + 1, pos, limit)
      && TreeOf(s, g, pos + 1, pos) == Prune(Insert(text, t, pos, limit, cut), pos + 2 - g.size)
      && Nodes(TreeOf(s, g, pos + 1, pos)) <= Nodes(t) + {pos}
      && SameOutside(son, s, Cells(g, t) + {RightCell(g, pos), LeftCell(g, pos)})
  {
    hide TreeOf, Linked, Relink, Ready, Insert, Ordered;
    SoundReady(son, g, text, pos, ref, limit);
    Inserted(son, g, text, pos, ref, limit, cut);
    TreeOfInWindow(son, g, pos, ref);
    var s := Relink(son, g, text, pos, ref, RightCell(g, pos), LeftCell(g, pos), limit, cut);
    var t := TreeOf(son, g, pos, ref);
    NotYet(t, pos, ref);
    InsertOrdered(text, t, pos, limit, cut);
    WindowMoves(s, g, pos, pos);
    PruneOrdered(text, Insert(text, t, pos, limit, cut), limit, pos + 2 - g.size);
    PruneNodes(Insert(text, t, pos, limit, cut), pos + 2 - g.size);
  }

  lemma NotYet(t: Tree, pos: nat, ref: nat)
    requires ref < pos && forall x :: x in Nodes(t) ==> x <= ref
    ensures pos !in Nodes(t) && forall x :: x in Nodes(t) ==> x < pos
  {}

  // Another bucket, one position later.
  lemma OtherBucket(son: seq<nat>, s: seq<nat>, g: Ring, text: seq<Byte>, pos: nat, ref: nat, other: nat, limit: nat)
    requires Sound(son, g, text, pos, ref, limit) && Sound(son, g, text, pos, other, limit) && g.size <= pos
    requires Nodes(TreeOf(son, g, pos, ref)) !! Nodes(TreeOf(son, g, pos, other)) && Whole(s, g)
    requires SameOutside(son, s, Cells(g, TreeOf(son, g, pos, ref)) + {RightCell(g, pos), LeftCell(g, pos)})
    ensures Sound(s, g, text, pos + 1, other, limit)
    ensures TreeOf(s, g, pos + 1, other) == Prune(TreeOf(son, g, pos, other), pos + 2 - g.size)
    ensures Nodes(TreeOf(s, g, pos + 1, other)) <= Nodes(TreeOf(son, g, pos, other))
    ensures pos !in Nodes(TreeOf(s, g, pos + 1, other))
  {
    hide TreeOf, Linked, Ordered, Cells;
    var t, u := TreeOf(son, g, pos, ref), TreeOf(son, g, pos, other);
    TreeOfInWindow(son, g, pos, ref);
    TreeOfInWindow(son, g, pos, other);
    NotYet(u, pos, other);
    CellsApart(g, pos, t, u);
    CellsOutside(g, pos, u, pos);
    CellsInside(g, u);
    TreeFrame(son, s, g, pos, other);
    WindowMoves(s, g, pos, other);
    PruneOrdered(text, u, limit, pos + 2 - g.size);
    PruneNodes(u, pos + 2 - g.size);
  }

  // The tree of bucket c after a search in bucket b.
  function Later(son: seq<nat>, heads: seq<nat>, g: Ring, text: seq<Byte>, pos: nat, b: nat, limit: nat, cut: nat,
                 c: nat): Tree
    requires Whole(son, g) && b < |heads| && c < |heads| && heads[b] < pos && pos + limit <= |text|
  {
    OlderFits(son, g, text, pos, heads[b], limit);
    var t := TreeOf(son, g, pos, heads[c]);
    Prune(if c == b then Insert(text, t, pos, limit, cut) else t, pos + 2 - if g.size <= pos then g.size else pos)
  }

  lemma BucketKept(son: seq<nat>, heads: seq<nat>, g: Ring, text: seq<Byte>, pos: nat, b: nat, limit: nat, cut: nat,
                   c: nat)
    requires Forest(son, heads, g, text, pos, limit) && b < |heads| && c < |heads| && pos + limit <= |text|
    ensures Whole(son, g) && heads[b] < pos
    ensures var s := Relink(son, g, text, pos, heads[b], RightCell(g, pos), LeftCell(g, pos), limit, cut);
      var h := heads[b := pos];
      && Sound(s, g, text, pos + 1, h[c], limit)
      && TreeOf(s, g, pos + 1, h[c]) == Later(son, heads, g, text, pos, b, limit, cut, c)
      && Nodes(TreeOf(s, g, pos + 1, h[c])) <= Nodes(TreeOf(son, g, pos, heads[c])) + (if c == b then {pos} else {})
      && (c != b ==> pos !in Nodes(TreeOf(s, g, pos + 1, h[c])))
  {
    hide TreeOf, Relink, Insert, Prune, Linked, Proper, Ordered, Fits;
    assert Sound(son, g, text, pos, heads[b], limit) && Sound(son, g, text, pos, heads[c], limit);
    SearchedBucket(son, g, text, pos, heads[b], limit, cut);
    if c != b {
      assert Apart(son, g, pos, heads[if b < c then b else c], heads[if b < c then c else b]);
      OtherBucket(son, Relink(son, g, text, pos, heads[b], RightCell(g, pos), LeftCell(g, pos), limit, cut),
                  g, text, pos, heads[b], heads[c], limit);
    }
  }

  // Main result: a search keeps all the trees proper, ordered and apart.
  lemma ForestKept(son: seq<nat>, heads: seq<nat>, g: Ring, text: seq<Byte>, pos: nat, b: nat, limit: nat, cut: nat)
    requires Forest(son, heads, g, text, pos, limit) && b < |heads| && pos + limit <= |text|
    ensures Whole(son, g) && heads[b] < pos
    ensures var s := Relink(son, g, text, pos, heads[b], RightCell(g, pos), LeftCell(g, pos), limit, cut);
      var h := heads[b := pos];
      && Forest(s, h, g, text, pos + 1, limit)
      && forall c :: 0 <= c < |heads| ==>
           TreeOf(s, g, pos + 1, h[c]) == Later(son, heads, g, text, pos, b, limit, cut, c)
  {
    hide TreeOf, Relink, Sound, Insert, Prune, Later;
    BucketKept(son, heads, g, text, pos, b, limit, cut, b);
    var s := Relink(son, g, text, pos, heads[b], RightCell(g, pos), LeftCell(g, pos), limit, cut);
    var h := heads[b := pos];
    forall c: nat | c < |heads|
      ensures Sound(s, g, text, pos + 1, h[c], limit)
      ensures TreeOf(s, g, pos + 1, h[c]) == Later(son, heads, g, text, pos, b, limit, cut, c)
    {
      BucketKept(son, heads, g, text, pos, b, limit, cut, c);
    }
    forall c: nat, d: nat | c < d < |heads|
      ensures Apart(s, g, pos + 1, h[c], h[d])
    {
      assert Apart(son, g, pos, heads[c], heads[d]);
      BucketKept(son, heads, g, text, pos, b, limit, cut, c);
      BucketKept(son, heads, g, text, pos, b, limit, cut, d);
      NotYetIn(son, g, text, pos, heads[c], limit);
      NotYetIn(son, g, text, pos, heads[d], limit);
    }
  }

  // Moving on without a search: only the window moves.
  lemma ForestPasses(son: seq<nat>, heads: seq<nat>, g: Ring, text: seq<Byte>, pos: nat, limit: nat)
    requires Forest(son, heads, g, text, pos, limit)
    ensures Whole(son, g) && g.size <= pos && Forest(son, heads, g, text, pos + 1, limit)
    ensures forall c :: 0 <= c < |heads| ==>
      TreeOf(son, g, pos + 1, heads[c]) == Prune(TreeOf(son, g, pos, heads[c]), pos + 2 - g.size)
  {
    hide TreeOf, Linked, Sound, Prune;
    forall c: nat | c < |heads|
      ensures Sound(son, g, text, pos + 1, heads[c], limit)
      ensures TreeOf(son, g, pos + 1, heads[c]) == Prune(TreeOf(son, g, pos, heads[c]), pos + 2 - g.size)
      ensures Nodes(TreeOf(son, g, pos + 1, heads[c])) <= Nodes(TreeOf(son, g, pos, heads[c]))
    {
      BucketPasses(son, g, text, pos, heads[c], limit);
    }
    forall c: nat, d: nat | c < d < |heads|
      ensures Apart(son, g, pos + 1, heads[c], heads[d])
    {
      assert Apart(son, g, pos, heads[c], heads[d]);
    }
  }

  lemma BucketPasses(son: seq<nat>, g: Ring, text: seq<Byte>, pos: nat, ref: nat, limit: nat)
    requires Sound(son, g, text, pos, ref, limit) && g.size <= pos
    ensures Sound(son, g, text, pos + 1, ref, limit)
    ensures TreeOf(son, g, pos + 1, ref) == Prune(TreeOf(son, g, pos, ref), pos + 2 - g.size)
    ensures Nodes(TreeOf(son, g, pos + 1, ref)) <= Nodes(TreeOf(son, g, pos, ref))
  {
    hide TreeOf, Linked, Ordered, Prune;
    WindowMoves(son, g, pos, ref);
    PruneNodes(TreeOf(son, g, pos, ref), pos + 2 - g.size);
    PruneOrdered(text, TreeOf(son, g, pos, ref), limit, pos + 2 - g.size);
  }

  lemma NotYetIn(son: seq<nat>, g: Ring, text: seq<Byte>, pos: nat, ref: nat, limit: nat)
    requires Sound(son, g, text, pos, ref, limit)
    ensures pos !in Nodes(TreeOf(son, g, pos, ref))
  {
    TreeOfInWindow(son, g, pos, ref);
  }

  lemma ForestShorter(son: seq<nat>, heads: seq<nat>, g: Ring, text: seq<Byte>, now: nat, limit: nat, shorter: nat)
    requires Forest(son, heads, g, text, now, limit) && shorter <= limit
    ensures Forest(son, heads, g, text, now, shorter)
  {
    hide TreeOf, Linked, Ordered;
    forall b | 0 <= b < |heads|
      ensures Sound(son, g, text, now, heads[b], shorter)
    {
      assert Sound(son, g, text, now, heads[b], limit);
      OrderedShorter(text, TreeOf(son, g, now, heads[b]), limit, shorter);
    }
  }

  // Renumbering keeps the forest, for the text with as many bytes less in front.
  lemma ForestRenumbered(son: seq<nat>, heads: seq<nat>, g: Ring, text: seq<Byte>, now: nat, limit: nat, sub: nat)
    requires Forest(son, heads, g, text, now, limit) && sub + g.size <= now && sub <= |text|
    ensures var s', h', g' := NormalAll(son, sub), NormalAll(heads, sub), Ring(g.offset + sub, g.size);
      && Forest(s', h', g', text[sub..], now - sub, limit)
      && forall b :: 0 <= b < |heads| ==>
           TreeOf(s', g', now - sub, h'[b]) == ShiftTree(TreeOf(son, g, now, heads[b]), sub)
  {
    hide TreeOf, Sound, Apart, ShiftTree, Normal;
    var s', h', g' := NormalAll(son, sub), NormalAll(heads, sub), Ring(g.offset + sub, g.size);
    forall b: nat | b < |heads|
      ensures Sound(s', g', text[sub..], now - sub, h'[b], limit)
      ensures TreeOf(s', g', now - sub, h'[b]) == ShiftTree(TreeOf(son, g, now, heads[b]), sub)
    {
      assert Sound(son, g, text, now, heads[b], limit);
      BucketRenumbered(son, g, text, now, heads[b], limit, sub);
    }
    forall b: nat, c: nat | b < c < |heads|
      ensures Apart(s', g', now - sub, h'[b], h'[c])
    {
      assert Apart(son, g, now, heads[b], heads[c]);
      assert Sound(son, g, text, now, heads[b], limit) && Sound(son, g, text, now, heads[c], limit);
      BucketRenumbered(son, g, text, now, heads[b], limit, sub);
      BucketRenumbered(son, g, text, now, heads[c], limit, sub);
      StillApart(son, s', g, g', now, now - sub, heads[b], heads[c], h'[b], h'[c], sub);
    }
  }

  lemma BucketRenumbered(son: seq<nat>, g: Ring, text: seq<Byte>, now: nat, ref: nat, limit: nat, sub: nat)
    requires Sound(son, g, text, now, ref, limit) && sub + g.size <= now && sub <= |text|
    ensures var s', g' := NormalAll(son, sub), Ring(g.offset + sub, g.size);
      && Sound(s', g', text[sub..], now - sub, Normal(ref, sub), limit)
      && TreeOf(s', g', now - sub, Normal(ref, sub)) == ShiftTree(TreeOf(son, g, now, ref), sub)
  {
    hide TreeOf, Linked, Ordered;
    var t := TreeOf(son, g, now, ref);
    NormalTree(son, g, now, ref, sub);
    ShiftNodes(t, sub);
    OrderedShift(text, t, limit, sub);
  }

  lemma StillApart(son: seq<nat>, s: seq<nat>, g: Ring, g': Ring, now: nat, now': nat, r: nat, q: nat, r': nat,
                   q': nat, sub: nat)
    requires Whole(son, g) && Whole(s, g') && Apart(son, g, now, r, q)
    requires TreeOf(s, g', now', r') == ShiftTree(TreeOf(son, g, now, r), sub)
    requires TreeOf(s, g', now', q') == ShiftTree(TreeOf(son, g, now, q), sub)
    ensures Apart(s, g', now', r', q')
  {
    hide TreeOf;
    var t, u := TreeOf(son, g, now, r), TreeOf(son, g, now, q);
    ShiftNodes(t, sub);
    ShiftNodes(u, sub);
    forall x: nat | x in Nodes(ShiftTree(t, sub))
      ensures x !in Nodes(ShiftTree(u, sub))
    {
      assert Up(x, sub) in Nodes(t);
    }
  }

  // ----- The finder ---------------------------------------------------------------------------------

  const NORMALIZE_STEP_MIN := 1024

  // text is indexed by position: the byte at pos is the current one.
  class Finder {
    const size: nat
    const son: array<nat>
    const hash: array<nat>
    var pos: nat
    var cyclicPos: nat
    var text: seq<Byte>
    ghost var offset: nat
    ghost var limit: nat

    ghost function G(): Ring
      reads this
    {
      Ring(offset, size)
    }

    // limit is the shortest match limit used so far: it only shrinks, towards the end of the stream.
    ghost predicate Valid()
      reads this, son, hash
    {
      && size >= 1 && son != hash && cyclicPos == Slot(G(), pos) && pos <= |text|
      && Forest(son[..], hash[..], G(), text, pos, limit)
    }

    ghost function Tree(b: nat): Tree
      reads this, son, hash
      requires Whole(son[..], G()) && b < hash.Length
    {
      TreeOf(son[..], G(), pos, hash[b])
    }

    // Positions start at size, so that reference 0 is outside the window.
    constructor (cyclicSize: nat, hashSize: nat, data: seq<Byte>, matchMaxLen: nat)
      requires cyclicSize >= 1
      ensures Valid() && pos == size == cyclicSize && text[pos..] == data && limit == matchMaxLen
      ensures fresh(son) && fresh(hash)
      ensures hash.Length == hashSize && forall b: nat :: b < hashSize ==> Tree(b) == Leaf
    {
      size := cyclicSize;
      son := new nat[2 * cyclicSize](_ => 0);
      hash := new nat[hashSize](_ => 0);
      pos, cyclicPos := cyclicSize, 0;
      text := seq(cyclicSize, _ => 0) + data;
      offset, limit := 0, matchMaxLen;
      new;
      ModUnique(pos, size, 1, 0);
    }

    method MovePos()
      requires size >= 1 && cyclicPos == Slot(G(), pos)
      modifies this`pos, this`cyclicPos
      ensures pos == old(pos) + 1 && cyclicPos == Slot(G(), pos)
    {
      SlotNext(G(), pos);
      pos := pos + 1;
      cyclicPos := cyclicPos + 1;
      if cyclicPos == size {
        cyclicPos := 0;
      }
    }

    // A search in bucket b, which becomes that of the current position; then on to the next.
    method Find(b: nat, lenLimit: nat, cutValue: nat, maxLen: nat) returns (distances: seq<int>)
      requires Valid() && b < hash.Length && maxLen < lenLimit <= limit && pos + lenLimit <= |text|
      modifies this`pos, this`cyclicPos, this`limit, son, hash
      ensures Valid() && pos == old(pos) + 1 && limit == lenLimit
      ensures old(hash[b] < pos && Fits(text, Tree(b), lenLimit)) &&
        distances == old(Flat(Found(text, Tree(b), pos, lenLimit, cutValue, maxLen), pos))
      ensures forall c: nat :: c < hash.Length ==>
        Tree(c) == old(Later(son[..], hash[..], G(), text, pos, b, lenLimit, cutValue, c))
    {
      hide Forest, Relink, Later, Found, Flat, TreeOf;
      ghost var s, h, g := son[..], hash[..], G();
      BeginSearch(s, h, g, text, pos, b, limit, lenLimit, cutValue);
      var curMatch := hash[b];
      hash[b] := pos;
      distances := GetMatches(lenLimit, curMatch, pos, text, son, cyclicPos, size, cutValue, maxLen, g);
      MovePos();
      limit := lenLimit;
      assert hash[..] == h[b := old(pos)];
    }

    method Skip(b: nat, lenLimit: nat, cutValue: nat)
      requires Valid() && b < hash.Length && 1 <= lenLimit <= limit && pos + lenLimit <= |text|
      modifies this`pos, this`cyclicPos, this`limit, son, hash
      ensures Valid() && pos == old(pos) + 1 && limit == lenLimit && old(hash[b] < pos)
      ensures forall c: nat :: c < hash.Length ==>
        Tree(c) == old(Later(son[..], hash[..], G(), text, pos, b, lenLimit, cutValue, c))
    {
      hide Forest, Relink, Later, Found, Flat, TreeOf;
      ghost var s, h, g := son[..], hash[..], G();
      BeginSearch(s, h, g, text, pos, b, limit, lenLimit, cutValue);
      var curMatch := hash[b];
      hash[b] := pos;
      SkipMatches(lenLimit, curMatch, pos, text, son, cyclicPos, size, cutValue, g);
      MovePos();
      limit := lenLimit;
      assert hash[..] == h[b := old(pos)];
    }

    // Too near the end of the stream to search: the position is not entered in any tree.
    method Pass()
      requires Valid() && pos < |text|
      modifies this`pos, this`cyclicPos
      ensures Valid() && pos == old(pos) + 1
      ensures forall b: nat :: b < hash.Length ==> Tree(b) == Prune(old(Tree(b)), pos + 1 - size)
    {
      hide Forest, TreeOf, Prune;
      ForestPasses(son[..], hash[..], G(), text, pos, limit);
      MovePos();
    }

    method NormalizeAll(items: array<nat>, subValue: nat)
      modifies items
      ensures items[..] == NormalAll(old(items[..]), subValue)
    {
      var i := 0;
      while i < items.Length
        invariant 0 <= i <= items.Length
        invariant forall k :: 0 <= k < i ==> items[k] == Normal(old(items[k]), subValue)
        invariant forall k :: i <= k < items.Length ==> items[k] == old(items[k])
      {
        var value := items[i];
        if value <= subValue {
          value := 0;
        } else {
          value := value - subValue;
        }
        items[i] := value;
        i := i + 1;
      }
    }

    // Positions are reduced by a multiple of 1024 that keeps all of the window.
    method Normalize() returns (subValue: nat)
      requires Valid()
      modifies this`pos, this`text, this`offset, son, hash
      ensures Valid() && pos == old(pos) - subValue && size <= pos < size + NORMALIZE_STEP_MIN
      ensures subValue % NORMALIZE_STEP_MIN == 0 && text[pos..] == old(text[pos..])
      ensures forall b: nat :: b < hash.Length ==> Tree(b) == ShiftTree(old(Tree(b)), subValue)
    {
      hide Forest, TreeOf, Sound;
      BigEnough(son[..], hash[..], G(), text, pos, limit);
      subValue := (pos - size) - (pos - size) % NORMALIZE_STEP_MIN;
      ForestRenumbered(son[..], hash[..], G(), text, pos, limit, subValue);
      NormalizeAll(hash, subValue);
      NormalizeAll(son, subValue);
      pos := pos - subValue;
      text := text[subValue..];
      offset := offset + subValue;
    }
  }

  lemma BigEnough(s: seq<nat>, h: seq<nat>, g: Ring, text: seq<Byte>, pos: nat, limit: nat)
    requires Forest(s, h, g, text, pos, limit)
    ensures Whole(s, g) && g.size <= pos
  {}

  lemma SlotNext(g: Ring, pos: nat)
    requires g.size >= 1
    ensures Slot(g, pos + 1) == if Slot(g, pos) + 1 == g.size then 0 else Slot(g, pos) + 1
  {
    var q, c := (pos + g.offset) / g.size, Slot(g, pos);
    if c + 1 == g.size {
      ModUnique(pos + 1 + g.offset, g.size, q + 1, 0);
    } else {
      ModUnique(pos + 1 + g.offset, g.size, q, c + 1);
    }
  }

  // What a search starts from, and what it leaves.
  lemma BeginSearch(s: seq<nat>, h: seq<nat>, g: Ring, text: seq<Byte>, pos: nat, b: nat, limit: nat, lenLimit: nat,
                    cut: nat)
    requires Forest(s, h, g, text, pos, limit) && b < |h| && lenLimit <= limit && pos + lenLimit <= |text|
    ensures Whole(s, g) && h[b] < pos && Ready(s, g, pos, h[b], RightCell(g, pos), LeftCell(g, pos))
    ensures Fits(text, TreeOf(s, g, pos, h[b]), lenLimit) && Ordered(text, TreeOf(s, g, pos, h[b]), lenLimit)
    ensures var s' := Relink(s, g, text, pos, h[b], RightCell(g, pos), LeftCell(g, pos), lenLimit, cut);
      var h' := h[b := pos];
      && Forest(s', h', g, text, pos + 1, lenLimit)
      && forall c :: 0 <= c < |h| ==> TreeOf(s', g, pos + 1, h'[c]) == Later(s, h, g, text, pos, b, lenLimit, cut, c)
  {
    hide TreeOf, Relink, Later, Ready, Ordered;
    ForestShorter(s, h, g, text, pos, limit, lenLimit);
    assert Sound(s, g, text, pos, h[b], lenLimit);
    SoundReady(s, g, text, pos, h[b], lenLimit);
    ForestKept(s, h, g, text, pos, b, lenLimit, cut);
  }
}
