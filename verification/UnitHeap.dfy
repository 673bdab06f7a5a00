/** The memory of the PPMd7 allocator as a partition: every word belongs to one block, or to the gap between
    the blocks handed out from below and those from above. And the lists of its free blocks. */
module UnitHeap {

  import opened UnitClasses

  // Words of 32 bits in a unit of 12 bytes. Addresses count words, and 0 is no address.
  const UNIT: nat := 3

  // A loose block is on its way from one class to another.
  datatype Block = Free(index: nat) | Live(index: nat) | Loose(units: nat)

  function Units(k: Block): nat {
    if k.Loose? then k.units else I2U(k.index)
  }

  function Size(k: Block): nat {
    UNIT * Units(k)
  }

  lemma SizePositive(k: Block)
    requires Proper(k)
    ensures Size(k) > 0
  {}

  predicate Proper(k: Block) {
    if k.Loose? then k.units > 0 else k.index < NUM_INDEXES
  }

  // owner tells for every word which block it is in. Blocks fill what is from start on, without [lo, hi).
  datatype Heap = Heap(blocks: map<nat, Block>, owner: seq<nat>, start: nat, lo: nat, hi: nat)

  predicate Placed(h: Heap, b: nat) {
    && b in h.blocks && Proper(h.blocks[b]) && h.start <= b && b + Size(h.blocks[b]) <= |h.owner|
    && (b + Size(h.blocks[b]) <= h.lo || h.hi <= b)
  }

  predicate Owns(h: Heap, b: nat) {
    b in h.blocks && b + Size(h.blocks[b]) <= |h.owner| &&
    forall w :: b <= w < b + Size(h.blocks[b]) ==> h.owner[w] == b
  }

  predicate Covered(h: Heap, w: nat) {
    w < |h.owner| && h.owner[w] in h.blocks && h.owner[w] <= w < h.owner[w] + Size(h.blocks[h.owner[w]])
  }

  predicate Tiled(h: Heap) {
    && 0 < h.start <= h.lo <= h.hi <= |h.owner|
    && (forall b :: b in h.blocks ==> Placed(h, b) && Owns(h, b))
    && (forall w :: h.start <= w < |h.owner| && !(h.lo <= w < h.hi) ==> Covered(h, w))
  }

  function SetOwner(owner: seq<nat>, from: nat, to: nat, b: nat): (r: seq<nat>)
    ensures |r| == |owner|
    ensures forall w :: 0 <= w < |r| ==> r[w] == if from <= w < to then b else owner[w]
  {
    seq(|owner|, w requires 0 <= w < |owner| => if from <= w < to then b else owner[w])
  }

  // ----- Changes that keep the partition -------------------------------------------------------

  function Retag(h: Heap, b: nat, k: Block): Heap {
    h.(blocks := h.blocks[b := k])
  }

  lemma RetagTiled(h: Heap, b: nat, k: Block)
    requires Tiled(h) && b in h.blocks && Proper(k) && Units(k) == Units(h.blocks[b])
    ensures Tiled(Retag(h, b, k))
  {
    var g := Retag(h, b, k);
    forall c | c in g.blocks
      ensures Placed(g, c) && Owns(g, c)
    {
      assert Placed(h, c) && Owns(h, c);
    }
    forall w | g.start <= w < |g.owner| && !(g.lo <= w < g.hi)
      ensures Covered(g, w)
    {
      assert Covered(h, w);
    }
  }

  // A block in two.
  function Cut(h: Heap, b: nat, k1: Block, k2: Block): Heap {
    var c := b + Size(k1);
    h.(blocks := h.blocks[b := k1][c := k2], owner := SetOwner(h.owner, c, c + Size(k2), c))
  }

  // Blocks do not share a word.
  lemma Apart(h: Heap, b: nat, c: nat)
    requires Tiled(h) && b in h.blocks && c in h.blocks && b != c
    ensures b + Size(h.blocks[b]) <= c || c + Size(h.blocks[c]) <= b
    ensures Size(h.blocks[b]) > 0
  {
    assert Placed(h, b) && Owns(h, b) && Placed(h, c) && Owns(h, c);
    assert h.owner[b] == b && h.owner[c] == c;
  }

  lemma CutPlaced(h: Heap, b: nat, k1: Block, k2: Block, d: nat)
    requires Tiled(h) && b in h.blocks && Proper(k1) && Proper(k2) && Units(k1) + Units(k2) == Units(h.blocks[b])
    requires d in Cut(h, b, k1, k2).blocks
    ensures Placed(Cut(h, b, k1, k2), d) && Owns(Cut(h, b, k1, k2), d)
  {
    hide Units;
    assert Placed(h, b) && Owns(h, b);
    if d != b + Size(k1) && d != b {
      assert Placed(h, d) && Owns(h, d);
      Apart(h, b, d);
    }
  }

  lemma CutCovered(h: Heap, b: nat, k1: Block, k2: Block, w: nat)
    requires Tiled(h) && b in h.blocks && Proper(k1) && Proper(k2) && Units(k1) + Units(k2) == Units(h.blocks[b])
    requires Covered(h, w) && b + Size(k1) !in h.blocks
    ensures Covered(Cut(h, b, k1, k2), w)
  {
    hide Units;
    assert Placed(h, b) && Owns(h, b);
    if h.owner[w] != b { Apart(h, b, h.owner[w]); }
  }

  lemma CutTiled(h: Heap, b: nat, k1: Block, k2: Block)
    requires Tiled(h) && b in h.blocks && Proper(k1) && Proper(k2) && Units(k1) + Units(k2) == Units(h.blocks[b])
    ensures b + Size(k1) !in h.blocks && Tiled(Cut(h, b, k1, k2))
  {
    hide Units, Proper, Placed, Owns, Covered;
    var g := Cut(h, b, k1, k2);
    CutFresh(h, b, k1, k2);
    forall d | d in g.blocks
      ensures Placed(g, d) && Owns(g, d)
    {
      CutPlaced(h, b, k1, k2, d);
    }
    forall w | g.start <= w < |g.owner| && !(g.lo <= w < g.hi)
      ensures Covered(g, w)
    {
      CutCovered(h, b, k1, k2, w);
    }
  }

  lemma CutFresh(h: Heap, b: nat, k1: Block, k2: Block)
    requires Tiled(h) && b in h.blocks && Proper(k1) && Proper(k2) && Units(k1) + Units(k2) == Units(h.blocks[b])
    ensures b + Size(k1) !in h.blocks
  {
    if b + Size(k1) in h.blocks { Apart(h, b, b + Size(k1)); }
  }

  // A new block, in words that belonged to none.
  function Added(h: Heap, b: nat, k: Block): Heap {
    h.(blocks := h.blocks[b := k], owner := SetOwner(h.owner, b, b + Size(k), b))
  }

  predicate Extends(h: Heap, g: Heap, b: nat, k: Block) {
    || (g == Added(h, b, k).(start := b) && b + Size(k) == h.start && b > 0)
    || (g == Added(h, b, k).(lo := b + Size(k)) && b == h.lo && b + Size(k) <= h.hi)
    || (g == Added(h, b, k).(hi := b) && b + Size(k) == h.hi && h.lo <= b)
  }

  lemma AddedPlaced(h: Heap, g: Heap, b: nat, k: Block, d: nat)
    requires Tiled(h) && Proper(k) && Extends(h, g, b, k) && d in g.blocks
    ensures Placed(g, d) && Owns(g, d)
  {
    hide Units;
    SizePositive(k);
    if d != b { assert Placed(h, d) && Owns(h, d); }
  }

  lemma AddedCovered(h: Heap, g: Heap, b: nat, k: Block, w: nat)
    requires Tiled(h) && Proper(k) && Extends(h, g, b, k) && b !in h.blocks
    requires b <= w < b + Size(k) || Covered(h, w)
    ensures Covered(g, w)
  {
    hide Units;
    if !(b <= w < b + Size(k)) { assert Placed(h, h.owner[w]) && Owns(h, h.owner[w]); }
  }

  lemma AddedFresh(h: Heap, g: Heap, b: nat, k: Block)
    requires Tiled(h) && Proper(k) && Extends(h, g, b, k)
    ensures b !in h.blocks
  {
    hide Units;
    SizePositive(k);
    assert b in h.blocks ==> Placed(h, b);
    if b in h.blocks { SizePositive(h.blocks[b]); }
  }

  lemma AddedTiled(h: Heap, g: Heap, b: nat, k: Block)
    requires Tiled(h) && Proper(k) && Extends(h, g, b, k)
    ensures b !in h.blocks && Tiled(g)
  {
    hide Units, Proper, Placed, Owns, Covered;
    AddedFresh(h, g, b, k);
    forall d | d in g.blocks
      ensures Placed(g, d) && Owns(g, d)
    {
      AddedPlaced(h, g, b, k, d);
    }
    forall w | g.start <= w < |g.owner| && !(g.lo <= w < g.hi)
      ensures Covered(g, w)
    {
      AddedCovered(h, g, b, k, w);
    }
  }

  // ----- What the live blocks hold -------------------------------------------------------------

  function Contents(h: Heap, mem: seq<nat>): map<nat, seq<nat>>
    requires Tiled(h) && |mem| == |h.owner|
  {
    map b | b in h.blocks && h.blocks[b].Live? :: Words(h, mem, b)
  }

  function Words(h: Heap, mem: seq<nat>, b: nat): seq<nat>
    requires Tiled(h) && |mem| == |h.owner| && b in h.blocks
  {
    assert Placed(h, b);
    mem[b..b + Size(h.blocks[b])]
  }

  // A word of one block is in no other.
  lemma WordsElsewhere(h: Heap, mem: seq<nat>, b: nat, w: nat, v: nat, c: nat)
    requires Tiled(h) && |mem| == |h.owner| && b in h.blocks && c in h.blocks && b != c
    requires b <= w < b + Size(h.blocks[b]) && w < |mem|
    ensures Words(h, mem[w := v], c) == Words(h, mem, c)
  {
    Apart(h, b, c);
  }

  // Contents are the same when the live blocks are, with the same words.
  lemma SameContents(h: Heap, g: Heap, mem: seq<nat>, m: seq<nat>)
    requires Tiled(h) && Tiled(g) && |mem| == |h.owner| == |m| == |g.owner|
    requires forall c :: c in h.blocks && h.blocks[c].Live? ==>
               c in g.blocks && g.blocks[c] == h.blocks[c] && Words(g, m, c) == Words(h, mem, c)
    requires forall c :: c in g.blocks && g.blocks[c].Live? ==> c in h.blocks && g.blocks[c] == h.blocks[c]
    ensures Contents(g, m) == Contents(h, mem)
  {
    hide Tiled, Words;
  }

  lemma FreedContents(h: Heap, mem: seq<nat>, b: nat, i: nat, v: nat)
    requires Tiled(h) && |mem| == |h.owner| && b in h.blocks && i < NUM_INDEXES && b < |mem|
    requires Units(h.blocks[b]) == I2U(i) && Tiled(Retag(h, b, Free(i)))
    ensures Contents(Retag(h, b, Free(i)), mem[b := v]) == Contents(h, mem) - {b}
    ensures h.blocks[b].Loose? ==> Contents(h, mem) - {b} == Contents(h, mem)
  {
    hide Units, Tiled, Words;
    var g, m := Retag(h, b, Free(i)), mem[b := v];
    forall c | c in h.blocks && c != b
      ensures Words(g, m, c) == Words(h, mem, c)
    {
      FirstWord(h, b);
      WordsElsewhere(h, mem, b, b, v, c);
      WordsRetagged(h, b, Free(i), m, c);
    }
  }

  lemma FirstWord(h: Heap, b: nat)
    requires Tiled(h) && b in h.blocks
    ensures b < b + Size(h.blocks[b])
  {
    assert Placed(h, b);
    SizePositive(h.blocks[b]);
  }

  lemma WordsRetagged(h: Heap, b: nat, k: Block, mem: seq<nat>, c: nat)
    requires Tiled(h) && Tiled(Retag(h, b, k)) && |mem| == |h.owner| && c in h.blocks && c != b
    ensures Words(Retag(h, b, k), mem, c) == Words(h, mem, c)
  {}

  // The same but for a block that is new.
  predicate Gains(was: map<nat, seq<nat>>, now: map<nat, seq<nat>>, b: nat, i: nat) {
    b !in was && b in now && |now[b]| == UNIT * I2U(i) && now == was[b := now[b]]
  }

  lemma TakenContents(h: Heap, mem: seq<nat>, b: nat, i: nat)
    requires Tiled(h) && |mem| == |h.owner| && b in h.blocks && h.blocks[b] == Free(i)
    ensures var g := Retag(h, b, Live(i)); Tiled(g) && Gains(Contents(h, mem), Contents(g, mem), b, i)
  {
    hide Tiled, Words;
    var g := Retag(h, b, Live(i));
    BlockInside(h, b);
    RetagTiled(h, b, Live(i));
    WordsAre(g, mem, b);
    forall c | c in h.blocks && c != b
      ensures Words(g, mem, c) == Words(h, mem, c)
    {
      WordsRetagged(h, b, Live(i), mem, c);
    }
  }

  lemma BlockInside(h: Heap, b: nat)
    requires Tiled(h) && b in h.blocks
    ensures Proper(h.blocks[b]) && b + Size(h.blocks[b]) <= |h.owner|
  {
    assert Placed(h, b);
  }

  lemma WordsAre(h: Heap, mem: seq<nat>, b: nat)
    requires Tiled(h) && |mem| == |h.owner| && b in h.blocks
    ensures b + Size(h.blocks[b]) <= |mem| && Words(h, mem, b) == mem[b..b + Size(h.blocks[b])]
  {
    BlockInside(h, b);
  }

  lemma AddedContents(h: Heap, g: Heap, mem: seq<nat>, b: nat, i: nat)
    requires Tiled(h) && |mem| == |h.owner| && i < NUM_INDEXES && Extends(h, g, b, Live(i))
    ensures b !in h.blocks && Tiled(g) && Gains(Contents(h, mem), Contents(g, mem), b, i)
  {
    hide Tiled, Words, Units;
    SizeOfClass(i);
    AddedTiled(h, g, b, Live(i));
    WordsAre(g, mem, b);
    forall c | c in h.blocks
      ensures Words(g, mem, c) == Words(h, mem, c)
    {
      WordsAre(g, mem, c);
      WordsAre(h, mem, c);
    }
  }

  lemma SizeOfClass(i: nat)
    ensures Size(Live(i)) == Size(Free(i)) == UNIT * I2U(i) && Units(Live(i)) == Units(Free(i)) == I2U(i)
  {}

  // A word of a live block is written.
  lemma WrittenContents(h: Heap, mem: seq<nat>, b: nat, k: nat, v: nat)
    requires Tiled(h) && |mem| == |h.owner| && b in h.blocks && h.blocks[b].Live? && k < Size(h.blocks[b])
    ensures b + k < |mem|
    ensures Contents(h, mem[b + k := v]) == Contents(h, mem)[b := Words(h, mem, b)[k := v]]
  {
    hide Tiled, Units;
    WordsAre(h, mem, b);
    var m := mem[b + k := v];
    WordsAre(h, m, b);
    forall c | c in h.blocks && c != b
      ensures Words(h, m, c) == Words(h, mem, c)
    {
      WordsElsewhere(h, mem, b, b + k, v, c);
    }
  }

  lemma LiveIs(h: Heap, mem: seq<nat>, b: nat, i: nat)
    requires Tiled(h) && |mem| == |h.owner| && b in h.blocks && h.blocks[b] == Live(i)
    ensures b in Contents(h, mem) && b + UNIT * I2U(i) <= |mem|
    ensures Contents(h, mem)[b] == mem[b..b + UNIT * I2U(i)]
  {
    hide I2U;
    WordsAre(h, mem, b);
  }

  lemma EmptyHeap(h: Heap, mem: seq<nat>, heads: seq<nat>, lists: seq<seq<nat>>)
    requires h.blocks == map[] && 0 < h.start == h.lo <= h.hi == |h.owner| == |mem|
    requires |heads| == |lists| == NUM_INDEXES
    requires forall i :: 0 <= i < NUM_INDEXES ==> heads[i] == 0 && lists[i] == []
    ensures Tiled(h) && Linked(h, mem, heads, lists) && Contents(h, mem) == map[]
  {}

  // Free lists that are empty, after the free blocks have become loose ones.
  lemma Emptied(h: Heap, g: Heap, mem: seq<nat>, heads: seq<nat>, lists: seq<seq<nat>>)
    requires Tiled(h) && Tiled(g) && |mem| == |h.owner| == |g.owner| && |heads| == |lists| == NUM_INDEXES
    requires forall i :: 0 <= i < NUM_INDEXES ==> heads[i] == 0 && lists[i] == []
    requires forall b :: b in h.blocks && h.blocks[b].Live? ==> b in g.blocks && g.blocks[b] == h.blocks[b]
    requires forall b :: b in g.blocks && g.blocks[b].Live? ==> b in h.blocks && g.blocks[b] == h.blocks[b]
    requires forall b :: b in g.blocks ==> !g.blocks[b].Free?
    ensures Linked(g, mem, heads, lists) && Contents(g, mem) == Contents(h, mem)
  {
    hide I2U;
    SameContents(h, g, mem, mem);
  }

  lemma CutContents(h: Heap, mem: seq<nat>, b: nat, k1: Block, k2: Block)
    requires Tiled(h) && |mem| == |h.owner| && b in h.blocks && !h.blocks[b].Free? && k2.Loose? && !k1.Free?
    requires Proper(k1) && Proper(k2) && Units(k1) + Units(k2) == Units(h.blocks[b])
    requires k1.Live? <==> h.blocks[b].Live?
    ensures Tiled(Cut(h, b, k1, k2)) && b + Size(k1) <= |mem|
    ensures Contents(Cut(h, b, k1, k2), mem) ==
            if k1.Live? then Contents(h, mem)[b := mem[b..b + Size(k1)]] else Contents(h, mem)
  {
    hide Units, Tiled;
    CutTiled(h, b, k1, k2);
    CutFits(h, b, k1, k2);
    var g := Cut(h, b, k1, k2);
    assert forall c :: c in h.blocks && c != b ==> g.blocks[c] == h.blocks[c];
  }

  // The first part of a live block, which stays live.
  lemma CutLive(h: Heap, mem: seq<nat>, b: nat, i: nat, j: nat)
    requires Tiled(h) && |mem| == |h.owner| && j < i < NUM_INDEXES && b in h.blocks && h.blocks[b] == Live(i)
    ensures 0 < I2U(i) - I2U(j) < 128
    ensures var g := Cut(h, b, Live(j), Loose(I2U(i) - I2U(j)));
      && Tiled(g) && b + UNIT * I2U(j) !in h.blocks && g.blocks[b + UNIT * I2U(j)] == Loose(I2U(i) - I2U(j))
      && b in Contents(h, mem) && UNIT * I2U(j) <= |Contents(h, mem)[b]|
      && Contents(g, mem) == Contents(h, mem)[b := Contents(h, mem)[b][..UNIT * I2U(j)]]
  {
    hide I2U, Tiled;
    ClassesApart(j, i);
    var k1, k2 := Live(j), Loose(I2U(i) - I2U(j));
    CutContents(h, mem, b, k1, k2);
    CutTiled(h, b, k1, k2);
    WordsAre(h, mem, b);
    assert mem[b..b + Size(k1)] == mem[b..b + Size(h.blocks[b])][..Size(k1)];
  }

  // A cut is not seen by the free lists.
  lemma CutLinked(h: Heap, mem: seq<nat>, heads: seq<nat>, lists: seq<seq<nat>>, b: nat, k1: Block, k2: Block)
    requires Linked(h, mem, heads, lists) && b in h.blocks && b + Size(k1) !in h.blocks
    requires !h.blocks[b].Free? && !k1.Free? && !k2.Free?
    ensures Linked(Cut(h, b, k1, k2), mem, heads, lists)
  {
    hide Linked;
    var g := Cut(h, b, k1, k2);
    assert forall c :: c in g.blocks && c != b && c != b + Size(k1) ==> c in h.blocks && g.blocks[c] == h.blocks[c];
    LinkedKept(h, g, mem, heads, lists);
  }

  lemma CutFits(h: Heap, b: nat, k1: Block, k2: Block)
    requires Tiled(h) && b in h.blocks && Units(k1) + Units(k2) == Units(h.blocks[b])
    ensures b + Size(k1) <= |h.owner| && (Proper(k1) && Proper(k2) ==> b + Size(k1) !in h.blocks)
  {
    assert Placed(h, b);
    if Proper(k1) && Proper(k2) { CutFresh(h, b, k1, k2); }
  }

  // ----- Freeing loose blocks ------------------------------------------------------------------

  ghost predicate SameLive(h: Heap, g: Heap) {
    forall c :: (c in h.blocks && h.blocks[c].Live?) || (c in g.blocks && g.blocks[c].Live?) ==>
      c in h.blocks && c in g.blocks && g.blocks[c] == h.blocks[c]
  }

  // The block at b is no longer loose; nothing else is changed in this.
  ghost predicate LooseLess(h: Heap, g: Heap, b: nat) {
    && (b in g.blocks ==> !g.blocks[b].Loose?)
    && forall c :: c != b && ((c in h.blocks && h.blocks[c].Loose?) || (c in g.blocks && g.blocks[c].Loose?)) ==>
         c in h.blocks && c in g.blocks && g.blocks[c] == h.blocks[c]
  }

  // Of the loose block at start only nu units from node on are left.
  ghost predicate Filling(h: Heap, g: Heap, start: nat, node: nat, nu: nat) {
    && SameLive(h, g) && node in g.blocks && g.blocks[node] == Loose(nu)
    && (forall c :: c in h.blocks ==> c in g.blocks)
    && (node != start ==> node !in h.blocks && start in g.blocks && !g.blocks[start].Loose?)
    && forall c :: c != node && c != start &&
                   ((c in h.blocks && h.blocks[c].Loose?) || (c in g.blocks && g.blocks[c].Loose?)) ==>
         c in h.blocks && c in g.blocks && g.blocks[c] == h.blocks[c]
  }

  lemma FillingStart(h: Heap, b: nat, nu: nat)
    requires b in h.blocks && h.blocks[b] == Loose(nu)
    ensures Filling(h, h, b, b, nu)
  {}

  lemma FillingNext(h: Heap, g: Heap, start: nat, node: nat, nu: nat, units: nat, i: nat)
    requires Filling(h, g, start, node, nu) && units < nu && node + UNIT * units !in g.blocks
    ensures Filling(h, Retag(Cut(g, node, Loose(units), Loose(nu - units)), node, Free(i)), start,
                    node + UNIT * units, nu - units)
  {}

  lemma FillingEnds(h: Heap, g: Heap, start: nat, node: nat, nu: nat, e: Heap)
    requires Filling(h, g, start, node, nu) && SameLive(g, e) && LooseLess(g, e, node)
    requires forall c :: c in g.blocks ==> c in e.blocks
    ensures SameLive(h, e) && LooseLess(h, e, start)
    ensures forall c :: c in h.blocks ==> c in e.blocks
  {}

  lemma FreedLoose(h: Heap, b: nat, i: nat)
    requires b in h.blocks && h.blocks[b].Loose?
    ensures var e := Retag(h, b, Free(i));
      SameLive(h, e) && LooseLess(h, e, b) && forall c :: c in h.blocks ==> c in e.blocks
  {}

  // In two pieces, the second one first.
  lemma FreedInTwo(h: Heap, b: nat, k: nat, nu: nat, j: nat, i: nat)
    requires b in h.blocks && h.blocks[b] == Loose(nu) && 0 < k < nu && b + UNIT * k !in h.blocks
    ensures var e := Retag(Retag(Cut(h, b, Loose(k), Loose(nu - k)), b + UNIT * k, Free(j)), b, Free(i));
      SameLive(h, e) && LooseLess(h, e, b) && forall c :: c in h.blocks ==> c in e.blocks
  {}

  lemma SameLiveTwice(h: Heap, g: Heap, e: Heap)
    requires SameLive(h, g) && SameLive(g, e)
    ensures SameLive(h, e)
  {}

  // ----- The lists of free blocks --------------------------------------------------------------

  function Head(l: seq<nat>): nat {
    if l == [] then 0 else l[0]
  }

  predicate NoRepeats(l: seq<nat>) {
    forall i, j :: 0 <= i < j < |l| ==> l[i] != l[j]
  }

  // The first word of a free block is the address of the next one.
  predicate Chain(mem: seq<nat>, l: seq<nat>) {
    && NoRepeats(l)
    && forall j :: 0 <= j < |l| ==> l[j] < |mem| && mem[l[j]] == Head(l[j + 1..])
  }

  predicate Lists(h: Heap, i: nat, l: seq<nat>) {
    && (forall b :: b in l ==> b in h.blocks && h.blocks[b] == Free(i))
    && (forall b :: b in h.blocks && h.blocks[b] == Free(i) ==> b in l)
  }

  predicate Linked(h: Heap, mem: seq<nat>, heads: seq<nat>, lists: seq<seq<nat>>) {
    && |heads| == |lists| == NUM_INDEXES
    && forall i :: 0 <= i < NUM_INDEXES ==> heads[i] == Head(lists[i]) && Chain(mem, lists[i]) && Lists(h, i, lists[i])
  }

  lemma LinkedHead(h: Heap, mem: seq<nat>, heads: seq<nat>, lists: seq<seq<nat>>, i: nat)
    requires Tiled(h) && Linked(h, mem, heads, lists) && i < NUM_INDEXES
    ensures |heads| == |lists| == NUM_INDEXES && heads[i] == Head(lists[i])
    ensures heads[i] == 0 <==> lists[i] == []
  {
    if lists[i] != [] {
      assert lists[i][0] in lists[i];
      assert Placed(h, lists[i][0]);
    }
  }

  lemma ChainKept(mem: seq<nat>, l: seq<nat>, w: nat, v: nat)
    requires Chain(mem, l) && w < |mem| && w !in l
    ensures Chain(mem[w := v], l)
  {}

  lemma ChainPushed(mem: seq<nat>, l: seq<nat>, b: nat)
    requires Chain(mem, l) && b < |mem| && b !in l
    ensures Chain(mem[b := Head(l)], [b] + l)
  {
    var m, k := mem[b := Head(l)], [b] + l;
    assert k[1..] == l;
    forall j | 0 <= j < |k|
      ensures k[j] < |m| && m[k[j]] == Head(k[j + 1..])
    {
      if j > 0 { assert k[j] == l[j - 1] && k[j + 1..] == l[j..]; }
    }
  }

  lemma ChainPopped(mem: seq<nat>, l: seq<nat>)
    requires Chain(mem, l) && l != []
    ensures Chain(mem, l[1..]) && mem[l[0]] == Head(l[1..]) && l[0] !in l[1..]
  {
    forall j | 0 <= j < |l[1..]|
      ensures l[1..][j] < |mem| && mem[l[1..][j]] == Head(l[1..][j + 1..])
    {
      assert l[1..][j] == l[j + 1] && l[1..][j + 1..] == l[j + 2..];
    }
  }

  // A block is put on the list of its class.
  lemma Pushed(h: Heap, mem: seq<nat>, heads: seq<nat>, lists: seq<seq<nat>>, b: nat, i: nat)
    requires Tiled(h) && |mem| == |h.owner| && Linked(h, mem, heads, lists)
    requires b in h.blocks && !h.blocks[b].Free? && i < NUM_INDEXES
    ensures b < |mem| &&
            Linked(Retag(h, b, Free(i)), mem[b := heads[i]], heads[i := b], lists[i := [b] + lists[i]])
  {
    assert Placed(h, b);
    var g, m := Retag(h, b, Free(i)), mem[b := heads[i]];
    var ls := lists[i := [b] + lists[i]];
    forall j | 0 <= j < NUM_INDEXES
      ensures heads[i := b][j] == Head(ls[j]) && Chain(m, ls[j]) && Lists(g, j, ls[j])
    {
      assert Lists(h, j, lists[j]);
      if j == i { ChainPushed(mem, lists[i], b); } else { ChainKept(mem, lists[j], b, heads[i]); }
    }
  }

  // And the first one is taken off.
  lemma Popped(h: Heap, mem: seq<nat>, heads: seq<nat>, lists: seq<seq<nat>>, i: nat)
    requires Tiled(h) && |mem| == |h.owner| && Linked(h, mem, heads, lists)
    requires i < NUM_INDEXES && heads[i] != 0
    ensures lists[i] != [] && heads[i] in h.blocks && h.blocks[heads[i]] == Free(i) && heads[i] < |mem|
    ensures Linked(Retag(h, heads[i], Live(i)), mem, heads[i := mem[heads[i]]], lists[i := lists[i][1..]])
  {
    var b := heads[i];
    assert Lists(h, i, lists[i]) && lists[i][0] == b;
    assert Placed(h, b);
    var g, ls := Retag(h, b, Live(i)), lists[i := lists[i][1..]];
    forall j | 0 <= j < NUM_INDEXES
      ensures heads[i := mem[b]][j] == Head(ls[j]) && Chain(mem, ls[j]) && Lists(g, j, ls[j])
    {
      assert Lists(h, j, lists[j]);
      if j == i { ChainPopped(mem, lists[i]); }
    }
  }

  // Lists do not see other blocks, nor the words in them.
  lemma LinkedKept(h: Heap, g: Heap, mem: seq<nat>, heads: seq<nat>, lists: seq<seq<nat>>)
    requires Linked(h, mem, heads, lists)
    requires forall b :: (b in h.blocks && h.blocks[b].Free?) <==> (b in g.blocks && g.blocks[b].Free?)
    requires forall b :: b in h.blocks && h.blocks[b].Free? ==> g.blocks[b] == h.blocks[b]
    ensures Linked(g, mem, heads, lists)
  {
    forall i | 0 <= i < NUM_INDEXES
      ensures Lists(g, i, lists[i])
    {
      assert Lists(h, i, lists[i]);
    }
  }

  lemma LinkedWrite(h: Heap, mem: seq<nat>, heads: seq<nat>, lists: seq<seq<nat>>, b: nat, w: nat, v: nat)
    requires Tiled(h) && |mem| == |h.owner| && Linked(h, mem, heads, lists)
    requires b in h.blocks && !h.blocks[b].Free? && b <= w < b + Size(h.blocks[b]) && w < |mem|
    ensures Linked(h, mem[w := v], heads, lists)
  {
    forall i | 0 <= i < NUM_INDEXES
      ensures Chain(mem[w := v], lists[i])
    {
      assert Lists(h, i, lists[i]);
      if w in lists[i] { Apart(h, b, w); }
      ChainKept(mem, lists[i], w, v);
    }
  }
}
