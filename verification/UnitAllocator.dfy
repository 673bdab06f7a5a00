/** The unit allocator of PPMd7: free lists for 38 sizes, a gap that is used up from both ends, and the end of
    the text area as the last resort. */
module UnitAllocator {

  import opened UnitClasses
  import opened UnitHeap

  const MIN_MEM_SIZE: nat := 0x800
  const MAX_MEM_SIZE: nat := 0xFFFF_FFFF - 36

  // A maximal run of free units, as the glue pass finds them.
  datatype Run = Run(node: nat, units: nat)

  // Runs that hold just the free units. Live blocks stay where they are.
  ghost predicate Merging(h: Heap, g: Heap, runs: seq<Run>) {
    && Tiled(g) && g.start == h.start && g.lo == h.lo && g.hi == h.hi && |g.owner| == |h.owner|
    && (forall b :: b in h.blocks && h.blocks[b].Live? ==> b in g.blocks && g.blocks[b] == h.blocks[b])
    && (forall b :: b in g.blocks && g.blocks[b].Live? ==> b in h.blocks && g.blocks[b] == h.blocks[b])
    && (forall b :: b in g.blocks ==> !g.blocks[b].Free?)
    && (forall r :: r in runs ==> IsLoose(g, r))
    && (forall b :: b in g.blocks && g.blocks[b].Loose? ==> Run(b, g.blocks[b].units) in runs)
    && (forall i, j :: 0 <= i < j < |runs| ==> runs[i] != runs[j])
  }

  predicate IsLoose(g: Heap, r: Run) {
    r.node in g.blocks && g.blocks[r.node] == Loose(r.units)
  }

  // The loose blocks are those of the runs.
  predicate Remaining(h: Heap, runs: seq<Run>) {
    && (forall r :: r in runs ==> IsLoose(h, r))
    && (forall b :: b in h.blocks && h.blocks[b].Loose? ==> Run(b, h.blocks[b].units) in runs)
  }

  lemma OneLess(g: Heap, h: Heap, runs: seq<Run>, r: nat)
    requires r < |runs| && (forall i, j :: 0 <= i < j < |runs| ==> runs[i] != runs[j])
    requires LooseLess(g, h, runs[r].node) && Remaining(g, runs[r..])
    ensures Remaining(h, runs[r + 1..])
  {
    assert runs[r] in runs[r..];
    forall x | x in runs[r + 1..]
      ensures IsLoose(h, x)
    {
      assert x in runs[r..] && IsLoose(g, x) && IsLoose(g, runs[r]);
    }
    forall b | b in h.blocks && h.blocks[b].Loose?
      ensures Run(b, h.blocks[b].units) in runs[r + 1..]
    {
      assert Run(b, h.blocks[b].units) in runs[r..];
    }
  }

  // ----- The free lists, by class -----------------------------------------------------------------

  // A block in front of its list.
  function Put(lists: seq<seq<nat>>, b: nat, i: nat): (r: seq<seq<nat>>)
    requires i < |lists| == NUM_INDEXES
    ensures |r| == NUM_INDEXES
  {
    lists[i := [b] + lists[i]]
  }

  // The first block of a list taken away.
  function Rest(lists: seq<seq<nat>>, i: nat): (r: seq<seq<nat>>)
    requires i < |lists| == NUM_INDEXES && lists[i] != []
    ensures |r| == NUM_INDEXES
  {
    lists[i := lists[i][1..]]
  }

  // Up to 128 units as one block, or as two, the second of them first.
  function Freed(lists: seq<seq<nat>>, ptr: nat, nu: nat): (r: seq<seq<nat>>)
    requires |lists| == NUM_INDEXES && 1 <= nu <= 128
    ensures |r| == NUM_INDEXES
  {
    var i := U2I(nu);
    if I2U(i) == nu then Put(lists, ptr, i)
    else
      RestIsClass(nu);
      Put(Put(lists, ptr + UNIT * I2U(i - 1), nu - I2U(i - 1) - 1), ptr, i - 1)
  }

  // Units that are a class become a block of it; others become a block of the greatest class below, and
  // one of the 1 to 3 units left, whose class is one less than their number.
  lemma FreedMeans(lists: seq<seq<nat>>, ptr: nat, nu: nat, i: nat)
    requires |lists| == NUM_INDEXES && 1 <= nu <= 128 && i < NUM_INDEXES
    ensures I2U(i) == nu ==> Freed(lists, ptr, nu) == Put(lists, ptr, i)
    ensures i + 1 < NUM_INDEXES && I2U(i) < nu < I2U(i + 1) ==>
      1 <= nu - I2U(i) <= 3 && I2U(nu - I2U(i) - 1) == nu - I2U(i) &&
      Freed(lists, ptr, nu) == Put(Put(lists, ptr + 3 * I2U(i), nu - I2U(i) - 1), ptr, i)
  {
    U2ILeast(nu, i);
    U2ILeast(nu, i + 1);
    if i > 0 { U2ILeast(nu, i - 1); }
    if I2U(U2I(nu)) != nu { RestIsClass(nu); }
    hide U2I;
  }

  // A run of any length, in blocks of 128 units as long as there are more.
  function Dealt(lists: seq<seq<nat>>, ptr: nat, nu: nat): (r: seq<seq<nat>>)
    requires |lists| == NUM_INDEXES && 1 <= nu
    ensures |r| == NUM_INDEXES
    decreases nu
  {
    if nu > 128 then Dealt(Put(lists, ptr, NUM_INDEXES - 1), ptr + UNIT * 128, nu - 128) else Freed(lists, ptr, nu)
  }

  function DealtAll(lists: seq<seq<nat>>, runs: seq<Run>): (r: seq<seq<nat>>)
    requires |lists| == NUM_INDEXES && forall x :: x in runs ==> 1 <= x.units
    ensures |r| == NUM_INDEXES
    decreases |runs|
  {
    if runs == [] then lists else DealtAll(Dealt(lists, runs[0].node, runs[0].units), runs[1..])
  }

  lemma FirstPlaces(size: nat)
    ensures (4 - size % 4 + size) % 4 == 0 && UNIT * (size / 8 / 12 * 7) == 21 * (size / 96)
    ensures 4 * ((4 - size % 4 + size) / 4) == 4 - size % 4 + size
  {
    assert size / 8 / 12 == size / 96;
  }

  lemma ClassesOrdered(n: nat, m: nat)
    requires 1 <= n <= m <= 128
    ensures I2U(U2I(n)) <= I2U(U2I(m)) <= 128 && (U2I(n) != U2I(m) ==> I2U(U2I(n)) < I2U(U2I(m)))
  {
    U2IGrows(n, m);
    U2ILeast(n, U2I(m));
    if U2I(m) < NUM_INDEXES - 1 { ClassesInside(NUM_INDEXES - 1, U2I(m)); } else { EndClasses(); }
    if U2I(n) < U2I(m) { I2UGrows(U2I(n), U2I(m)); }
  }

  lemma ClassesInside(i: nat, j: nat)
    requires j < i < NUM_INDEXES
    ensures I2U(j) < I2U(i) <= 128
  {}

  // The first class above indx that has a block, if any has.
  predicate NextClass(lists: seq<seq<nat>>, indx: nat, i: nat)
    requires |lists| == NUM_INDEXES
  {
    indx < i <= NUM_INDEXES && (forall j :: indx < j < i ==> lists[j] == []) && (i < NUM_INDEXES ==> lists[i] != [])
  }

  class Allocator {
    var mem: array<nat>         // words; block addresses are indexes of it
    var freeList: array<nat>
    var text: nat               // in bytes
    var unitsStart: nat
    var loUnit: nat
    var hiUnit: nat
    var glueCount: nat
    ghost var h: Heap
    ghost var lists: seq<seq<nat>>

    ghost predicate Sound()
      reads this, mem, freeList
    {
      && mem != freeList && freeList.Length == |lists| == NUM_INDEXES && mem.Length == |h.owner|
      && Tiled(h) && Linked(h, mem[..], freeList[..], lists)
      && unitsStart == h.start && loUnit == h.lo && hiUnit == h.hi
      && loUnit <= hiUnit && (hiUnit - loUnit) % UNIT == 0 && text <= 4 * unitsStart
    }

    ghost predicate Valid()
      reads this, mem, freeList
    {
      Sound() && forall b :: b in h.blocks ==> !h.blocks[b].Loose?
    }

    // What the live blocks hold, by address.
    ghost function Live(): map<nat, seq<nat>>
      reads this, mem, freeList
      requires Sound()
    {
      Contents(h, mem[..])
    }

    ghost predicate Has(b: nat, i: nat)
      reads this
    {
      b in h.blocks && h.blocks[b] == Block.Live(i)
    }

    // The beginning of a model: one context, and one block for all 256 symbols.
    constructor (size: nat)
      requires MIN_MEM_SIZE <= size <= MAX_MEM_SIZE
      ensures Valid() && fresh(mem) && fresh(freeList) && glueCount == 0
      ensures Has(hiUnit, 0) && Has(unitsStart, NUM_INDEXES - 1) && hiUnit != unitsStart
      ensures Live().Keys == {hiUnit, unitsStart}
      ensures text == 4 - size % 4 && 4 * (hiUnit + 3) == text + size && loUnit == unitsStart + 384
      ensures unitsStart == hiUnit + 3 - 21 * (size / 96) && forall i :: 0 <= i < NUM_INDEXES ==> lists[i] == []
    {
      hide I2U, Tiled, Linked, Contents;
      var alignOffset := 4 - size % 4;
      var top := (alignOffset + size) / 4;
      var start := top - UNIT * (size / 8 / 12 * 7);
      FirstPlaces(size);
      mem, freeList := new nat[top](_ => 0), new nat[NUM_INDEXES](_ => 0);
      text, glueCount := alignOffset, 0;
      unitsStart, loUnit, hiUnit := start, start + UNIT * 128, top - UNIT;
      h := Heap(map[], seq(top, _ => 0), start, start, top);
      lists := seq(NUM_INDEXES, _ => []);
      new;
      FirstBlocks();
    }

    ghost method FirstBlocks()
      requires mem != freeList && freeList.Length == |lists| == NUM_INDEXES && mem.Length == |h.owner| == h.hi
      requires h.blocks == map[] && 0 < unitsStart == h.start == h.lo && text <= 4 * unitsStart
      requires forall i :: 0 <= i < NUM_INDEXES ==> freeList[i] == 0 && lists[i] == []
      requires loUnit == h.lo + UNIT * 128 <= hiUnit == h.hi - UNIT && (hiUnit - loUnit) % UNIT == 0
      modifies this`h
      ensures Valid() && Has(hiUnit, 0) && Has(unitsStart, NUM_INDEXES - 1)
      ensures Live().Keys == {hiUnit, unitsStart}
    {
      hide I2U, Tiled, Linked, Contents;
      EndClasses();
      EmptyHeap(h, mem[..], freeList[..], lists);
      Place(hiUnit, 0, Added(h, hiUnit, Block.Live(0)).(hi := hiUnit));
      Place(unitsStart, NUM_INDEXES - 1, Added(h, unitsStart, Block.Live(NUM_INDEXES - 1)).(lo := loUnit));
    }

    // Nothing but these changes in the lists' own operations.
    twostate predicate SameBounds()
      reads this
    {
      && mem == old(mem) && freeList == old(freeList) && text == old(text) && unitsStart == old(unitsStart)
      && loUnit == old(loUnit) && hiUnit == old(hiUnit)
    }

    // A block that is not needed any more.
    method InsertNode(node: nat, indx: nat)
      requires Sound() && indx < NUM_INDEXES && node in h.blocks && !h.blocks[node].Free?
      requires Units(h.blocks[node]) == I2U(indx)
      modifies this`h, this`lists, mem, freeList
      ensures Sound() && SameBounds() && Live() == old(Live()) - {node}
      ensures old(h).blocks[node].Loose? ==> Live() == old(Live())
      ensures old(Valid()) ==> Valid()
      ensures h == Retag(old(h), node, Free(indx)) && lists == Put(old(lists), node, indx)
    {
      hide Tiled, Linked, I2U;
      Pushed(h, mem[..], freeList[..], lists, node, indx);
      RetagTiled(h, node, Free(indx));
      FreedContents(h, mem[..], node, indx, freeList[indx]);
      mem[node] := freeList[indx];
      freeList[indx] := node;
      h := Retag(h, node, Free(indx));
      lists := lists[indx := [node] + lists[indx]];
    }

    // A block of the class, if there is a free one.
    method RemoveNode(indx: nat) returns (node: nat)
      requires Sound() && indx < NUM_INDEXES && freeList[indx] != 0
      modifies this`h, this`lists, freeList
      ensures Sound() && SameBounds() && node != 0 && node in old(h).blocks && old(h).blocks[node] == Free(indx)
      ensures h == Retag(old(h), node, Block.Live(indx))
      ensures Gains(old(Live()), Live(), node, indx)
      ensures old(lists[indx]) != [] && node == old(lists[indx][0]) && lists == Rest(old(lists), indx)
    {
      hide Tiled, Linked, I2U;
      Popped(h, mem[..], freeList[..], lists, indx);
      LinkedHead(h, mem[..], freeList[..], lists, indx);
      node := freeList[indx];
      TakenContents(h, mem[..], node, indx);
      freeList[indx] := mem[node];
      h := Retag(h, node, Block.Live(indx));
      lists := lists[indx := lists[indx][1..]];
    }

    ghost method CutLoose(b: nat, units: nat)
      requires Sound() && b in h.blocks && h.blocks[b].Loose? && 0 < units < h.blocks[b].units
      modifies this`h
      ensures Sound() && SameBounds() && Live() == old(Live())
      ensures var g := Cut(old(h), b, Loose(units), Loose(old(h).blocks[b].units - units));
              h == g && b + UNIT * units !in old(h).blocks
    {
      hide Linked, I2U, Tiled, Contents;
      var k1, k2 := Loose(units), Loose(h.blocks[b].units - units);
      CutContents(h, mem[..], b, k1, k2);
      CutTiled(h, b, k1, k2);
      CutLinked(h, mem[..], freeList[..], lists, b, k1, k2);
      h := Cut(h, b, k1, k2);
    }

    // Up to 128 units that are to be free: one block of a class, or two.
    method InsertUnits(ptr: nat, nu: nat)
      requires Sound() && ptr in h.blocks && h.blocks[ptr] == Loose(nu) && 1 <= nu <= 128
      modifies this`h, this`lists, mem, freeList
      ensures Sound() && SameBounds() && Live() == old(Live())
      ensures SameLive(old(h), h) && LooseLess(old(h), h, ptr) && forall c :: c in old(h).blocks ==> c in h.blocks
      ensures lists == Freed(old(lists), ptr, nu)
    {
      hide Tiled, Linked, Contents, I2U, U2I, SameLive, LooseLess;
      var i: nat := U2I(nu);
      if I2U(i) != nu {
        RestIsClass(nu);
        i := i - 1;
        var k := I2U(i);
        CutLoose(ptr, k);
        FreedInTwo(old(h), ptr, k, nu, nu - k - 1, i);
        InsertNode(ptr + UNIT * k, nu - k - 1);
      } else {
        FreedLoose(h, ptr, i);
      }
      InsertNode(ptr, i);
    }

    method FillRun(run: Run)
      requires Sound() && IsLoose(h, run) && run.units > 0
      modifies this`h, this`lists, mem, freeList
      ensures Sound() && SameBounds() && Live() == old(Live())
      ensures SameLive(old(h), h) && LooseLess(old(h), h, run.node) && forall c :: c in old(h).blocks ==> c in h.blocks
      ensures lists == Dealt(old(lists), run.node, run.units)
    {
      hide Tiled, Linked, Contents, I2U, U2I, SameLive, LooseLess, Freed;
      EndClasses();
      var node: nat, nu: nat := run.node, run.units;
      FillingStart(h, node, nu);
      while nu > 128
        invariant Sound() && SameBounds() && Live() == old(Live()) && nu > 0
        invariant Filling(old(h), h, run.node, node, nu)
        invariant Dealt(lists, node, nu) == Dealt(old(lists), run.node, run.units)
        decreases nu
      {
        ghost var g := h;
        CutLoose(node, 128);
        FillingNext(old(h), g, run.node, node, nu, 128, NUM_INDEXES - 1);
        InsertNode(node, NUM_INDEXES - 1);
        node, nu := node + UNIT * 128, nu - 128;
      }
      ghost var g := h;
      InsertUnits(node, nu);
      FillingEnds(old(h), g, run.node, node, nu, h);
    }

    // Neighbouring free blocks are joined and dealt out again. How the runs are found is not described, only
    // that they are the free units.
    method GlueFreeBlocks(runs: seq<Run>, ghost merged: Heap)
      requires Valid() && Merging(h, merged, runs)
      modifies this`h, this`lists, this`glueCount, mem, freeList
      ensures Valid() && SameBounds() && Live() == old(Live()) && SameLive(old(h), h) && glueCount == 255
      ensures (forall x :: x in runs ==> 1 <= x.units) && lists == DealtAll(seq(NUM_INDEXES, _ => []), runs)
    {
      hide Tiled, Linked, Contents, I2U, U2I, SameLive, LooseLess, Remaining, Dealt;
      glueCount := 255;
      var i := 0;
      while i < NUM_INDEXES
        invariant i <= NUM_INDEXES && forall j :: 0 <= j < i ==> freeList[j] == 0
        invariant mem[..] == old(mem[..]) && h == old(h) && glueCount == 255
      {
        freeList[i] := 0;
        i := i + 1;
      }
      h := merged;
      lists := seq(NUM_INDEXES, _ => []);
      Emptied(old(h), h, mem[..], freeList[..], lists);
      MergedRemain(old(h), runs);
      RunsHold(old(h), runs);
      ghost var empty := lists;
      assert runs[0..] == runs;
      var r := 0;
      while r < |runs|
        invariant r <= |runs| && Sound() && SameBounds() && Live() == old(Live()) && glueCount == 255
        invariant SameLive(old(h), h) && Remaining(h, runs[r..])
        invariant DealtAll(lists, runs[r..]) == DealtAll(empty, runs)
      {
        assert runs[r..] == [runs[r]] + runs[r + 1..];
        FirstRun(runs[r], runs[r + 1..]);
        ghost var g := h;
        FillRun(runs[r]);
        SameLiveTwice(old(h), g, h);
        OneLess(g, h, runs, r);
        r := r + 1;
      }
      assert runs[r..] == [];
      NoneRemain();
    }

    lemma MergedRemain(g: Heap, runs: seq<Run>)
      requires Merging(g, h, runs)
      ensures Remaining(h, runs) && SameLive(g, h)
    {}

    lemma RunsHold(g: Heap, runs: seq<Run>)
      requires Merging(g, h, runs)
      ensures forall x :: x in runs ==> 1 <= x.units
    {
      forall x | x in runs
        ensures 1 <= x.units
      {
        assert IsLoose(h, x) && Placed(h, x.node);
      }
    }

    lemma FirstRun(r: Run, rest: seq<Run>)
      requires Sound() && Remaining(h, [r] + rest)
      ensures IsLoose(h, r) && r.units > 0
    {
      assert r in [r] + rest;
      assert Placed(h, r.node);
    }

    lemma NoneRemain()
      requires Remaining(h, [])
      ensures forall b :: b in h.blocks ==> !h.blocks[b].Loose?
    {}

    // The rest of a block that is too large goes to the free lists.
    method SplitBlock(ptr: nat, oldIndx: nat, newIndx: nat)
      requires Valid() && newIndx < oldIndx < NUM_INDEXES && Has(ptr, oldIndx)
      modifies this`h, this`lists, mem, freeList
      ensures Valid() && SameBounds() && Has(ptr, newIndx) && ptr in old(Live())
      ensures I2U(newIndx) < I2U(oldIndx) <= 128
      ensures lists == Freed(old(lists), ptr + 3 * I2U(newIndx), I2U(oldIndx) - I2U(newIndx))
      ensures UNIT * I2U(newIndx) <= |old(Live()[ptr])|
      ensures Live() == old(Live())[ptr := old(Live()[ptr])[..UNIT * I2U(newIndx)]]
    {
      hide Tiled, Linked, Contents, I2U, U2I, SameLive, LooseLess;
      ClassesInside(oldIndx, newIndx);
      CutLive(ptr, oldIndx, newIndx);
      ghost var g := h;
      InsertUnits(ptr + UNIT * I2U(newIndx), I2U(oldIndx) - I2U(newIndx));
      AfterSplit(old(h), g, h, ptr, oldIndx, newIndx);
    }

    lemma AfterSplit(h0: Heap, g: Heap, e: Heap, ptr: nat, oldIndx: nat, newIndx: nat)
      requires newIndx < oldIndx && ptr in h0.blocks && h0.blocks[ptr] == Block.Live(oldIndx)
      requires g == Cut(h0, ptr, Block.Live(newIndx), Loose(I2U(oldIndx) - I2U(newIndx)))
      requires ptr + UNIT * I2U(newIndx) !in h0.blocks && forall b :: b in h0.blocks ==> !h0.blocks[b].Loose?
      requires SameLive(g, e) && LooseLess(g, e, ptr + UNIT * I2U(newIndx))
      ensures ptr in e.blocks && e.blocks[ptr] == Block.Live(newIndx)
      ensures forall b :: b in e.blocks ==> !e.blocks[b].Loose?
    {
      hide I2U;
      assert ptr in g.blocks && g.blocks[ptr] == Block.Live(newIndx);
    }

    ghost method CutLive(b: nat, oldIndx: nat, newIndx: nat)
      requires Sound() && newIndx < oldIndx < NUM_INDEXES && Has(b, oldIndx)
      modifies this`h
      ensures Sound() && SameBounds() && b in old(Live()) && UNIT * I2U(newIndx) <= |old(Live()[b])|
      ensures 0 < I2U(oldIndx) - I2U(newIndx) < 128 && b + UNIT * I2U(newIndx) !in old(h).blocks
      ensures h == Cut(old(h), b, Block.Live(newIndx), Loose(I2U(oldIndx) - I2U(newIndx)))
      ensures Live() == old(Live())[b := old(Live()[b])[..UNIT * I2U(newIndx)]]
      ensures h.blocks[b + UNIT * I2U(newIndx)] == Loose(I2U(oldIndx) - I2U(newIndx))
    {
      hide Linked, I2U, Tiled, Contents;
      UnitHeap.CutLive(h, mem[..], b, oldIndx, newIndx);
      var k1, k2 := Block.Live(newIndx), Loose(I2U(oldIndx) - I2U(newIndx));
      CutLinked(h, mem[..], freeList[..], lists, b, k1, k2);
      h := Cut(h, b, k1, k2);
    }

    // A new block, apart from all the others.
    twostate predicate NewBlock(node: nat, i: nat)
      reads this, mem, freeList
      requires old(Sound()) && Sound()
    {
      node != 0 && Has(node, i) && Gains(old(Live()), Live(), node, i)
    }

    // No free block is large enough, and the text is too near.
    predicate NoRoom(i: nat)
      reads this, freeList
    {
      && (forall j :: i <= j < NUM_INDEXES && j < freeList.Length ==> freeList[j] == 0)
      && 4 * unitsStart - text <= 12 * I2U(i)
    }

    // Which block it is. The lists are mid once the blocks have been glued, if it is time to; then the first
    // block of the class after that, or of the next class that has one, whose rest is put back; or else units
    // below the others, if they leave room for the text.
    twostate predicate Rarely(indx: nat, runs: seq<Run>, mid: seq<seq<nat>>, from: nat, node: nat)
      reads this
    {
      && indx < NUM_INDEXES && |old(lists)| == |mid| == NUM_INDEXES
      && (if old(glueCount) == 0
          then (forall x :: x in runs ==> 1 <= x.units) && mid == DealtAll(seq(NUM_INDEXES, _ => []), runs)
          else mid == old(lists) && mid[indx] == [])
      && var count := if old(glueCount) == 0 then 255 else old(glueCount);
      if mid[indx] != [] then
        node == mid[indx][0] && lists == Rest(mid, indx) && unitsStart == old(unitsStart) && glueCount == count
      else if from < NUM_INDEXES then
        && NextClass(mid, indx, from) && node == mid[from][0] && 0 < I2U(from) - I2U(indx) <= 128
        && lists == Freed(Rest(mid, from), node + 3 * I2U(indx), I2U(from) - I2U(indx))
        && unitsStart == old(unitsStart) && glueCount == count
      else
        && NextClass(mid, indx, from) && lists == mid && glueCount == count - 1
        && if 4 * old(unitsStart) - text > 12 * I2U(indx)
           then node == unitsStart == old(unitsStart) - 3 * I2U(indx)
           else node == 0 && unitsStart == old(unitsStart)
    }

    // When there is no free block of the class and no room in the gap: glue if it is time to, then take a
    // larger block, then some of the room that is left for the text.
    method AllocUnitsRare(indx: nat, runs: seq<Run>, ghost merged: Heap)
        returns (node: nat, ghost mid: seq<seq<nat>>, ghost from: nat)
      requires Valid() && indx < NUM_INDEXES && freeList[indx] == 0
      requires glueCount == 0 ==> Merging(h, merged, runs)
      modifies this`h, this`lists, this`glueCount, this`unitsStart, mem, freeList
      ensures Valid() && mem == old(mem) && freeList == old(freeList) && text == old(text)
      ensures loUnit == old(loUnit) && hiUnit == old(hiUnit)
      ensures if node != 0 then NewBlock(node, indx) else Live() == old(Live()) && NoRoom(indx)
      ensures Rarely(indx, runs, mid, from, node)
    {
      hide Tiled, Linked, Contents, I2U, U2I, SameLive, LooseLess, Freed, DealtAll;
      mid, from := lists, 0;
      LinkedHead(h, mem[..], freeList[..], lists, indx);
      if glueCount == 0 {
        GlueFreeBlocks(runs, merged);
        mid := lists;
        LinkedHead(h, mem[..], freeList[..], lists, indx);
        if freeList[indx] != 0 {
          node := RemoveNode(indx);
          return;
        }
      }
      var i := indx + 1;
      while i < NUM_INDEXES && freeList[i] == 0
        invariant indx < i <= NUM_INDEXES && forall j :: indx <= j < i ==> freeList[j] == 0
      {
        i := i + 1;
      }
      from := i;
      SearchedLists(indx, i);
      if i == NUM_INDEXES {
        glueCount := glueCount - 1;
        if 4 * unitsStart - text > 12 * I2U(indx) {
          node := GrowDown(indx);
        } else {
          node := 0;
        }
        return;
      }
      node := RemoveNode(i);
      SplitBlock(node, i, indx);
    }

    lemma SearchedLists(indx: nat, i: nat)
      requires Sound() && indx < i <= NUM_INDEXES && (forall j :: indx <= j < i ==> freeList[j] == 0)
      requires i < NUM_INDEXES ==> freeList[i] != 0
      ensures |lists| == NUM_INDEXES && NextClass(lists, indx, i)
    {
      hide Tiled, Linked, I2U;
      forall j | indx < j <= i && j < NUM_INDEXES
        ensures freeList[j] == 0 <==> lists[j] == []
      {
        LinkedHead(h, mem[..], freeList[..], lists, j);
      }
    }

    method GrowDown(indx: nat) returns (node: nat)
      requires Valid() && indx < NUM_INDEXES && 4 * unitsStart - text > 12 * I2U(indx)
      modifies this`h, this`unitsStart
      ensures Valid() && mem == old(mem) && freeList == old(freeList) && text == old(text)
      ensures loUnit == old(loUnit) && hiUnit == old(hiUnit) && glueCount == old(glueCount)
      ensures NewBlock(node, indx) && lists == old(lists) && node == unitsStart == old(unitsStart) - 3 * I2U(indx)
    {
      hide Tiled, Linked, I2U, Contents;
      node := unitsStart - UNIT * I2U(indx);
      unitsStart := node;
      Place(node, indx, Added(h, node, Block.Live(indx)).(start := node));
    }

    // The new block in the partition.
    ghost method Place(b: nat, i: nat, g: Heap)
      requires Tiled(h) && mem.Length == |h.owner| && Linked(h, mem[..], freeList[..], lists) && i < NUM_INDEXES
      requires Extends(h, g, b, Block.Live(i))
      modifies this`h
      ensures h == g && Tiled(h) && mem.Length == |h.owner| && Linked(h, mem[..], freeList[..], lists)
      ensures b !in old(h).blocks && b != 0 && Gains(Contents(old(h), mem[..]), Contents(h, mem[..]), b, i)
    {
      hide Linked, I2U, Contents;
      AddedContents(h, g, mem[..], b, i);
      AddedTiled(h, g, b, Block.Live(i));
      LinkedKept(h, g, mem[..], freeList[..], lists);
      h := g;
    }

    // The first free block of the class, or the lower end of the gap, or what is left.
    method AllocUnits(indx: nat, runs: seq<Run>, ghost merged: Heap)
        returns (node: nat, ghost mid: seq<seq<nat>>, ghost from: nat)
      requires Valid() && indx < NUM_INDEXES
      requires glueCount == 0 ==> Merging(h, merged, runs)
      modifies this`h, this`lists, this`glueCount, this`unitsStart, this`loUnit, mem, freeList
      ensures Valid() && mem == old(mem) && freeList == old(freeList) && text == old(text)
      ensures if node != 0 then NewBlock(node, indx)
              else Live() == old(Live()) && NoRoom(indx) && hiUnit - loUnit < UNIT * I2U(indx)
      ensures |old(lists)| == NUM_INDEXES && hiUnit == old(hiUnit)
      ensures if old(lists[indx]) != [] then
                node == old(lists[indx][0]) && lists == Rest(old(lists), indx) && loUnit == old(loUnit) &&
                unitsStart == old(unitsStart) && glueCount == old(glueCount)
              else if 3 * I2U(indx) <= old(hiUnit - loUnit) then
                node == old(loUnit) && loUnit == node + 3 * I2U(indx) && lists == old(lists) &&
                unitsStart == old(unitsStart) && glueCount == old(glueCount)
              else loUnit == old(loUnit) && Rarely(indx, runs, mid, from, node)
    {
      hide Tiled, Linked, Contents, I2U, Rarely;
      LinkedHead(h, mem[..], freeList[..], lists, indx);
      mid, from := [], 0;
      if freeList[indx] != 0 {
        node := RemoveNode(indx);
        return;
      }
      var size := UNIT * I2U(indx);
      if size <= hiUnit - loUnit {
        node := loUnit;
        loUnit := loUnit + size;
        Place(node, indx, Added(h, node, Block.Live(indx)).(lo := node + size));
        return;
      }
      node, mid, from := AllocUnitsRare(indx, runs, merged);
    }

    // A unit for a context, from the upper end of the gap if it is not used up.
    method AllocContext(runs: seq<Run>, ghost merged: Heap)
        returns (node: nat, ghost mid: seq<seq<nat>>, ghost from: nat)
      requires Valid()
      requires glueCount == 0 ==> Merging(h, merged, runs)
      modifies this`h, this`lists, this`glueCount, this`unitsStart, this`hiUnit, mem, freeList
      ensures Valid() && mem == old(mem) && freeList == old(freeList) && text == old(text)
      ensures if node != 0 then NewBlock(node, 0) else Live() == old(Live()) && NoRoom(0) && hiUnit == loUnit
      ensures |old(lists)| == NUM_INDEXES && loUnit == old(loUnit)
      ensures if old(hiUnit != loUnit) then
                node == hiUnit == old(hiUnit) - 3 && lists == old(lists) && unitsStart == old(unitsStart) &&
                glueCount == old(glueCount)
              else if old(lists[0]) != [] then
                node == old(lists[0][0]) && lists == Rest(old(lists), 0) && hiUnit == old(hiUnit) &&
                unitsStart == old(unitsStart) && glueCount == old(glueCount)
              else hiUnit == old(hiUnit) && Rarely(0, runs, mid, from, node)
    {
      hide Tiled, Linked, Contents, Rarely;
      LinkedHead(h, mem[..], freeList[..], lists, 0);
      mid, from := [], 0;
      if hiUnit != loUnit {
        hiUnit := hiUnit - UNIT;
        node := hiUnit;
        Place(node, 0, Added(h, node, Block.Live(0)).(hi := node));
      } else if freeList[0] != 0 {
        node := RemoveNode(0);
      } else {
        node, mid, from := AllocUnitsRare(0, runs, merged);
      }
    }

    // What the model does with its blocks.
    method WriteWord(b: nat, i: nat, k: nat, v: nat)
      requires Valid() && Has(b, i) && k < UNIT * I2U(i)
      modifies mem
      ensures Valid() && b in old(Live()) && k < |old(Live()[b])|
      ensures var words: seq<nat> := old(Live()[b])[k := v]; Live() == old(Live())[b := words]
      ensures forall w :: 0 <= w < mem.Length && w != b + k ==> mem[w] == old(mem[w])
    {
      hide Tiled, Linked, Contents, I2U;
      LiveIs(h, mem[..], b, i);
      WordsAre(h, mem[..], b);
      WrittenContents(h, mem[..], b, k, v);
      LinkedWrite(h, mem[..], freeList[..], lists, b, b + k, v);
      mem[b + k] := v;
    }

    // A character of text.
    method AddText()
      requires Valid() && text < 4 * unitsStart
      modifies this`text
      ensures Valid() && text == old(text) + 1 && Live() == old(Live())
    {
      text := text + 1;
    }

    // The first units of one block into another.
    method CopyUnits(dest: nat, i: nat, src: nat, j: nat, num: nat)
      requires Valid() && Has(dest, i) && Has(src, j) && dest != src && 1 <= num <= I2U(i) && num <= I2U(j)
      modifies mem
      ensures Valid() && dest in old(Live()) && src in old(Live()) && dest in Live()
      ensures Live() == old(Live())[dest := Live()[dest]] && |Live()[dest]| == |old(Live()[dest])| == UNIT * I2U(i)
      ensures UNIT * num <= |old(Live()[src])| && Live()[dest][..UNIT * num] == old(Live()[src])[..UNIT * num]
    {
      hide Tiled, Linked, Contents, I2U;
      LiveIs(h, mem[..], src, j);
      LiveIs(h, mem[..], dest, i);
      BlocksApart(dest, i, src, j);
      ghost var from := Live()[src];
      var k := 0;
      while k < UNIT * num
        invariant 0 <= k <= UNIT * num && Valid() && dest in Live() && |Live()[dest]| == UNIT * I2U(i)
        invariant Live() == old(Live())[dest := Live()[dest]] && Live()[dest][..k] == from[..k]
      {
        LiveIs(h, mem[..], src, j);
        assert mem[src + k] == from[k];
        ghost var was := Live()[dest];
        WriteWord(dest, i, k, mem[src + k]);
        assert Live()[dest][..k + 1] == was[..k] + [from[k]];
        k := k + 1;
      }
    }

    lemma BlocksApart(b: nat, i: nat, c: nat, j: nat)
      requires Sound() && Has(b, i) && Has(c, j) && b != c
      ensures b + UNIT * I2U(i) <= c || c + UNIT * I2U(j) <= b
    {
      Apart(h, b, c);
    }

    // A smaller block with the same beginning.
    method ShrinkUnits(oldPtr: nat, oldNU: nat, newNU: nat) returns (ptr: nat)
      requires Valid() && 1 <= newNU <= oldNU <= 128 && Has(oldPtr, U2I(oldNU))
      modifies this`h, this`lists, mem, freeList
      ensures Valid() && SameBounds() && Has(ptr, U2I(newNU)) && oldPtr in old(Live()) && ptr in Live()
      ensures ptr != oldPtr ==> ptr !in old(Live())
      ensures Live() == (old(Live()) - {oldPtr})[ptr := Live()[ptr]]
      ensures |Live()[ptr]| == UNIT * I2U(U2I(newNU))
      ensures UNIT * newNU <= |Live()[ptr]| <= |old(Live()[oldPtr])|
      ensures Live()[ptr][..UNIT * newNU] == old(Live()[oldPtr])[..UNIT * newNU]
      ensures |old(lists)| == NUM_INDEXES && I2U(U2I(newNU)) <= I2U(U2I(oldNU)) <= 128
      ensures if U2I(newNU) == U2I(oldNU) then ptr == oldPtr && lists == old(lists)
              else if old(lists[U2I(newNU)]) != [] then
                ptr == old(lists[U2I(newNU)][0]) &&
                lists == Put(Rest(old(lists), U2I(newNU)), oldPtr, U2I(oldNU))
              else
                ptr == oldPtr && I2U(U2I(newNU)) < I2U(U2I(oldNU)) &&
                lists == Freed(old(lists), ptr + 3 * I2U(U2I(newNU)), I2U(U2I(oldNU)) - I2U(U2I(newNU)))
    {
      hide Tiled, Linked, Contents, I2U, U2I, Freed;
      LinkedHead(h, mem[..], freeList[..], lists, U2I(newNU));
      ClassesOrdered(newNU, oldNU);
      var i0, i1 := U2I(oldNU), U2I(newNU);
      U2IGrows(newNU, oldNU);
      LiveIs(h, mem[..], oldPtr, i0);
      if i0 == i1 {
        ptr := oldPtr;
      } else if freeList[i1] != 0 {
        ptr := RemoveNode(i1);
        CopyUnits(ptr, i1, oldPtr, i0, newNU);
        InsertNode(oldPtr, i0);
      } else {
        SplitBlock(oldPtr, i0, i1);
        ptr := oldPtr;
      }
    }
  }
}
