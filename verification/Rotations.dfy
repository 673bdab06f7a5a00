// Cyclic rotations of a block of bytes, how they compare, and partitions of the positions into
// groups that are in order.

module Rotations {
  import opened Words

  function At(data: seq<Byte>, p: nat, k: nat): Byte
    requires data != []
  {
    data[(p + k) % |data|]
  }

  // The rotations at p and q agree on their first h bytes.
  ghost predicate Shares(data: seq<Byte>, p: nat, q: nat, h: nat)
    requires data != []
  {
    forall k: nat :: k < h ==> At(data, p, k) == At(data, q, k)
  }

  ghost predicate LessAt(data: seq<Byte>, p: nat, q: nat, k: nat)
    requires data != []
  {
    Shares(data, p, q, k) && At(data, p, k) < At(data, q, k)
  }

  // The rotation at p is smaller than that at q.
  ghost predicate Less(data: seq<Byte>, p: nat, q: nat)
    requires data != []
  {
    exists k: nat :: LessAt(data, p, q, k)
  }

  function Ahead(n: nat, p: nat, h: nat): (q: nat)
    requires n >= 1
    ensures q < n
  {
    (p + h) % n
  }

  lemma AtAhead(data: seq<Byte>, p: nat, h: nat, k: nat)
    requires data != []
    ensures At(data, Ahead(|data|, p, h), k) == At(data, p, h + k)
  {
    ModPart(p + h, k, |data|);
  }

  // Two rotations that agree on h bytes compare like the rotations h places ahead.
  lemma LessAhead(data: seq<Byte>, p: nat, q: nat, h: nat)
    requires data != [] && Shares(data, p, q, h)
    requires Less(data, Ahead(|data|, p, h), Ahead(|data|, q, h))
    ensures Less(data, p, q)
  {
    var k: nat :| LessAt(data, Ahead(|data|, p, h), Ahead(|data|, q, h), k);
    SharesAhead(data, p, q, h, k);
    AtAhead(data, p, h, k);
    AtAhead(data, q, h, k);
    assert LessAt(data, p, q, h + k);
  }

  lemma SharesAhead(data: seq<Byte>, p: nat, q: nat, h: nat, k: nat)
    requires data != [] && Shares(data, p, q, h)
    requires Shares(data, Ahead(|data|, p, h), Ahead(|data|, q, h), k)
    ensures Shares(data, p, q, h + k)
  {
    forall j: nat | j < h + k
      ensures At(data, p, j) == At(data, q, j)
    {
      if j >= h {
        AtAhead(data, p, h, j - h);
        AtAhead(data, q, h, j - h);
        assert At(data, Ahead(|data|, p, h), j - h) == At(data, Ahead(|data|, q, h), j - h);
      }
    }
  }

  lemma SharedByte(data: seq<Byte>, p: nat, q: nat, h: nat, k: nat)
    requires data != []
    ensures Shares(data, p, q, h) && k < h ==> At(data, p, k) == At(data, q, k)
  {}

  lemma SharesLess(data: seq<Byte>, p: nat, q: nat, h: nat, k: nat)
    requires data != []
    ensures Shares(data, p, q, h) && k <= h ==> Shares(data, p, q, k)
  {}

  lemma NotBothAt(data: seq<Byte>, p: nat, q: nat, k: nat, j: nat)
    requires data != [] && LessAt(data, p, q, k)
    ensures !LessAt(data, q, p, j)
  {
    SharedByte(data, p, q, k, j);
    SharedByte(data, q, p, j, k);
  }

  lemma NotBoth(data: seq<Byte>, p: nat, q: nat)
    requires data != [] && Less(data, p, q)
    ensures !Less(data, q, p)
  {
    var k: nat :| LessAt(data, p, q, k);
    forall j: nat
      ensures !LessAt(data, q, p, j)
    {
      NotBothAt(data, p, q, k, j);
    }
  }

  // Rotations that agree on the length of the block agree everywhere.
  lemma {:induction false} SharesBlock(data: seq<Byte>, p: nat, q: nat, k: nat)
    requires data != [] && Shares(data, p, q, |data|)
    ensures At(data, p, k) == At(data, q, k)
    decreases k
  {
    var n := |data|;
    if k >= n {
      SharesBlock(data, p, q, k - n);
      ModShift(p + (k - n), 1, n);
      ModShift(q + (k - n), 1, n);
    }
  }

  lemma EqualNotLess(data: seq<Byte>, p: nat, q: nat)
    requires data != [] && Shares(data, p, q, |data|)
    ensures !Less(data, p, q)
  {
    forall k: nat
      ensures !LessAt(data, p, q, k)
    {
      SharesBlock(data, p, q, k);
    }
  }

  // The rotation at p comes before that at q as a string of the length of the block.
  ghost predicate Before(data: seq<Byte>, p: nat, q: nat)
    requires data != []
  {
    exists k: nat :: k < |data| && LessAt(data, p, q, k)
  }

  // A difference shows inside the block.
  lemma LessInside(data: seq<Byte>, p: nat, q: nat)
    requires data != []
    ensures Less(data, p, q) <==> Before(data, p, q)
  {
    if Less(data, p, q) {
      var k: nat :| LessAt(data, p, q, k);
      SharesLess(data, p, q, k, |data|);
      if Shares(data, p, q, |data|) { EqualNotLess(data, p, q); }
    }
  }
}
