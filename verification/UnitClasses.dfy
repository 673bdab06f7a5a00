/** The sizes, in units, of the blocks that the PPMd7 allocator hands out: every size up to 4, then every
    second one up to 12, every third one up to 24, and every fourth one up to 128. */
module UnitClasses {

  const NUM_INDEXES: nat := 38

  function I2U(i: nat): nat {
    if i < 4 then i + 1 else if i < 8 then 2 * i - 2 else if i < 12 then 3 * i - 9 else 4 * i - 20
  }

  // The smallest class with room for nu units.
  function U2I(nu: nat): (i: nat)
    requires 1 <= nu <= 128
    ensures i < NUM_INDEXES && nu <= I2U(i) && (i > 0 ==> I2U(i - 1) < nu)
  {
    if nu <= 4 then nu - 1 else if nu <= 12 then (nu + 3) / 2 else if nu <= 24 then (nu + 11) / 3 else (nu + 23) / 4
  }

  lemma I2UGrows(i: nat, j: nat)
    requires i < j
    ensures I2U(i) < I2U(j)
  {}

  // Only the classes of at least nu units have indexes from U2I(nu) on.
  lemma U2ILeast(nu: nat, i: nat)
    requires 1 <= nu <= 128
    ensures nu <= I2U(i) <==> U2I(nu) <= i
  {}

  // Every number of units up to 128 is that of a class, or that of a class and 1 to 3 units more,
  // which are a class of their own.
  lemma RestIsClass(nu: nat)
    requires 1 <= nu <= 128 && I2U(U2I(nu)) != nu
    ensures U2I(nu) > 0 && var k := I2U(U2I(nu) - 1); 1 <= k && 1 <= nu - k <= 3 && I2U(nu - k - 1) == nu - k
  {}

  lemma ClassesApart(i: nat, j: nat)
    requires i < j < NUM_INDEXES
    ensures 0 < I2U(j) - I2U(i) < 128 && I2U(i) > 0
  {}

  lemma U2IGrows(n: nat, m: nat)
    requires 1 <= n <= m <= 128
    ensures U2I(n) <= U2I(m) && I2U(U2I(n)) <= I2U(U2I(m))
  {
    U2ILeast(n, U2I(m));
    if U2I(n) < U2I(m) { I2UGrows(U2I(n), U2I(m)); }
  }

  lemma EndClasses()
    ensures I2U(0) == 1 && I2U(NUM_INDEXES - 1) == 128
  {}

  // The tables of the source.
  method Construct() returns (units2Indx: array<nat>, indx2Units: array<nat>)
    ensures fresh(units2Indx) && units2Indx.Length == 128
    ensures fresh(indx2Units) && indx2Units.Length == NUM_INDEXES
    ensures forall i :: 0 <= i < NUM_INDEXES ==> indx2Units[i] == I2U(i)
    ensures forall nu :: 1 <= nu <= 128 ==> units2Indx[nu - 1] == U2I(nu)
    ensures indx2Units[..] == [1, 2, 3, 4, 6, 8, 10, 12, 15, 18, 21, 24, 28, 32, 36, 40, 44, 48, 52, 56, 60, 64, 68, 72,
                               76, 80, 84, 88, 92, 96, 100, 104, 108, 112, 116, 120, 124, 128]
  {
    hide U2I;
    units2Indx, indx2Units := new nat[128], new nat[NUM_INDEXES];
    var i: nat, k: nat := 0, 0;
    while i < NUM_INDEXES
      invariant i <= NUM_INDEXES && k == (if i == 0 then 0 else I2U(i - 1)) <= 128
      invariant forall j :: 0 <= j < i ==> indx2Units[j] == I2U(j)
      invariant forall nu :: 1 <= nu <= k ==> units2Indx[nu - 1] == U2I(nu)
    {
      var step: nat := if i >= 12 then 4 else i / 4 + 1;
      ghost var k0 := k;
      assert k0 + step == I2U(i) <= 128;
      while step != 0
        invariant k + step == I2U(i) <= 128 && k0 <= k
        invariant forall j :: 0 <= j < i ==> indx2Units[j] == I2U(j)
        invariant forall nu :: 1 <= nu <= k ==> units2Indx[nu - 1] == U2I(nu)
        decreases step
      {
        U2ILeast(k + 1, i);
        if i > 0 { U2ILeast(k + 1, i - 1); }
        units2Indx[k] := i;
        k, step := k + 1, step - 1;
      }
      indx2Units[i] := k;
      i := i + 1;
    }
    ClassList(indx2Units[..]);
  }

  lemma ClassList(s: seq<nat>)
    requires |s| == NUM_INDEXES && forall i :: 0 <= i < NUM_INDEXES ==> s[i] == I2U(i)
    ensures s == [1, 2, 3, 4, 6, 8, 10, 12, 15, 18, 21, 24, 28, 32, 36, 40, 44, 48, 52, 56, 60, 64, 68, 72,
                  76, 80, 84, 88, 92, 96, 100, 104, 108, 112, 116, 120, 124, 128]
  {}
}
