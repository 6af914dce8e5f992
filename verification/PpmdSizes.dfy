/** Size classes of PPMd's allocator: 38 sizes for blocks of 1 to 128 units. */
module PpmdSizes {
  const NUM_INDEXES: nat := 38
  const MAX_UNITS: nat := 128

  /** The units in a block of the given class: four steps each of one, two and three units, then steps of four. */
  function Units(indx: nat): (r: nat)
    requires indx < NUM_INDEXES
    ensures indx < r <= MAX_UNITS
  {
    if indx < 4 then indx + 1
    else if indx < 8 then 2 * indx - 2
    else if indx < 12 then 3 * indx - 9
    else 4 * indx - 20
  }

  /** The smallest class that holds `nu` units. */
  function ClassOf(nu: nat): (r: nat)
    requires 1 <= nu <= MAX_UNITS
    ensures r < NUM_INDEXES && nu <= Units(r)
    ensures r > 0 ==> Units(r - 1) < nu
  {
    if nu <= 4 then nu - 1
    else if nu <= 12 then 4 + (nu - 5) / 2
    else if nu <= 24 then 8 + (nu - 13) / 3
    else 12 + (nu - 25) / 4
  }

  lemma UnitsIncrease(i: nat, j: nat)
    requires i < j < NUM_INDEXES
    ensures Units(i) < Units(j)
  {
  }

  /** Larger classes are larger blocks, so a size is the size of one class only. */
  lemma ClassOfUnits(indx: nat)
    requires indx < NUM_INDEXES
    ensures ClassOf(Units(indx)) == indx
  {
  }

  /** What is left of a block is always one class or two: the next smaller class and one to three units. */
  lemma RemainderFits(nu: nat)
    requires 1 <= nu <= MAX_UNITS && Units(ClassOf(nu)) != nu
    ensures ClassOf(nu) > 0
    ensures var k := Units(ClassOf(nu) - 1); k < nu <= k + 3 && Units(nu - k - 1) == nu - k
  {
  }

  /** The classes that allocation may take instead of `indx` are those that hold at least as much. */
  lemma ClassHolds(indx: nat, nu: nat)
    requires indx < NUM_INDEXES && Units(indx) <= nu <= MAX_UNITS
    ensures var c := ClassOf(nu); indx <= c && (Units(c) != nu ==> indx <= c - 1)
  {
  }

  /** One unit more needs the same class or the next one. */
  lemma NextClass(nu: nat)
    requires 1 <= nu < MAX_UNITS
    ensures ClassOf(nu + 1) == ClassOf(nu) || (ClassOf(nu + 1) == ClassOf(nu) + 1 && Units(ClassOf(nu)) == nu)
  {
  }

  /** The tables that the allocator looks sizes up in. */
  class Sizes {
    const indx2Units: array<nat>
    const units2Indx: array<nat>

    ghost predicate Built()
      reads indx2Units, units2Indx
    {
      && indx2Units.Length == NUM_INDEXES && units2Indx.Length == MAX_UNITS
      && (forall i :: 0 <= i < NUM_INDEXES ==> indx2Units[i] == Units(i))
      && (forall nu :: 0 <= nu < MAX_UNITS ==> units2Indx[nu] == ClassOf(nu + 1))
    }

    constructor ()
      ensures Built() && fresh(indx2Units) && fresh(units2Indx)
    {
      indx2Units := new nat[NUM_INDEXES](_ => 0);
      units2Indx := new nat[MAX_UNITS](_ => 0);
      new;
      var k: nat := 0;
      for i := 0 to NUM_INDEXES
        invariant k == if i == 0 then 0 else Units(i - 1)
        invariant forall j :: 0 <= j < i ==> indx2Units[j] == Units(j)
        invariant forall nu :: 0 <= nu < k ==> units2Indx[nu] == ClassOf(nu + 1)
      {
        var step := if i >= 12 then 4 else i / 4 + 1;
        ghost var from := k;
        while step > 0
          invariant 0 <= step && k + step == Units(i) && from <= k
          invariant forall nu :: 0 <= nu < k ==> units2Indx[nu] == ClassOf(nu + 1)
          modifies units2Indx
        {
          units2Indx[k] := i;
          k, step := k + 1, step - 1;
        }
        indx2Units[i] := k;
      }
    }
  }
}
