/** The eight masks and the format strip that names the chosen one. */
module QrMask {
  import opened QrLayout
  import opened QrMaskTable
  import opened QrWalk

  // ----- Masks -----

  /** g is `before` after it has had its unreserved modules flipped where the standard's mask m is dark. */
  ghost predicate MaskedFrom(g: Grid, before: Grid, reserved: Grid, n: nat, m: nat) {
    && IsGrid(g, n) && IsGrid(before, n) && IsGrid(reserved, n)
    && forall s: Spot :: Inside(n, s) ==>
         At(g, s) == (At(before, s) != (!At(reserved, s) && InMask(m, s.0, s.1)))
  }

  method ApplyMask(modules: array2<bool>, reserved: array2<bool>, m: nat)
    requires Pair(modules, reserved, modules.Length0) && m < 8
    modifies modules
    ensures MaskedFrom(GridOf(modules), old(GridOf(modules)), GridOf(reserved), modules.Length0, m)
  {
    hide MaskTest, InMask;
    var size := modules.Length0;
    for y := 0 to size
      invariant forall i, j :: 0 <= i < size && 0 <= j < size ==>
        modules[i, j] == (old(modules[i, j]) != (i < y && !reserved[i, j] && MaskTest(m, j, i)))
    {
      for x := 0 to size
        invariant forall i, j :: 0 <= i < size && 0 <= j < size ==>
          modules[i, j] == (old(modules[i, j]) != ((i < y || (i == y && j < x)) && !reserved[i, j] && MaskTest(m, j, i)))
      {
        if !reserved[y, x] && MaskTest(m, x, y) {
          modules[y, x] := !modules[y, x];
        }
      }
    }
    forall x, y | 0 <= x < size && 0 <= y < size
      ensures MaskTest(m, x, y) == InMask(m, x, y)
    {
      MaskIsStandard(m, x, y);
    }
  }

  // ----- The format strip -----

  /** One turn of the format data's division by 0x537. */
  function FormatTurn(rem: bv32): bv32 {
    (rem << 1) ^ ((rem >> 9) * 0x537)
  }

  function FormatCheck(data: bv32, turns: nat): bv32 {
    if turns == 0 then data else FormatTurn(FormatCheck(data, turns - 1))
  }

  /** The format data with its check bits, scrambled so that no format is all light. */
  function Scrambled(data: bv32, rem: bv32): bv32 {
    ((data << 10) | rem) ^ 0x5412
  }

  /** Level M, whose format bits are zero, with mask m. */
  function FormatData(m: nat): bv32
    requires m < 8
  {
    (0 << 3) | (m as bv32)
  }

  function FormatWord(m: nat): bv32
    requires m < 8
  {
    Scrambled(FormatData(m), FormatCheck(FormatData(m), 10))
  }

  function FormatBit(m: nat, i: nat): bool
    requires m < 8 && i < 15
  {
    WordBit(FormatWord(m), i)
  }

  /** The bit of the first copy that (x, y) carries, or -1. */
  function FirstIndex(x: int, y: int): (i: int)
    ensures -1 <= i < 15
  {
    if x == 8 && 0 <= y <= 5 then y
    else if x == 8 && y == 7 then 6
    else if x == 8 && y == 8 then 7
    else if x == 7 && y == 8 then 8
    else if y == 8 && 0 <= x <= 5 then 14 - x
    else -1
  }

  /** The bit of the second copy that (x, y) carries, or -1. */
  function SecondIndex(n: nat, x: int, y: int): (i: int)
    ensures -1 <= i < 15
  {
    if y == 8 && n - 8 <= x < n then n - 1 - x
    else if x == 8 && n - 7 <= y < n then y - n + 15
    else -1
  }

  /** The format bit that (x, y) carries, or -1 off the strip. */
  function FormatIndex(n: nat, x: int, y: int): (i: int)
    ensures -1 <= i < 15
  {
    if SecondIndex(n, x, y) >= 0 then SecondIndex(n, x, y) else FirstIndex(x, y)
  }

  /** g is `before` with mask m's format written on the strip. */
  ghost predicate FormattedFrom(g: Grid, before: Grid, n: nat, m: nat) {
    && IsGrid(g, n) && IsGrid(before, n) && m < 8
    && forall s: Spot :: Inside(n, s) ==>
         At(g, s) == var i := FormatIndex(n, s.0, s.1); if i < 0 then At(before, s) else FormatBit(m, i)
  }

  /** The places of the two copies are where the indices say. */
  lemma StripPlaces(n: nat, i: nat)
    requires n >= 21 && i < 15
    ensures Inside(n, FirstFormat(i)) && Inside(n, SecondFormat(n, i))
    ensures forall x, y :: FirstIndex(x, y) == i <==> FirstFormat(i) == (x, y)
    ensures forall x, y :: SecondIndex(n, x, y) == i <==> SecondFormat(n, i) == (x, y)
  {
  }

  /** The copies do not meet. */
  lemma CopiesApart(n: nat, x: int, y: int)
    requires n >= 21
    ensures FirstIndex(x, y) < 0 || SecondIndex(n, x, y) < 0
  {
  }
}
