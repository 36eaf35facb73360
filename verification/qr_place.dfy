/** Laying codewords out in the zigzag, in place. */
module QrPlace {
  import opened Bits
  import opened QrData
  import opened QrWalk

  /** One step of the walk: the next bit, if any is left, goes to an unreserved spot. */
  method PlaceBit(modules: array2<bool>, reserved: array2<bool>, codewords: seq<bv8>, bit: nat, x: int, y: int,
                  ghost start: Grid, ghost seen: seq<Spot>)
    returns (next: nat)
    requires Pair(modules, reserved, modules.Length0) && Inside(modules.Length0, (x, y))
    requires HoldsBits(GridOf(modules), start, modules.Length0, seen, Stream(codewords))
    requires (x, y) !in seen
    requires bit == if |seen| < |codewords| * 8 then |seen| else |codewords| * 8
    modifies modules
    ensures
      var after := seen + (if reserved[y, x] then [] else [(x, y)]);
      && HoldsBits(GridOf(modules), start, modules.Length0, after, Stream(codewords))
      && next == if |after| < |codewords| * 8 then |after| else |codewords| * 8
  {
    hide HoldsBits, ByteBit;
    ghost var g := GridOf(modules);
    next := bit;
    assert seen + [] == seen;
    if !reserved[y, x] {
      if bit < |codewords| * 8 {
        modules[y, x] := ByteBit(codewords[bit / 8], bit % 8);
        next := bit + 1;
      }
      HoldsNext(g, GridOf(modules), start, modules.Length0, seen, (x, y), Stream(codewords));
    }
  }

  lemma SeenFirst(n: nat, reserved: Grid)
    requires n >= 7 && n % 2 == 1 && IsGrid(reserved, n)
    ensures Strips(n) >= 1 && Seen(n, reserved, 0, 0) == []
  {
  }

  lemma SeenNextStrip(n: nat, reserved: Grid, p: nat)
    requires n >= 7 && n % 2 == 1 && n % 4 == 1 && IsGrid(reserved, n) && p < Strips(n)
    ensures Seen(n, reserved, p, 2 * n) == FreeBefore(n, reserved, p + 1)
    ensures p + 1 < Strips(n) ==> Seen(n, reserved, p + 1, 0) == FreeBefore(n, reserved, p + 1)
    ensures p + 1 == Strips(n) ==> FreeSpots(n, reserved) == FreeBefore(n, reserved, p + 1)
  {
    hide SpotAt, At, FreeSpots;
    FreeSpotsAre(n, reserved);
  }

  lemma StripColumn(n: nat, p: nat, right: int)
    requires n >= 7 && n % 2 == 1
    requires right == if n - 1 - 2 * p >= 6 then n - 1 - 2 * p else n - 2 - 2 * p
    ensures right >= 1 <==> p < Strips(n)
    ensures p < Strips(n) ==> (if right == 6 then 5 else right) == RightOf(n, p)
    ensures (if right == 6 then 5 else right) - 2 == if n - 1 - 2 * (p + 1) >= 6 then n - 1 - 2 * (p + 1) else n - 2 - 2 * (p + 1)
  {
  }

  method PlaceCodewords(modules: array2<bool>, reserved: array2<bool>, codewords: seq<bv8>)
    requires Pair(modules, reserved, modules.Length0) && Walkable(modules.Length0, GridOf(reserved))
    modifies modules
    ensures HoldsBits(GridOf(modules), old(GridOf(modules)), modules.Length0,
              FreeSpots(modules.Length0, GridOf(reserved)), Stream(codewords))
  {
    hide HoldsBits, SpotAt, Seen, FreeBefore, FreeSpots, StripFree, At, Stream, Strips, GridOf;
    var size := modules.Length0;
    ghost var r, start := GridOf(reserved), GridOf(modules);
    var bit := 0;
    var right := size - 1;
    ghost var p, seen := 0, [];
    SeenFirst(size, r);
    HoldsNone(start, size, Stream(codewords));
    while right >= 1
      invariant p <= Strips(size)
      invariant right == if size - 1 - 2 * p >= 6 then size - 1 - 2 * p else size - 2 - 2 * p
      invariant GridOf(reserved) == r
      invariant p < Strips(size) ==> seen == Seen(size, r, p, 0)
      invariant p == Strips(size) ==> seen == FreeSpots(size, r)
      invariant HoldsBits(GridOf(modules), start, size, seen, Stream(codewords))
      invariant bit == if |seen| < |codewords| * 8 then |seen| else |codewords| * 8
    {
      StripColumn(size, p, right);
      if right == 6 {
        right := 5;
      }
      for vertical := 0 to size
        invariant GridOf(reserved) == r
        invariant seen == Seen(size, r, p, 2 * vertical)
        invariant HoldsBits(GridOf(modules), start, size, seen, Stream(codewords))
        invariant bit == if |seen| < |codewords| * 8 then |seen| else |codewords| * 8
      {
        for column := 0 to 2
          invariant GridOf(reserved) == r
          invariant seen == Seen(size, r, p, 2 * vertical + column)
          invariant HoldsBits(GridOf(modules), start, size, seen, Stream(codewords))
          invariant bit == if |seen| < |codewords| * 8 then |seen| else |codewords| * 8
        {
          var x := right - column;
          var upward := (right + 1) / 2 % 2 == 0;
          var y := if upward then size - 1 - vertical else vertical;
          SpotIs(size, p, vertical, column);
          SeenNext(size, r, p, 2 * vertical + column);
          ReadAt(reserved, x, y);
          bit := PlaceBit(modules, reserved, codewords, bit, x, y, start, seen);
          seen := seen + (if reserved[y, x] then [] else [(x, y)]);
        }
      }
      SeenNextStrip(size, r, p);
      right := right - 2;
      p := p + 1;
    }
    StripColumn(size, p, right);
  }

  lemma HoldsNone(g: Grid, n: nat, bits: seq<bool>)
    requires IsGrid(g, n)
    ensures HoldsBits(g, g, n, [], bits)
  {
  }

  lemma SpotIs(n: nat, p: nat, vertical: nat, column: nat)
    requires column < 2
    ensures SpotAt(n, p, 2 * vertical + column)
         == (RightOf(n, p) - column, if Upward(RightOf(n, p)) then n - 1 - vertical else vertical)
  {
  }

  lemma ReadAt(a: array2<bool>, x: int, y: int)
    requires 0 <= y < a.Length0 && 0 <= x < a.Length1
    ensures At(GridOf(a), (x, y)) == a[y, x]
  {
  }

  // ----- Walking again -----

  /** The bits along the walk, as a scanner reads them. */
  function ReadBits(g: Grid, n: nat, spots: seq<Spot>): (bits: seq<bool>)
    requires IsGrid(g, n) && forall i :: 0 <= i < |spots| ==> Inside(n, spots[i])
    ensures |bits| == |spots|
  {
    seq(|spots|, i requires 0 <= i < |spots| => assert Inside(n, spots[i]); At(g, spots[i]))
  }

  /** Re-walking a grid whose free spots were light gives every codeword bit in order, then
      only light modules. */
  lemma WalkReadsBack(g: Grid, before: Grid, n: nat, spots: seq<Spot>, bits: seq<bool>)
    requires HoldsBits(g, before, n, spots, bits) && |bits| <= |spots|
    requires forall i :: 0 <= i < |spots| ==> Inside(n, spots[i]) && !At(before, spots[i])
    ensures ReadBits(g, n, spots) == bits + Falses(|spots| - |bits|)
  {
  }
}
