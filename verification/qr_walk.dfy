/** The zigzag in which codeword bits are laid out, over any grid of side 4v + 17 (or 9 or 13) whose
    column 6 is reserved, strip by strip as the encoder goes, and that it is the standard's walk. */
module QrWalk {
  import opened QrStandard

  type Grid = seq<seq<bool>>

  ghost predicate IsGrid(g: Grid, n: nat) {
    |g| == n && forall y :: 0 <= y < n ==> |g[y]| == n
  }

  /** The contents of a square array. */
  function GridOf(a: array2<bool>): (g: Grid)
    reads a
    ensures |g| == a.Length0
    ensures forall y :: 0 <= y < a.Length0 ==> |g[y]| == a.Length1
    ensures forall x, y :: 0 <= y < a.Length0 && 0 <= x < a.Length1 ==> g[y][x] == a[y, x]
  {
    seq(a.Length0, y requires 0 <= y < a.Length0 reads a =>
      seq(a.Length1, x requires 0 <= x < a.Length1 && 0 <= y < a.Length0 reads a => a[y, x]))
  }

  /** A column and a row. */
  type Spot = (int, int)

  /** The two grids of a symbol, modules and reservations, of one size. */
  ghost predicate Pair(modules: array2<bool>, reserved: array2<bool>, n: nat) {
    modules != reserved && modules.Length0 == modules.Length1 == reserved.Length0 == reserved.Length1 == n
  }

  predicate Inside(n: nat, s: Spot) {
    0 <= s.0 < n && 0 <= s.1 < n
  }

  predicate At(g: Grid, s: Spot)
    requires 0 <= s.1 < |g| && 0 <= s.0 < |g[s.1]|
  {
    g[s.1][s.0]
  }

  // ----- The walk -----

  /** The right-hand column of strip p: two columns a strip, stepping over column 6. */
  function RightOf(n: nat, p: nat): int {
    var r := n - 1 - 2 * p;
    if r > 6 then r else r - 1
  }

  predicate Upward(right: int) {
    (right + 1) / 2 % 2 == 0
  }

  /** Step k of strip p. */
  function SpotAt(n: nat, p: nat, k: nat): Spot {
    var right := RightOf(n, p);
    (right - k % 2, if Upward(right) then n - 1 - k / 2 else k / 2)
  }

  function Strips(n: nat): nat {
    n / 2
  }

  ghost predicate Walkable(n: nat, reserved: Grid) {
    && n >= 7 && n % 2 == 1 && n % 4 == 1 && IsGrid(reserved, n)
    && forall y :: 0 <= y < n ==> reserved[y][6]
  }

  lemma SpotInside(n: nat, p: nat, k: nat)
    requires n >= 7 && n % 2 == 1 && p < Strips(n) && k < 2 * n
    ensures Inside(n, SpotAt(n, p, k)) && SpotAt(n, p, k).0 != 6
    ensures SpotAt(n, p, k).0 == RightOf(n, p) || SpotAt(n, p, k).0 == RightOf(n, p) - 1
  {
  }

  lemma SpotsDiffer(n: nat, p: nat, k: nat, q: nat, l: nat)
    requires n >= 7 && n % 2 == 1 && p < Strips(n) && k < 2 * n && q < Strips(n) && l < 2 * n
    requires p != q || k != l
    ensures SpotAt(n, p, k) != SpotAt(n, q, l)
  {
  }

  /** The step that visits a spot. */
  lemma StepOf(n: nat, s: Spot) returns (p: nat, k: nat)
    requires n >= 7 && n % 2 == 1 && Inside(n, s) && s.0 != 6
    ensures p < Strips(n) && k < 2 * n && SpotAt(n, p, k) == s
  {
    var x := s.0;
    p := if x > 6 then (n - 1 - x) / 2 else (n - 2 - x) / 2;
    var right := RightOf(n, p);
    assert x == right || x == right - 1;
    var row := if Upward(right) then n - 1 - s.1 else s.1;
    k := 2 * row + (right - x);
    assert k / 2 == row && k % 2 == right - x;
  }

  /** The unreserved spots among the first k steps of strip p. */
  function StripFree(n: nat, reserved: Grid, p: nat, k: nat): seq<Spot>
    requires n >= 7 && n % 2 == 1 && IsGrid(reserved, n) && p < Strips(n) && k <= 2 * n
  {
    if k == 0 then []
    else
      SpotInside(n, p, k - 1);
      StripFree(n, reserved, p, k - 1) + (if At(reserved, SpotAt(n, p, k - 1)) then [] else [SpotAt(n, p, k - 1)])
  }

  /** The unreserved spots of the first p strips. */
  function FreeBefore(n: nat, reserved: Grid, p: nat): seq<Spot>
    requires n >= 7 && n % 2 == 1 && IsGrid(reserved, n) && p <= Strips(n)
  {
    if p == 0 then [] else FreeBefore(n, reserved, p - 1) + StripFree(n, reserved, p - 1, 2 * n)
  }

  // ----- The standard's walk -----

  /** The unreserved spots among the first k modules of the standard's walk. */
  function FreeAlong(n: nat, reserved: Grid, k: nat): seq<Spot>
    requires IsGrid(reserved, n)
  {
    if k == 0 then []
    else
      var c := CursorAt(n, k - 1);
      FreeAlong(n, reserved, k - 1) + (if Inside(n, (c.x, c.y)) && !At(reserved, (c.x, c.y)) then [(c.x, c.y)] else [])
  }

  /** Every unreserved spot, in the order of the standard's walk: from the lower right corner through every module
      but those of column 6. */
  function FreeSpots(n: nat, reserved: Grid): seq<Spot>
    requires n > 0 && IsGrid(reserved, n)
  {
    FreeAlong(n, reserved, n * (n - 1))
  }

  /** Where the encoder's walk is at step k of strip p. */
  function StripCursor(n: nat, p: nat, k: nat): Cursor {
    Cursor(SpotAt(n, p, k).0, SpotAt(n, p, k).1, k % 2 == 0, Upward(RightOf(n, p)))
  }

  lemma FirstCursor(n: nat)
    requires n >= 7 && n % 2 == 1 && n % 4 == 1
    ensures StripCursor(n, 0, 0) == CursorAt(n, 0)
  {
  }

  lemma NextInStrip(n: nat, p: nat, k: nat)
    requires n >= 7 && n % 2 == 1 && n % 4 == 1 && p < Strips(n) && 0 < k < 2 * n
    ensures Next(n, StripCursor(n, p, k - 1)) == StripCursor(n, p, k)
  {
  }

  /** The next two columns are two to the left, or three over column 6, and go the other way. */
  lemma NextColumns(n: nat, p: nat)
    requires n >= 7 && n % 2 == 1 && n % 4 == 1 && 0 < p < Strips(n)
    ensures RightOf(n, p) == if RightOf(n, p - 1) == 8 then 5 else RightOf(n, p - 1) - 2
    ensures Upward(RightOf(n, p)) != Upward(RightOf(n, p - 1))
  {
    var r := RightOf(n, p - 1);
    if r > 8 {
      assert (r + 1) / 2 == (r - 1) / 2 + 1;
    } else if r < 6 {
      assert (r + 1) / 2 == (r - 1) / 2 + 1;
    } else {
      assert r == 8;
    }
  }

  lemma LastOfStrip(n: nat, p: nat)
    requires n >= 7
    ensures StripCursor(n, p, 2 * n - 1)
      == Cursor(RightOf(n, p) - 1, if Upward(RightOf(n, p)) then 0 else n - 1, false, Upward(RightOf(n, p)))
    ensures StripCursor(n, p, 0)
      == Cursor(RightOf(n, p), if Upward(RightOf(n, p)) then n - 1 else 0, true, Upward(RightOf(n, p)))
  {
    assert (2 * n - 1) / 2 == n - 1 && (2 * n - 1) % 2 == 1;
    hide RightOf, Upward;
  }

  lemma NextStrip(n: nat, p: nat)
    requires n >= 7 && n % 2 == 1 && n % 4 == 1 && 0 < p < Strips(n)
    ensures Next(n, StripCursor(n, p - 1, 2 * n - 1)) == StripCursor(n, p, 0)
  {
    hide RightOf, Upward, StripCursor, Strips;
    NextColumns(n, p);
    LastOfStrip(n, p - 1);
    LastOfStrip(n, p);
  }

  lemma Steps(n: nat, p: nat)
    requires p > 0
    ensures p * (2 * n) == (p - 1) * (2 * n) + 2 * n
  {
  }

  /** The strips, one after the other, are the standard's walk. */
  lemma {:induction false} WalkIsStandard(n: nat, p: nat, k: nat)
    requires n >= 7 && n % 2 == 1 && n % 4 == 1 && p < Strips(n) && k < 2 * n
    ensures CursorAt(n, p * (2 * n) + k) == StripCursor(n, p, k)
    decreases p, k
  {
    hide StripCursor, Next;
    if k > 0 {
      WalkIsStandard(n, p, k - 1);
      NextInStrip(n, p, k);
    } else if p > 0 {
      WalkIsStandard(n, p - 1, 2 * n - 1);
      NextStrip(n, p);
      Steps(n, p);
    } else {
      FirstCursor(n);
    }
  }

  /** What one step adds: a spot, unless it is reserved. */
  function Added(n: nat, reserved: Grid, s: Spot): seq<Spot>
    requires IsGrid(reserved, n)
  {
    if Inside(n, s) && !At(reserved, s) then [s] else []
  }

  lemma FreeAlongStep(n: nat, reserved: Grid, t: nat, c: Cursor)
    requires IsGrid(reserved, n) && CursorAt(n, t) == c
    ensures FreeAlong(n, reserved, t + 1) == FreeAlong(n, reserved, t) + Added(n, reserved, (c.x, c.y))
  {
    hide CursorAt;
  }

  lemma StripFreeStep(n: nat, reserved: Grid, p: nat, k: nat)
    requires n >= 7 && n % 2 == 1 && n % 4 == 1 && IsGrid(reserved, n) && p < Strips(n) && k < 2 * n
    ensures StripFree(n, reserved, p, k + 1) == StripFree(n, reserved, p, k) + Added(n, reserved, SpotAt(n, p, k))
  {
    SpotInside(n, p, k);
    hide SpotAt;
  }

  lemma NothingSeen(n: nat, reserved: Grid, p: nat)
    requires n >= 7 && n % 2 == 1 && n % 4 == 1 && IsGrid(reserved, n) && p <= Strips(n)
    ensures FreeAlong(n, reserved, 0) == [] && FreeBefore(n, reserved, 0) == []
    ensures p < Strips(n) ==> StripFree(n, reserved, p, 0) == []
    ensures p > 0 ==> FreeBefore(n, reserved, p) == FreeBefore(n, reserved, p - 1) + StripFree(n, reserved, p - 1, 2 * n)
  {
    hide SpotAt;
  }

  /** The cursor at a step is where the strip is. */
  lemma CursorSpot(n: nat, p: nat, k: nat)
    ensures StripCursor(n, p, k).x == SpotAt(n, p, k).0 && StripCursor(n, p, k).y == SpotAt(n, p, k).1
  {
  }

  lemma {:induction false} FreeIsSeen(n: nat, reserved: Grid, p: nat, k: nat)
    requires n >= 7 && n % 2 == 1 && n % 4 == 1 && IsGrid(reserved, n) && p < Strips(n) && k <= 2 * n
    ensures FreeAlong(n, reserved, p * (2 * n) + k) == FreeBefore(n, reserved, p) + StripFree(n, reserved, p, k)
    decreases p, k
  {
    hide *;
    NothingSeen(n, reserved, p);
    if k > 0 {
      FreeIsSeen(n, reserved, p, k - 1);
      WalkIsStandard(n, p, k - 1);
      CursorSpot(n, p, k - 1);
      FreeAlongStep(n, reserved, p * (2 * n) + k - 1, StripCursor(n, p, k - 1));
      StripFreeStep(n, reserved, p, k - 1);
    } else if p > 0 {
      FreeIsSeen(n, reserved, p - 1, 2 * n);
      Steps(n, p);
    }
  }

  lemma AllSteps(n: nat)
    requires n >= 7 && n % 2 == 1 && n % 4 == 1
    ensures Strips(n) > 0 && (Strips(n) - 1) * (2 * n) + 2 * n == n * (n - 1)
  {
    var h := n / 2;
    assert n == 2 * h + 1;
    assert (h - 1) * (2 * n) + 2 * n == h * (2 * n) == n * (2 * h);
  }

  lemma FreeSpotsAre(n: nat, reserved: Grid)
    requires n >= 7 && n % 2 == 1 && n % 4 == 1 && IsGrid(reserved, n)
    ensures FreeSpots(n, reserved) == FreeBefore(n, reserved, Strips(n))
  {
    hide SpotAt, At, StripFree;
    AllSteps(n);
    FreeIsSeen(n, reserved, Strips(n) - 1, 2 * n);
  }

  ghost predicate NoRepeats(s: seq<Spot>) {
    forall i, j :: 0 <= i < j < |s| ==> s[i] != s[j]
  }

  /** What has been seen k steps into strip p: exactly the unreserved spots of those steps. */
  lemma {:induction false} StripSeen(n: nat, reserved: Grid, p: nat, k: nat)
    requires n >= 7 && n % 2 == 1 && IsGrid(reserved, n) && p < Strips(n) && k <= 2 * n
    ensures NoRepeats(StripFree(n, reserved, p, k))
    ensures forall i :: 0 <= i < |StripFree(n, reserved, p, k)| ==>
      exists j :: 0 <= j < k && StripFree(n, reserved, p, k)[i] == SpotAt(n, p, j)
    ensures forall i :: 0 <= i < |StripFree(n, reserved, p, k)| ==>
      Inside(n, StripFree(n, reserved, p, k)[i]) && !At(reserved, StripFree(n, reserved, p, k)[i])
  {
    if k > 0 {
      StripSeen(n, reserved, p, k - 1);
      SpotInside(n, p, k - 1);
      var before, s := StripFree(n, reserved, p, k - 1), SpotAt(n, p, k - 1);
      hide SpotAt;
      forall i | 0 <= i < |before|
        ensures before[i] != s
      {
        var j :| 0 <= j < k - 1 && before[i] == SpotAt(n, p, j);
        SpotsDiffer(n, p, j, p, k - 1);
      }
    }
  }

  lemma {:induction false} StripFinds(n: nat, reserved: Grid, p: nat, k: nat, j: nat)
    requires n >= 7 && n % 2 == 1 && IsGrid(reserved, n) && p < Strips(n) && j < k <= 2 * n
    requires Inside(n, SpotAt(n, p, j)) && !At(reserved, SpotAt(n, p, j))
    ensures SpotAt(n, p, j) in StripFree(n, reserved, p, k)
  {
    hide SpotAt;
    if j < k - 1 {
      StripFinds(n, reserved, p, k - 1, j);
    }
  }

  lemma {:induction false} BeforeSeen(n: nat, reserved: Grid, p: nat)
    requires n >= 7 && n % 2 == 1 && IsGrid(reserved, n) && p <= Strips(n)
    ensures NoRepeats(FreeBefore(n, reserved, p))
    ensures forall i :: 0 <= i < |FreeBefore(n, reserved, p)| ==>
      exists q, j :: 0 <= q < p && 0 <= j < 2 * n && FreeBefore(n, reserved, p)[i] == SpotAt(n, q, j)
    ensures forall i :: 0 <= i < |FreeBefore(n, reserved, p)| ==>
      Inside(n, FreeBefore(n, reserved, p)[i]) && !At(reserved, FreeBefore(n, reserved, p)[i])
  {
    hide SpotAt;
    if p > 0 {
      BeforeSeen(n, reserved, p - 1);
      StripSeen(n, reserved, p - 1, 2 * n);
      var before, strip := FreeBefore(n, reserved, p - 1), StripFree(n, reserved, p - 1, 2 * n);
      hide StripFree;
      forall i, j | 0 <= i < |before| && 0 <= j < |strip|
        ensures before[i] != strip[j]
      {
        var q, l :| 0 <= q < p - 1 && 0 <= l < 2 * n && before[i] == SpotAt(n, q, l);
        var m :| 0 <= m < 2 * n && strip[j] == SpotAt(n, p - 1, m);
        SpotsDiffer(n, q, l, p - 1, m);
      }
    }
  }

  lemma {:induction false} BeforeFinds(n: nat, reserved: Grid, p: nat, q: nat, j: nat)
    requires n >= 7 && n % 2 == 1 && IsGrid(reserved, n) && q < p <= Strips(n) && j < 2 * n
    requires Inside(n, SpotAt(n, q, j)) && !At(reserved, SpotAt(n, q, j))
    ensures SpotAt(n, q, j) in FreeBefore(n, reserved, p)
  {
    hide SpotAt, StripFree, At;
    if q < p - 1 {
      BeforeFinds(n, reserved, p - 1, q, j);
    } else {
      StripFinds(n, reserved, q, 2 * n, j);
    }
  }

  /** The walk visits every unreserved spot exactly once and no reserved one. */
  lemma WalkIsExact(n: nat, reserved: Grid)
    requires Walkable(n, reserved)
    ensures NoRepeats(FreeSpots(n, reserved))
    ensures forall s: Spot :: s in FreeSpots(n, reserved) <==> Inside(n, s) && !At(reserved, s)
  {
    FreeSpotsAre(n, reserved);
    hide FreeSpots;
    BeforeSeen(n, reserved, Strips(n));
    forall s: Spot | Inside(n, s) && !At(reserved, s)
      ensures s in FreeSpots(n, reserved)
    {
      var p, k := StepOf(n, s);
      BeforeFinds(n, reserved, Strips(n), p, k);
    }
  }

  /** What has been seen k steps into strip p, all told. */
  function Seen(n: nat, reserved: Grid, p: nat, k: nat): seq<Spot>
    requires n >= 7 && n % 2 == 1 && IsGrid(reserved, n) && p < Strips(n) && k <= 2 * n
  {
    FreeBefore(n, reserved, p) + StripFree(n, reserved, p, k)
  }

  /** The next step either sees a new spot or passes a reserved one. */
  lemma SeenNext(n: nat, reserved: Grid, p: nat, k: nat)
    requires n >= 7 && n % 2 == 1 && IsGrid(reserved, n) && p < Strips(n) && k < 2 * n
    ensures Inside(n, SpotAt(n, p, k))
    ensures Seen(n, reserved, p, k + 1)
         == Seen(n, reserved, p, k) + (if At(reserved, SpotAt(n, p, k)) then [] else [SpotAt(n, p, k)])
    ensures SpotAt(n, p, k) !in Seen(n, reserved, p, k)
    ensures forall i :: 0 <= i < |Seen(n, reserved, p, k)| ==> Inside(n, Seen(n, reserved, p, k)[i])
    ensures NoRepeats(Seen(n, reserved, p, k))
  {
    SpotInside(n, p, k);
    BeforeSeen(n, reserved, p);
    StripSeen(n, reserved, p, k);
    var before, strip, s := FreeBefore(n, reserved, p), StripFree(n, reserved, p, k), SpotAt(n, p, k);
    hide SpotAt, FreeBefore;
    forall i | 0 <= i < |before|
      ensures before[i] != s
    {
      var q, l :| 0 <= q < p && 0 <= l < 2 * n && before[i] == SpotAt(n, q, l);
      SpotsDiffer(n, q, l, p, k);
    }
    forall i | 0 <= i < |strip|
      ensures strip[i] != s
    {
      var j :| 0 <= j < k && strip[i] == SpotAt(n, p, j);
      SpotsDiffer(n, p, j, p, k);
    }
    forall i, j | 0 <= i < |before| && 0 <= j < |strip|
      ensures before[i] != strip[j]
    {
      var q, l :| 0 <= q < p && 0 <= l < 2 * n && before[i] == SpotAt(n, q, l);
      var m :| 0 <= m < k && strip[j] == SpotAt(n, p, m);
      SpotsDiffer(n, q, l, p, m);
    }
  }

  /** Along the spots the grid holds the bits, and its old contents after the last bit and
      everywhere else. */
  ghost predicate HoldsBits(g: Grid, before: Grid, n: nat, spots: seq<Spot>, bits: seq<bool>) {
    && IsGrid(g, n) && IsGrid(before, n)
    && (forall i :: 0 <= i < |spots| ==>
         Inside(n, spots[i]) && At(g, spots[i]) == if i < |bits| then bits[i] else At(before, spots[i]))
    && (forall s: Spot :: Inside(n, s) && s !in spots ==> At(g, s) == At(before, s))
  }

  /** Writing the next bit, if there is one, at the next spot. */
  lemma HoldsNext(g: Grid, after: Grid, before: Grid, n: nat, spots: seq<Spot>, s: Spot, bits: seq<bool>)
    requires HoldsBits(g, before, n, spots, bits) && IsGrid(after, n)
    requires Inside(n, s) && s !in spots
    requires forall t: Spot :: Inside(n, t) && t != s ==> At(after, t) == At(g, t)
    requires At(after, s) == if |spots| < |bits| then bits[|spots|] else At(g, s)
    ensures HoldsBits(after, before, n, spots + [s], bits)
  {
    hide At;
    var longer := spots + [s];
    forall i | 0 <= i < |longer|
      ensures Inside(n, longer[i]) && At(after, longer[i]) == if i < |bits| then bits[i] else At(before, longer[i])
    {
      if i < |spots| {
        assert longer[i] == spots[i] && spots[i] in spots;
      }
    }
    forall t: Spot | Inside(n, t) && t !in longer
      ensures At(after, t) == At(before, t)
    {
      assert longer[|spots|] == s;
    }
  }
}
