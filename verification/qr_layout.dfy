/** Where the function patterns of a symbol go and what they look like. Coordinates are
    column x and row y; grids are indexed row first. */
module QrLayout {
  import opened QrVersion

  function Abs(a: int): nat {
    if a < 0 then -a else a
  }

  function Max(a: int, b: int): int {
    if a < b then b else a
  }

  // ----- Alignment positions -----

  /** How many alignment positions each axis has, from version 2. */
  function AlignCount(v: version): nat {
    v / 7 + 2
  }

  /** Their spacing: the division rounded up to an even number, except at version 32. */
  function AlignStep(v: version): nat {
    if v == 32 then 26
    else
      var d := AlignCount(v) * 2 - 2;
      (v * 4 + 4 + d - 1) / d * 2
  }

  /** The last k alignment positions, lowest first. */
  function TopPositions(v: version, k: nat): (p: seq<int>)
    ensures |p| == k
  {
    if k == 0 then [] else [SizeOf(v) - 7 - (k - 1) * AlignStep(v)] + TopPositions(v, k - 1)
  }

  /** The alignment positions of a version, lowest first; version 1 has none. */
  function Positions(v: version): seq<int> {
    if v == 1 then [] else [6] + TopPositions(v, AlignCount(v) - 1)
  }

  lemma TopNext(v: version, k: nat, pos: int)
    requires pos == SizeOf(v) - 7 - k * AlignStep(v)
    ensures TopPositions(v, k + 1) == [pos] + TopPositions(v, k)
    ensures pos - AlignStep(v) == SizeOf(v) - 7 - (k + 1) * AlignStep(v)
  {
    hide AlignStep, SizeOf;
    assert (k + 1) * AlignStep(v) == k * AlignStep(v) + AlignStep(v);
  }

  lemma TopNone(v: version)
    ensures TopPositions(v, 0) == [] && 0 * AlignStep(v) == 0 && (v > 1 ==> AlignCount(v) >= 2)
  {
    hide AlignStep;
  }

  method AlignmentPositions(v: version) returns (result: seq<int>)
    ensures result == Positions(v)
  {
    hide TopPositions, AlignCount, AlignStep, SizeOf;
    if v == 1 {
      return [];
    }
    var count := AlignCount(v);
    var step := AlignStep(v);
    TopNone(v);
    result := [6];
    var pos := SizeOf(v) - 7;
    ghost var k := 0;
    while |result| < count
      invariant |result| == k + 1 <= count
      invariant result == [6] + TopPositions(v, k)
      invariant pos == SizeOf(v) - 7 - k * step
    {
      TopNext(v, k, pos);
      result := result[..1] + [pos] + result[1..];
      pos := pos - step;
      k := k + 1;
    }
  }

  /** Positions start on the timing line, end seven modules from the far edge, are even and
      lie at least twelve apart. */
  ghost predicate Spaced(p: seq<int>, n: nat) {
    && |p| >= 2
    && p[0] == 6 && p[|p| - 1] == n - 7
    && (forall k :: 0 <= k < |p| ==> p[k] % 2 == 0)
    && (forall k :: 0 <= k < |p| - 1 ==> p[k + 1] - p[k] >= 12)
  }

  lemma {:induction false} TopPositionsAt(v: version, k: nat, i: nat)
    requires i < k
    ensures TopPositions(v, k)[i] == SizeOf(v) - 7 - (k - 1 - i) * AlignStep(v)
  {
    if i > 0 {
      TopPositionsAt(v, k - 1, i - 1);
    }
  }

  lemma FewSteps(v: version)
    requires 2 <= v < 7
    ensures AlignStep(v) % 2 == 0 && (v >= 7 ==> AlignStep(v) >= 16)
    ensures var k := AlignCount(v) - 2; SizeOf(v) - 7 - k * AlignStep(v) >= 18
  {
    assert AlignCount(v) == 2;
  }

  lemma MoreSteps(v: version)
    requires 7 <= v < 21
    ensures AlignStep(v) % 2 == 0 && (v >= 7 ==> AlignStep(v) >= 16)
    ensures var k := AlignCount(v) - 2; SizeOf(v) - 7 - k * AlignStep(v) >= 18
  {
    if v < 14 { assert AlignCount(v) == 3; } else { assert AlignCount(v) == 4; }
  }

  lemma ManySteps(v: version)
    requires v >= 21
    ensures AlignStep(v) % 2 == 0 && (v >= 7 ==> AlignStep(v) >= 16)
    ensures var k := AlignCount(v) - 2; SizeOf(v) - 7 - k * AlignStep(v) >= 18
  {
    if v < 28 {
      assert AlignCount(v) == 5;
    } else if v < 35 {
      assert AlignCount(v) == 6;
    } else {
      assert AlignCount(v) == 7;
    }
  }

  lemma StepFacts(v: version)
    requires v >= 2
    ensures AlignStep(v) % 2 == 0 && (v >= 7 ==> AlignStep(v) >= 16)
    ensures var k := AlignCount(v) - 2; SizeOf(v) - 7 - k * AlignStep(v) >= 18
  {
    if v < 7 { FewSteps(v); } else if v < 21 { MoreSteps(v); } else { ManySteps(v); }
  }

  lemma PositionAt(v: version, k: nat)
    requires v >= 2 && 1 <= k < AlignCount(v)
    ensures |Positions(v)| == AlignCount(v)
    ensures Positions(v)[k] == SizeOf(v) - 7 - (AlignCount(v) - 1 - k) * AlignStep(v)
    ensures Positions(v)[k] % 2 == 0
  {
    hide *;
    var a, step := AlignCount(v), AlignStep(v);
    StepFacts(v);
    PositionsAre(v);
    TopPositionsAt(v, a - 1, k - 1);
    var m := a - 1 - k;
    assert a - 1 - 1 - (k - 1) == m;
    EvenMultiple(m, step);
    SizeIsOdd(v);
    EvenDifference(SizeOf(v) - 7, m * step);
  }

  lemma EvenDifference(x: int, y: int)
    requires x % 2 == 0 && y % 2 == 0
    ensures (x - y) % 2 == 0
  {
  }

  lemma PositionsAre(v: version)
    requires v >= 2
    ensures AlignCount(v) >= 2 && Positions(v) == [6] + TopPositions(v, AlignCount(v) - 1)
  {
    hide TopPositions;
  }

  lemma SizeIsOdd(v: version)
    ensures (SizeOf(v) - 7) % 2 == 0
  {
  }

  lemma PositionGap(v: version, k: nat)
    requires v >= 2 && k < AlignCount(v) - 1
    ensures |Positions(v)| == AlignCount(v)
    ensures Positions(v)[0] == 6
    ensures Positions(v)[k + 1] - Positions(v)[k] >= 12
  {
    PositionAt(v, k + 1);
    StepFacts(v);
    if k > 0 {
      PositionAt(v, k);
      if v < 7 {
        FewPositions(v);
      }
      hide *;
      var a := AlignCount(v) - 2 - k;
      assert (a + 1) * AlignStep(v) == a * AlignStep(v) + AlignStep(v);
    }
  }

  lemma PositionsSpaced(v: version)
    requires v >= 2
    ensures Spaced(Positions(v), SizeOf(v))
    ensures |Positions(v)| == AlignCount(v)
  {
    var p, c := Positions(v), AlignCount(v);
    assert c >= 2;
    hide Positions, AlignStep, AlignCount, SizeOf, TopPositions;
    PositionGap(v, 0);
    forall k | 1 <= k < c
      ensures p[k] % 2 == 0
    {
      PositionAt(v, k);
    }
    forall k | 0 <= k < c - 1
      ensures p[k + 1] - p[k] >= 12
    {
      PositionGap(v, k);
    }
    LastPosition(v);
  }

  lemma LastPosition(v: version)
    requires v >= 2
    ensures |Positions(v)| == AlignCount(v) && Positions(v)[AlignCount(v) - 1] == SizeOf(v) - 7
  {
    PositionAt(v, AlignCount(v) - 1);
  }

  lemma FewPositions(v: version)
    requires v < 7
    ensures AlignCount(v) == 2
  {
  }

  lemma EvenMultiple(a: nat, b: nat)
    requires b % 2 == 0
    ensures (a * b) % 2 == 0
  {
    assert a * b == 2 * (a * (b / 2)) by { assert b == 2 * (b / 2); }
  }

  // ----- The layers of a symbol, in the order they are drawn -----

  /** The index of the position within two modules of x, or -1. */
  function Near(p: seq<int>, x: int): (k: int)
    ensures -1 <= k < |p|
    ensures k >= 0 ==> Abs(x - p[k]) <= 2
  {
    if |p| == 0 then -1
    else if Abs(x - p[|p| - 1]) <= 2 then |p| - 1
    else Near(p[..|p| - 1], x)
  }

  lemma {:induction false} NearUnique(p: seq<int>, x: int, k: nat)
    requires k < |p| && Abs(x - p[k]) <= 2
    requires forall i, j :: 0 <= i < j < |p| ==> p[j] - p[i] >= 12
    ensures Near(p, x) == k
  {
    if k < |p| - 1 {
      NearUnique(p[..|p| - 1], x, k);
    }
  }

  lemma {:induction false} Apart(p: seq<int>, i: nat, j: nat)
    requires i < j < |p|
    requires forall k :: 0 <= k < |p| - 1 ==> p[k + 1] - p[k] >= 12
    ensures p[j] - p[i] >= 12
  {
    if i < j - 1 {
      Apart(p, i, j - 1);
      assert p[j - 1 + 1] - p[j - 1] >= 12;
    }
  }

  lemma NearSpaced(p: seq<int>, n: nat, x: int, k: nat)
    requires Spaced(p, n) && k < |p| && Abs(x - p[k]) <= 2
    ensures Near(p, x) == k
  {
    forall i, j | 0 <= i < j < |p|
      ensures p[j] - p[i] >= 12
    {
      Apart(p, i, j);
    }
    NearUnique(p, x, k);
  }

  /** The three crossings of alignment positions that are finder patterns. */
  predicate Corner(last: int, i: int, j: int) {
    (i == 0 && j == 0) || (i == 0 && j == last) || (i == last && j == 0)
  }

  /** The coordinate of the finder centre nearest x. */
  function FinderCentre(n: nat, x: int): int {
    if x <= 7 then 3 else n - 4
  }

  /** Where format bit i goes in the first copy. */
  function FirstFormat(i: nat): (int, int) {
    if i <= 5 then (8, i)
    else if i == 6 then (8, 7)
    else if i == 7 then (8, 8)
    else if i == 8 then (7, 8)
    else (14 - i, 8)
  }

  /** Where format bit i goes in the second copy. */
  function SecondFormat(n: nat, i: nat): (int, int) {
    if i < 8 then (n - 1 - i, 8) else (8, n - 15 + i)
  }

  /** One turn of the version number's division by 0x1f25. */
  function VersionTurn(bits: bv32): bv32 {
    (bits << 1) ^ ((bits >> 11) * 0x1f25)
  }

  /** The check bits after so many turns. */
  function VersionCheck(bits: bv32, turns: nat): bv32 {
    if turns == 0 then bits else VersionTurn(VersionCheck(bits, turns - 1))
  }

  function WithCheck(number: bv32, check: bv32): bv32 {
    (number << 12) | check
  }

  /** The version number followed by its twelve check bits. */
  function VersionWord(v: version): bv32 {
    WithCheck(v as bv32, VersionCheck(v as bv32, 12))
  }

  function Half(word: bv32): bv32 {
    word >> 1
  }

  /** word >>> i */
  function Shifted(word: bv32, i: nat): bv32 {
    if i == 0 then word else Half(Shifted(word, i - 1))
  }

  predicate WordBit(word: bv32, i: nat) {
    Shifted(word, i) & 1 != 0
  }

  /** Which of the eighteen version modules (a, b) is, in the block at the upper right. */
  function VersionIndex(n: nat, a: int, b: int): int {
    3 * b + (a - (n - 11))
  }

  predicate InVersionBlock(n: nat, a: int, b: int) {
    n - 11 <= a <= n - 9 && 0 <= b <= 5
  }

  /** Layer k: 1 timing, 2 finders, 3 alignment, 4 version, 5 format strip, 6 dark module. */
  predicate InLayer(v: version, k: nat, x: int, y: int) {
    var n := SizeOf(v);
    if k == 1 then
      x == 6 || y == 6
    else if k == 2 then
      (x <= 7 && y <= 7) || (x >= n - 8 && y <= 7) || (x <= 7 && y >= n - 8)
    else if k == 3 then
      var p := Positions(v);
      Near(p, x) >= 0 && Near(p, y) >= 0 && !Corner(|p| - 1, Near(p, y), Near(p, x))
    else if k == 4 then
      v >= 7 && (InVersionBlock(n, x, y) || InVersionBlock(n, y, x))
    else if k == 5 then
      (x == 8 && (y <= 5 || y == 7 || y == 8 || y >= n - 7)) || (y == 8 && (x <= 5 || x == 7 || x >= n - 8))
    else
      k == 6 && x == 8 && y == n - 8
  }

  /** Whether layer k draws (x, y) dark, where it draws it at all. */
  predicate LayerDark(v: version, k: nat, x: int, y: int)
    requires InLayer(v, k, x, y)
  {
    var n := SizeOf(v);
    if k == 1 then
      (if x == 6 then y else x) % 2 == 0
    else if k == 2 then
      var distance := Max(Abs(x - FinderCentre(n, x)), Abs(y - FinderCentre(n, y)));
      distance != 2 && distance != 4
    else if k == 3 then
      var p := Positions(v);
      Max(Abs(x - p[Near(p, x)]), Abs(y - p[Near(p, y)])) != 1
    else if k == 4 then
      WordBit(VersionWord(v), if InVersionBlock(n, x, y) then VersionIndex(n, x, y) else VersionIndex(n, y, x))
    else
      k == 6
  }

  datatype Cell = Cell(dark: bool, reserved: bool)

  /** Cell (x, y) once layers 1 to k are drawn. */
  function Drawn(v: version, k: nat, x: int, y: int): Cell {
    if k == 0 then Cell(false, false)
    else if InLayer(v, k, x, y) then Cell(LayerDark(v, k, x, y), true)
    else Drawn(v, k - 1, x, y)
  }

  /** The function pattern: the cells every symbol of a version has in common. */
  function Pattern(v: version, x: int, y: int): Cell {
    Drawn(v, 6, x, y)
  }
}
