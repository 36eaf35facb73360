/** The eight masks, and that they are the standard's: each a tile that repeats. */
module QrMaskTable {
  import opened QrStandard
  import opened Bits

  /** Whether mask m selects module (x, y). */
  predicate MaskTest(m: nat, x: nat, y: nat) {
    if m == 0 then (x + y) % 2 == 0
    else if m == 1 then y % 2 == 0
    else if m == 2 then x % 3 == 0
    else if m == 3 then (x + y) % 3 == 0
    else if m == 4 then (x / 3 + y / 2) % 2 == 0
    else if m == 5 then x * y % 2 + x * y % 3 == 0
    else if m == 6 then (x * y % 2 + x * y % 3) % 2 == 0
    else ((x + y) % 2 + x * y % 3) % 2 == 0
  }

  /** Whether the standard's mask m is dark at (x, y). */
  predicate InMask(m: int, x: nat, y: nat) {
    InTile(m, x % 6, y % 12)
  }

  predicate InTile(m: int, x: nat, y: nat)
    requires x < 6 && y < 12
  {
    TileSizes(m, y);
    Tile(m)[y][x] == '#'
  }

  lemma TileSizes(m: int, y: nat)
    requires y < 12
    ensures |Tile(m)| == 12 && |Tile(m)[y]| == 6
  {
  }

  // ----- Products by their remainders -----

  function Two(x: nat, y: nat): nat {
    if x % 2 == 1 && y % 2 == 1 then 1 else 0
  }

  function Three(x: nat, y: nat): nat {
    if x % 3 == 0 || y % 3 == 0 then 0 else if x % 3 == y % 3 then 1 else 2
  }

  lemma Multiplied(x: nat, y: nat, d: nat, a: nat, r: nat, b: nat, s: nat)
    requires x == d * a + r && y == d * b + s
    ensures x * y == (a * (d * b + s) + r * b) * d + r * s
  {
    assert x * y == d * a * y + r * y;
    assert r * y == r * (d * b) + r * s;
    assert r * (d * b) == (r * b) * d;
    assert d * a * y == (a * y) * d;
    assert (a * y + r * b) * d == (a * y) * d + (r * b) * d;
  }

  lemma Collected(p: nat, q: nat, d: nat, t: nat)
    ensures p * d + (q * d + t) == (p + q) * d + t
  {
  }

  lemma Products(x: nat, y: nat)
    ensures (x * y) % 2 == Two(x, y) && (x * y) % 3 == Three(x, y)
  {
    Product(x, y, 2, x / 2, x % 2, y / 2, y % 2);
    Product(x, y, 3, x / 3, x % 3, y / 3, y % 3);
  }

  lemma Product(x: nat, y: nat, d: nat, a: nat, r: nat, b: nat, s: nat)
    requires 2 <= d <= 3 && x == d * a + r && y == d * b + s && r < d && s < d
    ensures (x * y) % d == if r == 0 || s == 0 then 0 else if r == s then 1 else 2
  {
    Multiplied(x, y, d, a, r, b, s);
    Small(r, s);
    var p := a * (d * b + s) + r * b;
    if r * s == 4 { QuotientIs(x * y, d, p + 1, 1); } else { QuotientIs(x * y, d, p, r * s); }
  }

  lemma Small(r: nat, s: nat)
    requires r < 3 && s < 3
    ensures r * s == if r == 0 then 0 else if r == 1 then s else s + s
  {
  }

  /** The conditions, on remainders only. */
  predicate ByRemainders(m: nat, x: nat, y: nat) {
    if m == 0 then (x + y) % 2 == 0
    else if m == 1 then y % 2 == 0
    else if m == 2 then x % 3 == 0
    else if m == 3 then (x + y) % 3 == 0
    else if m == 4 then (x / 3 + y / 2) % 2 == 0
    else if m == 5 then Two(x, y) + Three(x, y) == 0
    else if m == 6 then (Two(x, y) + Three(x, y)) % 2 == 0
    else ((x + y) % 2 + Three(x, y)) % 2 == 0
  }

  lemma TestByRemainders(m: nat, x: nat, y: nat)
    ensures MaskTest(m, x, y) == ByRemainders(m, x, y)
  {
    Products(x, y);
    hide Two, Three;
  }

  lemma Repeats(m: nat, x: nat, y: nat)
    requires m < 8
    ensures ByRemainders(m, x, y) == ByRemainders(m, x % 6, y % 12)
  {
    var a, b := x / 6, y / 12;
    assert x == 6 * a + x % 6 && y == 12 * b + y % 12;
    hide *;
    RepeatsIn(m, a, x % 6, b, y % 12);
  }

  lemma RepeatsIn(m: nat, a: nat, x: nat, b: nat, y: nat)
    requires m < 8 && x < 6 && y < 12
    ensures ByRemainders(m, 6 * a + x, 12 * b + y) == ByRemainders(m, x, y)
  {
    RestsRepeat(a, x, b, y);
    HalvesRepeat(a, x, b, y);
    SameProducts(6 * a + x, 12 * b + y, x, y);
    hide Two, Three;
  }

  lemma RestsRepeat(a: nat, x: nat, b: nat, y: nat)
    ensures (6 * a + x) % 2 == x % 2 && (6 * a + x) % 3 == x % 3
    ensures (12 * b + y) % 2 == y % 2 && (12 * b + y) % 3 == y % 3
    ensures (6 * a + x + (12 * b + y)) % 2 == (x + y) % 2 && (6 * a + x + (12 * b + y)) % 3 == (x + y) % 3
  {
    SixMore(a, x);
    SixMore(2 * b, y);
    SixMore(a + 2 * b, x + y);
  }

  lemma SixMore(a: nat, x: nat)
    ensures (6 * a + x) % 2 == x % 2 && (6 * a + x) % 3 == x % 3
  {
    QuotientIs(6 * a + x, 2, 3 * a + x / 2, x % 2);
    QuotientIs(6 * a + x, 3, 2 * a + x / 3, x % 3);
  }

  lemma HalvesRepeat(a: nat, x: nat, b: nat, y: nat)
    ensures ((6 * a + x) / 3 + (12 * b + y) / 2) % 2 == (x / 3 + y / 2) % 2
  {
    assert (6 * a + x) / 3 == 2 * a + x / 3 && (12 * b + y) / 2 == 6 * b + y / 2;
  }

  lemma SameProducts(x: nat, y: nat, u: nat, v: nat)
    requires x % 2 == u % 2 && x % 3 == u % 3 && y % 2 == v % 2 && y % 3 == v % 3
    ensures Two(x, y) == Two(u, v) && Three(x, y) == Three(u, v)
  {
  }

  // ----- Cell by cell -----

  lemma Tile0(x: nat, y: nat)
    requires x < 6 && y < 12
    ensures InTile(0, x, y) == ByRemainders(0, x, y)
  {
    if x == 0 {} else if x == 1 {} else if x == 2 {} else if x == 3 {} else if x == 4 {} else {}
  }

  lemma Tile1(x: nat, y: nat)
    requires x < 6 && y < 12
    ensures InTile(1, x, y) == ByRemainders(1, x, y)
  {
    if x == 0 {} else if x == 1 {} else if x == 2 {} else if x == 3 {} else if x == 4 {} else {}
  }

  lemma Tile2(x: nat, y: nat)
    requires x < 6 && y < 12
    ensures InTile(2, x, y) == ByRemainders(2, x, y)
  {
    if x == 0 {} else if x == 1 {} else if x == 2 {} else if x == 3 {} else if x == 4 {} else {}
  }

  lemma Tile3(x: nat, y: nat)
    requires x < 6 && y < 12
    ensures InTile(3, x, y) == ByRemainders(3, x, y)
  {
    if x == 0 {} else if x == 1 {} else if x == 2 {} else if x == 3 {} else if x == 4 {} else {}
  }

  lemma Tile4(x: nat, y: nat)
    requires x < 6 && y < 12
    ensures InTile(4, x, y) == ByRemainders(4, x, y)
  {
    if x == 0 {} else if x == 1 {} else if x == 2 {} else if x == 3 {} else if x == 4 {} else {}
  }

  lemma Tile5Left(x: nat, y: nat)
    requires x < 3 && y < 12
    ensures InTile(5, x, y) == ByRemainders(5, x, y)
  {
    if x == 0 {} else if x == 1 {} else {}
  }

  lemma Tile5Right(x: nat, y: nat)
    requires 3 <= x < 6 && y < 12
    ensures InTile(5, x, y) == ByRemainders(5, x, y)
  {
    if x == 3 {} else if x == 4 {} else {}
  }

  lemma Tile6(x: nat, y: nat)
    requires x < 6 && y < 12
    ensures InTile(6, x, y) == ByRemainders(6, x, y)
  {
    if x == 0 {} else if x == 1 {} else if x == 2 {} else if x == 3 {} else if x == 4 {} else {}
  }

  lemma Tile7Left(x: nat, y: nat)
    requires x < 3 && y < 12
    ensures InTile(7, x, y) == ByRemainders(7, x, y)
  {
    if x == 0 {} else if x == 1 {} else {}
  }

  lemma Tile7Right(x: nat, y: nat)
    requires 3 <= x < 6 && y < 12
    ensures InTile(7, x, y) == ByRemainders(7, x, y)
  {
    if x == 3 {} else if x == 4 {} else {}
  }

  lemma TileIs(m: nat, x: nat, y: nat)
    requires m < 8 && x < 6 && y < 12
    ensures InTile(m, x, y) == ByRemainders(m, x, y)
  {
    hide *;
    match m
    case 0 => Tile0(x, y);
    case 1 => Tile1(x, y);
    case 2 => Tile2(x, y);
    case 3 => Tile3(x, y);
    case 4 => Tile4(x, y);
    case 5 => if x < 3 { Tile5Left(x, y); } else { Tile5Right(x, y); }
    case 6 => Tile6(x, y);
    case _ => if x < 3 { Tile7Left(x, y); } else { Tile7Right(x, y); }
  }

  /** The test of every mask, at every module, is the standard's. */
  lemma MaskIsStandard(m: nat, x: nat, y: nat)
    requires m < 8
    ensures MaskTest(m, x, y) <==> InMask(m, x, y)
  {
    hide MaskTest, InTile, ByRemainders;
    TestByRemainders(m, x, y);
    Repeats(m, x, y);
    TileIs(m, x % 6, y % 12);
  }
}
