/** The function patterns of a version leave exactly as many cells as the closed form
    says: the reserved cells are cut into thirteen families of rectangles and counted. */
module QrCapacity {
  import opened Sets
  import opened QrVersion
  import opened QrLayout

  // ----- Counting -----

  function Product(a: set<int>, b: set<int>): set<(int, int)> {
    set x, y | x in a && y in b :: (x, y)
  }

  lemma {:induction false} ProductSize(a: set<int>, b: set<int>)
    ensures |Product(a, b)| == |a| * |b|
    decreases a
  {
    if a != {} {
      var x := Pick(a);
      ProductSize(a - {x}, b);
      RowSize(x, b);
      ProductSplits(a, b, x);
      hide Product;
      OneMoreRow(|a|, |b|);
    } else {
      assert Product(a, b) == {};
    }
  }

  lemma ProductSplits(a: set<int>, b: set<int>, x: int)
    requires x in a
    ensures Product(a, b) == Product(a - {x}, b) + Product({x}, b)
    ensures Product(a - {x}, b) !! Product({x}, b)
  {
  }

  lemma OneMoreRow(n: nat, m: nat)
    requires n > 0
    ensures n * m == (n - 1) * m + m
  {
  }

  lemma {:induction false} RowSize(x: int, b: set<int>)
    ensures |Product({x}, b)| == |b|
    decreases b
  {
    if b != {} {
      var y := Pick(b);
      RowSize(x, b - {y});
      assert Product({x}, b) == Product({x}, b - {y}) + {(x, y)};
    } else {
      assert Product({x}, b) == {};
    }
  }

  function Range(lo: int, hi: int): (r: set<int>)
    requires lo <= hi
    ensures forall x :: x in r <==> lo <= x < hi
    ensures |r| == hi - lo
    decreases hi - lo
  {
    if lo == hi then {} else Range(lo, hi - 1) + {hi - 1}
  }

  // ----- The sides of the rectangles -----

  /** x lies on an alignment pattern that is neither the first nor the last. */
  predicate Middle(p: seq<int>, x: int) {
    1 <= Near(p, x) <= |p| - 2
  }

  predicate InSide(v: version, side: nat, x: int) {
    var n := SizeOf(v);
    if side == 0 then 0 <= x < 9
    else if side == 1 then n - 8 <= x < n
    else if side == 2 then x == 6
    else if side == 3 then 9 <= x < n - 8
    else if side == 4 then Middle(Positions(v), x)
    else if side == 5 then v >= 2 && 4 <= x <= 8 && x != 6
    else if side == 6 then v >= 2 && n - 9 <= x <= n - 5
    else if side == 7 then v >= 7 && n - 11 <= x <= n - 9
    else v >= 7 && 0 <= x <= 5
  }

  function Side(v: version, side: nat): set<int> {
    set x | 0 <= x < SizeOf(v) && InSide(v, side, x)
  }

  /** The sides of rectangle i: across, then down. */
  function Sides(i: nat): (nat, nat) {
    if i == 0 then (0, 0)
    else if i == 1 then (1, 0)
    else if i == 2 then (0, 1)
    else if i == 3 then (2, 3)
    else if i == 4 then (3, 2)
    else if i == 5 then (4, 4)
    else if i == 6 then (4, 5)
    else if i == 7 then (5, 4)
    else if i == 8 then (4, 6)
    else if i == 9 then (6, 4)
    else if i == 10 then (6, 6)
    else if i == 11 then (7, 8)
    else (8, 7)
  }

  predicate InRect(v: version, i: nat, x: int, y: int) {
    InSide(v, Sides(i).0, x) && InSide(v, Sides(i).1, y)
  }

  lemma NearMeans(p: seq<int>, x: int)
    ensures -1 <= Near(p, x) < |p|
    ensures Near(p, x) >= 0 ==> Abs(x - p[Near(p, x)]) <= 2
  {
  }

  lemma MiddleOf(p: seq<int>, n: nat, x: int)
    requires Spaced(p, n) && Middle(p, x)
    ensures |p| > 2 && 9 <= x < n - 11
  {
    hide Near;
    NearMeans(p, x);
    var k := Near(p, x);
    Apart(p, 0, k);
    Apart(p, k, |p| - 1);
  }

  lemma ManyPositions(v: version)
    ensures v == 1 ==> |Positions(v)| == 0
    ensures 2 <= v < 7 ==> |Positions(v)| == 2
  {
    if 2 <= v < 7 { FewPositions(v); }
  }

  lemma NoMiddle(x: int)
    ensures !Middle([], x)
  {
  }

  lemma MiddleInside(v: version, x: int)
    requires Middle(Positions(v), x)
    ensures v >= 7 && 9 <= x < SizeOf(v) - 11
  {
    hide Middle, Positions, Near;
    ManyPositions(v);
    if v >= 2 {
      PositionsSpaced(v);
      MiddleOf(Positions(v), SizeOf(v), x);
    } else {
      assert Positions(v) == [];
      NoMiddle(x);
    }
  }

  lemma EndFacts(v: version, x: int)
    ensures v == 1 ==> Near(Positions(v), x) == -1
    ensures v >= 2 ==> |Positions(v)| >= 2
    ensures v >= 2 ==> (Near(Positions(v), x) == 0 <==> 4 <= x <= 8)
    ensures v >= 2 ==> (Near(Positions(v), x) == |Positions(v)| - 1 <==> SizeOf(v) - 9 <= x <= SizeOf(v) - 5)
  {
    if v >= 2 {
      var p, n := Positions(v), SizeOf(v);
      PositionsSpaced(v);
      if 4 <= x <= 8 {
        NearSpaced(p, n, x, 0);
      }
      if n - 9 <= x <= n - 5 {
        NearSpaced(p, n, x, |p| - 1);
      }
    }
  }

  /** What is needed to know about a version's positions here. */
  lemma MiddleFacts(v: version, x: int)
    ensures Middle(Positions(v), x) ==> v >= 7 && 9 <= x < SizeOf(v) - 11
    ensures v == 1 ==> Near(Positions(v), x) == -1
    ensures v >= 2 ==> |Positions(v)| >= 2
    ensures v >= 2 ==> (Near(Positions(v), x) == 0 <==> 4 <= x <= 8)
    ensures v >= 2 ==> (Near(Positions(v), x) == |Positions(v)| - 1 <==> SizeOf(v) - 9 <= x <= SizeOf(v) - 5)
  {
    hide *;
    EndFacts(v, x);
    if Middle(Positions(v), x) { MiddleInside(v, x); }
  }

  /** The rectangles do not overlap. */
  lemma RectsDisjoint(v: version, i: nat, j: nat, x: int, y: int)
    requires i < j < 13
    ensures !(InRect(v, i, x, y) && InRect(v, j, x, y))
  {
    MiddleFacts(v, x);
    MiddleFacts(v, y);
    hide Near, Positions;
  }

  /** Together they are the reserved cells. */
  lemma RectsReserved(v: version, x: int, y: int)
    requires 0 <= x < SizeOf(v) && 0 <= y < SizeOf(v)
    ensures Pattern(v, x, y).reserved <==> exists i :: 0 <= i < 13 && InRect(v, i, x, y)
  {
    MiddleFacts(v, x);
    MiddleFacts(v, y);
    ReservedLayers(v, x, y);
    hide Near, Positions, Pattern;
    if Pattern(v, x, y).reserved {
      assert InRect(v, 0, x, y) || InRect(v, 1, x, y) || InRect(v, 2, x, y) || InRect(v, 3, x, y) || InRect(v, 4, x, y)
          || InRect(v, 5, x, y) || InRect(v, 6, x, y) || InRect(v, 7, x, y) || InRect(v, 8, x, y) || InRect(v, 9, x, y)
          || InRect(v, 10, x, y) || InRect(v, 11, x, y) || InRect(v, 12, x, y);
    }
  }

  lemma ReservedLayers(v: version, x: int, y: int)
    ensures Pattern(v, x, y).reserved <==>
      InLayer(v, 1, x, y) || InLayer(v, 2, x, y) || InLayer(v, 3, x, y)
      || InLayer(v, 4, x, y) || InLayer(v, 5, x, y) || InLayer(v, 6, x, y)
  {
    hide InLayer, LayerDark;
    DrawnStep(v, 6, x, y);
    DrawnStep(v, 5, x, y);
    DrawnStep(v, 4, x, y);
    DrawnStep(v, 3, x, y);
    DrawnStep(v, 2, x, y);
    DrawnStep(v, 1, x, y);
    hide Drawn;
  }

  lemma DrawnStep(v: version, k: nat, x: int, y: int)
    requires k > 0
    ensures Drawn(v, k, x, y).reserved <==> InLayer(v, k, x, y) || Drawn(v, k - 1, x, y).reserved
    ensures !Drawn(v, 0, x, y).reserved
  {
    hide InLayer, LayerDark;
  }

  // ----- Adding up -----

  function Cells(v: version): set<(int, int)> {
    Product(Range(0, SizeOf(v)), Range(0, SizeOf(v)))
  }

  /** The cells left for codewords. */
  function FreeSet(v: version): set<(int, int)> {
    set c | c in Cells(v) && !Pattern(v, c.0, c.1).reserved
  }

  function Rect(v: version, i: nat): set<(int, int)> {
    Product(Side(v, Sides(i).0), Side(v, Sides(i).1))
  }

  lemma InRectSet(v: version, i: nat, x: int, y: int)
    ensures (x, y) in Rect(v, i) <==> 0 <= x < SizeOf(v) && 0 <= y < SizeOf(v) && InRect(v, i, x, y)
  {
    hide InSide;
  }

  /** The free cells together with the first n rectangles. */
  function Covered(v: version, n: nat): set<(int, int)> {
    if n == 0 then FreeSet(v) else Covered(v, n - 1) + Rect(v, n - 1)
  }

  lemma {:induction false} CoveredIs(v: version, n: nat, x: int, y: int)
    requires 0 <= x < SizeOf(v) && 0 <= y < SizeOf(v) && n <= 13
    ensures (x, y) in Covered(v, n) <==>
      !Pattern(v, x, y).reserved || exists i :: 0 <= i < n && InRect(v, i, x, y)
  {
    hide InRect, Pattern, Rect;
    if n > 0 {
      CoveredIs(v, n - 1, x, y);
      InRectSet(v, n - 1, x, y);
    }
  }

  lemma {:induction false} CoveredInside(v: version, n: nat)
    ensures Covered(v, n) <= Cells(v)
  {
    hide Pattern, InSide;
    if n > 0 {
      CoveredInside(v, n - 1);
    }
  }

  function RectTotal(v: version, n: nat): nat {
    if n == 0 then 0 else RectTotal(v, n - 1) + |Rect(v, n - 1)|
  }

  lemma {:induction false} CoveredSize(v: version, n: nat)
    requires n <= 13
    ensures |Covered(v, n)| == |FreeSet(v)| + RectTotal(v, n)
  {
    hide Pattern, InRect, FreeSet, Rect, Cells;
    if n > 0 {
      CoveredSize(v, n - 1);
      CoveredInside(v, n - 1);
      var before := Covered(v, n - 1);
      forall c | c in before
        ensures c !in Rect(v, n - 1)
      {
        CellsRange(v, c);
        CoveredIs(v, n - 1, c.0, c.1);
        InRectSet(v, n - 1, c.0, c.1);
        if InRect(v, n - 1, c.0, c.1) {
          RectsReserved(v, c.0, c.1);
          var i :| 0 <= i < n - 1 && InRect(v, i, c.0, c.1);
          RectsDisjoint(v, i, n - 1, c.0, c.1);
        }
      }
    }
  }

  lemma CellsRange(v: version, c: (int, int))
    ensures c in Cells(v) <==> 0 <= c.0 < SizeOf(v) && 0 <= c.1 < SizeOf(v)
  {
  }

  /** Every cell is free or in a rectangle. */
  lemma AllCovered(v: version)
    ensures |FreeSet(v)| + RectTotal(v, 13) == SizeOf(v) * SizeOf(v)
  {
    hide Pattern, InRect;
    CoveredInside(v, 13);
    forall c | c in Cells(v)
      ensures c in Covered(v, 13)
    {
      CellsRange(v, c);
      CoveredIs(v, 13, c.0, c.1);
      RectsReserved(v, c.0, c.1);
    }
    assert Covered(v, 13) == Cells(v);
    CoveredSize(v, 13);
    ProductSize(Range(0, SizeOf(v)), Range(0, SizeOf(v)));
  }

  // ----- The size of each side -----

  /** The cells within two of one of the positions 1 to k. */
  function MiddleSet(p: seq<int>, k: nat): set<int>
    requires k < |p|
  {
    if k == 0 then {} else MiddleSet(p, k - 1) + Range(p[k] - 2, p[k] + 3)
  }

  lemma {:induction false} MiddleSetIs(p: seq<int>, n: nat, k: nat, x: int)
    requires Spaced(p, n) && k < |p|
    ensures x in MiddleSet(p, k) <==> 1 <= Near(p, x) <= k
  {
    hide Near, Spaced;
    NearMeans(p, x);
    if k > 0 {
      MiddleSetIs(p, n, k - 1, x);
      if Abs(x - p[k]) <= 2 {
        NearSpaced(p, n, x, k);
      }
    }
  }

  lemma {:induction false} MiddleSetSize(p: seq<int>, n: nat, k: nat)
    requires Spaced(p, n) && k < |p|
    ensures |MiddleSet(p, k)| == 5 * k
  {
    if k > 0 {
      MiddleSetSize(p, n, k - 1);
      var before, block := MiddleSet(p, k - 1), Range(p[k] - 2, p[k] + 3);
      forall x | x in before
        ensures x !in block
      {
        MiddleSetIs(p, n, k - 1, x);
        if x in block {
          NearSpaced(p, n, x, k);
        }
      }
      hide MiddleSet;
      assert MiddleSet(p, k) == before + block by { MiddleSetStep(p, k); }
      assert before !! block;
    }
  }

  lemma MiddleSetStep(p: seq<int>, k: nat)
    requires 0 < k < |p|
    ensures MiddleSet(p, k) == MiddleSet(p, k - 1) + Range(p[k] - 2, p[k] + 3)
  {
  }

  lemma MiddleSize(v: version)
    ensures |Side(v, 4)| == if v == 1 then 0 else 5 * (AlignCount(v) - 2)
  {
    if v == 1 {
      assert Side(v, 4) == {};
    } else {
      PositionsSpaced(v);
      var p := Positions(v);
      var middle := MiddleSet(p, |p| - 2);
      MiddleSetSize(p, SizeOf(v), |p| - 2);
      forall x: int
        ensures x in middle <==> x in Side(v, 4)
      {
        MiddleSide(v, x);
      }
      hide MiddleSet, Side;
      assert Side(v, 4) == middle;
    }
  }

  lemma MiddleSide(v: version, x: int)
    requires v >= 2
    ensures |Positions(v)| >= 2
    ensures x in MiddleSet(Positions(v), |Positions(v)| - 2) <==> x in Side(v, 4)
  {
    PositionsSpaced(v);
    var p := Positions(v);
    hide Positions, Near, MiddleSet, Spaced;
    MiddleFacts(v, x);
    MiddleSetIs(p, SizeOf(v), |p| - 2, x);
  }

  lemma IntervalSize(v: version, side: nat, lo: nat, hi: nat)
    requires lo <= hi <= SizeOf(v)
    requires forall x :: InSide(v, side, x) <==> lo <= x < hi
    ensures |Side(v, side)| == hi - lo
  {
    hide InSide;
    assert Side(v, side) == Range(lo, hi);
  }

  /** The sides that are plain intervals. */
  lemma PlainSizes(v: version)
    ensures |Side(v, 0)| == 9 && |Side(v, 1)| == 8 && |Side(v, 2)| == 1
    ensures |Side(v, 3)| == SizeOf(v) - 17
    ensures |Side(v, 6)| == (if v >= 2 then 5 else 0)
    ensures |Side(v, 7)| == (if v >= 7 then 3 else 0)
    ensures |Side(v, 8)| == (if v >= 7 then 6 else 0)
  {
    var n := SizeOf(v);
    hide Positions, Near, Side, Middle;
    IntervalSize(v, 0, 0, 9);
    IntervalSize(v, 1, n - 8, n);
    IntervalSize(v, 2, 6, 7);
    IntervalSize(v, 3, 9, n - 8);
    IntervalSize(v, 6, n - 9, if v >= 2 then n - 4 else n - 9);
    IntervalSize(v, 7, n - 11, if v >= 7 then n - 8 else n - 11);
    IntervalSize(v, 8, 0, if v >= 7 then 6 else 0);
  }

  lemma BesideTiming(v: version)
    ensures |Side(v, 5)| == (if v >= 2 then 4 else 0)
  {
    hide Positions, Near;
    if v >= 2 {
      var four := {4, 5, 7, 8};
      forall x | x in Side(v, 5)
        ensures x in four
      {
        assert x == 4 || x == 5 || x == 7 || x == 8;
      }
      assert InSide(v, 5, 4) && InSide(v, 5, 5) && InSide(v, 5, 7) && InSide(v, 5, 8);
      assert SizeOf(v) > 8;
      assert four <= Side(v, 5);
      assert Side(v, 5) == four;
    } else {
      assert Side(v, 5) == {};
    }
  }

  lemma RectSize(v: version, i: nat)
    ensures |Rect(v, i)| == |Side(v, Sides(i).0)| * |Side(v, Sides(i).1)|
  {
    ProductSize(Side(v, Sides(i).0), Side(v, Sides(i).1));
  }

  lemma RectTotalIs(v: version)
    ensures RectTotal(v, 13) ==
      |Rect(v, 0)| + |Rect(v, 1)| + |Rect(v, 2)| + |Rect(v, 3)| + |Rect(v, 4)| + |Rect(v, 5)| + |Rect(v, 6)|
      + |Rect(v, 7)| + |Rect(v, 8)| + |Rect(v, 9)| + |Rect(v, 10)| + |Rect(v, 11)| + |Rect(v, 12)|
  {
    hide Rect;
    RectTotalStep(v, 13);
    RectTotalStep(v, 12);
    RectTotalStep(v, 11);
    RectTotalStep(v, 10);
    RectTotalStep(v, 9);
    RectTotalStep(v, 8);
    RectTotalStep(v, 7);
    RectTotalStep(v, 6);
    RectTotalStep(v, 5);
    RectTotalStep(v, 4);
    RectTotalStep(v, 3);
    RectTotalStep(v, 2);
    RectTotalStep(v, 1);
    hide RectTotal;
  }

  lemma RectTotalStep(v: version, n: nat)
    requires n > 0
    ensures RectTotal(v, n) == RectTotal(v, n - 1) + |Rect(v, n - 1)|
    ensures RectTotal(v, 0) == 0
  {
  }

  /** The area of the rectangles, by the number of middle positions. */
  lemma Area(v: version)
    ensures var m := |Side(v, 4)|;
      RectTotal(v, 13) == 225 + 2 * (SizeOf(v) - 17)
        + (if v >= 2 then m * m + 18 * m + 25 else m * m) + (if v >= 7 then 36 else 0)
  {
    hide Side, Rect, RectTotal, SizeOf, Product;
    PlainSizes(v);
    BesideTiming(v);
    var m, n := |Side(v, 4)|, SizeOf(v);
    assert |Rect(v, 0)| == 81 by { RectSize(v, 0); }
    assert |Rect(v, 1)| == 72 by { RectSize(v, 1); }
    assert |Rect(v, 2)| == 72 by { RectSize(v, 2); }
    assert |Rect(v, 3)| == n - 17 by { RectSize(v, 3); }
    assert |Rect(v, 4)| == n - 17 by { RectSize(v, 4); }
    assert |Rect(v, 5)| == m * m by { RectSize(v, 5); }
    assert |Rect(v, 6)| == (if v >= 2 then 4 * m else 0) by { RectSize(v, 6); }
    assert |Rect(v, 7)| == (if v >= 2 then 4 * m else 0) by { RectSize(v, 7); }
    assert |Rect(v, 8)| == (if v >= 2 then 5 * m else 0) by { RectSize(v, 8); }
    assert |Rect(v, 9)| == (if v >= 2 then 5 * m else 0) by { RectSize(v, 9); }
    assert |Rect(v, 10)| == (if v >= 2 then 25 else 0) by { RectSize(v, 10); }
    assert |Rect(v, 11)| == (if v >= 7 then 18 else 0) by { RectSize(v, 11); }
    assert |Rect(v, 12)| == (if v >= 7 then 18 else 0) by { RectSize(v, 12); }
    RectTotalIs(v);
  }

  /** The symbol `FunctionPatterns` draws leaves exactly `DataModules` cells free. */
  lemma FreeCount(v: version)
    ensures |FreeSet(v)| == DataModules(v)
  {
    hide FreeSet, RectTotal, Side, Positions, DataModules;
    AllCovered(v);
    Area(v);
    MiddleSize(v);
    ClosedForm(v);
  }

  lemma Square(v: int, a: int)
    ensures (4 * v + 17) * (4 * v + 17) == (16 * v + 128) * v + 8 * v + 289
    ensures (5 * (a - 2)) * (5 * (a - 2)) + 18 * (5 * (a - 2)) + 25 == (25 * a - 10) * a - 55
  {
  }

  /** The closed form is the square less the rectangles. */
  lemma ClosedForm(v: version)
    ensures var n, m := SizeOf(v), if v == 1 then 0 else 5 * (AlignCount(v) - 2);
      DataModules(v) == n * n - (225 + 2 * (n - 17) + (if v >= 2 then m * m + 18 * m + 25 else m * m) + (if v >= 7 then 36 else 0))
  {
    Square(v, v / 7 + 2);
  }
}
