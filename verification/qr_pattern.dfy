/** Drawing the function patterns, layer by layer, over two grids in place. */
module QrPattern {
  import opened QrVersion
  import opened QrLayout
  import opened QrWalk

  /** The grids show layers 1 to k. */
  ghost predicate Shows(modules: array2<bool>, reserved: array2<bool>, v: version, k: nat)
    requires Pair(modules, reserved, SizeOf(v))
    reads modules, reserved
  {
    forall x, y :: 0 <= x < SizeOf(v) && 0 <= y < SizeOf(v) ==>
      Cell(modules[y, x], reserved[y, x]) == Drawn(v, k, x, y)
  }

  method Set(modules: array2<bool>, reserved: array2<bool>, x: int, y: int, dark: bool)
    requires modules != reserved
    requires 0 <= y < modules.Length0 == reserved.Length0 && 0 <= x < modules.Length1 == reserved.Length1
    modifies modules, reserved
    ensures modules[y, x] == dark && reserved[y, x]
    ensures forall i, j :: 0 <= i < modules.Length0 && 0 <= j < modules.Length1 && (i != y || j != x) ==>
      modules[i, j] == old(modules[i, j]) && reserved[i, j] == old(reserved[i, j])
  {
    modules[y, x] := dark;
    reserved[y, x] := true;
  }

  method DrawTiming(modules: array2<bool>, reserved: array2<bool>, v: version)
    requires Pair(modules, reserved, SizeOf(v)) && Shows(modules, reserved, v, 0)
    modifies modules, reserved
    ensures Shows(modules, reserved, v, 1)
  {
    var size := SizeOf(v);
    for i := 0 to size
      invariant forall x, y :: 0 <= x < size && 0 <= y < size ==>
        Cell(modules[y, x], reserved[y, x]) ==
        if (x == 6 && y < i) || (y == 6 && x < i) then Drawn(v, 1, x, y) else Drawn(v, 0, x, y)
    {
      Set(modules, reserved, 6, i, i % 2 == 0);
      Set(modules, reserved, i, 6, i % 2 == 0);
    }
  }

  method DrawFinder(modules: array2<bool>, reserved: array2<bool>, v: version, cx: int, cy: int)
    requires Pair(modules, reserved, SizeOf(v))
    requires (cx == 3 || cx == SizeOf(v) - 4) && (cy == 3 || cy == SizeOf(v) - 4) && (cx == 3 || cy == 3)
    modifies modules, reserved
    ensures forall x, y :: 0 <= x < SizeOf(v) && 0 <= y < SizeOf(v) ==>
      Cell(modules[y, x], reserved[y, x]) ==
      if Abs(x - cx) <= 4 && Abs(y - cy) <= 4 then Drawn(v, 2, x, y) else old(Cell(modules[y, x], reserved[y, x]))
  {
    var size := SizeOf(v);
    for dy := -4 to 5
      invariant forall x, y :: 0 <= x < size && 0 <= y < size ==>
        Cell(modules[y, x], reserved[y, x]) ==
        if Abs(x - cx) <= 4 && -4 <= y - cy < dy then Drawn(v, 2, x, y) else old(Cell(modules[y, x], reserved[y, x]))
    {
      for dx := -4 to 5
        invariant forall x, y :: 0 <= x < size && 0 <= y < size ==>
          Cell(modules[y, x], reserved[y, x]) ==
          if (Abs(x - cx) <= 4 && -4 <= y - cy < dy) || (y - cy == dy && -4 <= x - cx < dx) then Drawn(v, 2, x, y)
          else old(Cell(modules[y, x], reserved[y, x]))
      {
        var distance := Max(Abs(dx), Abs(dy));
        var x, y := cx + dx, cy + dy;
        if x < 0 || x >= size || y < 0 || y >= size {
          continue;
        }
        Set(modules, reserved, x, y, distance != 2 && distance != 4);
      }
    }
  }

  method DrawFinders(modules: array2<bool>, reserved: array2<bool>, v: version)
    requires Pair(modules, reserved, SizeOf(v)) && Shows(modules, reserved, v, 1)
    modifies modules, reserved
    ensures Shows(modules, reserved, v, 2)
  {
    var size := SizeOf(v);
    DrawFinder(modules, reserved, v, 3, 3);
    DrawFinder(modules, reserved, v, size - 4, 3);
    DrawFinder(modules, reserved, v, 3, size - 4);
  }

  /** On one axis: the cells around a position are near it and no other, and inside the symbol. */
  lemma AroundPosition(v: version, k: nat, x: int)
    requires k < |Positions(v)| && Abs(x - Positions(v)[k]) <= 2
    ensures v >= 2 && Near(Positions(v), x) == k
    ensures 4 <= x < SizeOf(v) - 4
  {
    HasPositions(v);
    PositionsSpaced(v);
    hide Positions, Near;
    NearSpaced(Positions(v), SizeOf(v), x, k);
    PositionRange(Positions(v), SizeOf(v), k);
  }

  lemma HasPositions(v: version)
    ensures |Positions(v)| > 0 ==> v >= 2
  {
  }

  lemma CrossingDrawn(v: version, x: int, y: int)
    requires InLayer(v, 3, x, y)
    ensures Drawn(v, 3, x, y) == Cell(LayerDark(v, 3, x, y), true)
  {
    hide InLayer, LayerDark;
  }

  lemma CrossingDark(v: version, i: nat, j: nat, x: int, y: int)
    requires i < |Positions(v)| && j < |Positions(v)| && !Corner(|Positions(v)| - 1, i, j)
    requires Near(Positions(v), x) == j && Near(Positions(v), y) == i
    ensures InLayer(v, 3, x, y)
    ensures LayerDark(v, 3, x, y) <==> Max(Abs(x - Positions(v)[j]), Abs(y - Positions(v)[i])) != 1
  {
    hide Positions, Near, Corner, Max, Abs;
  }

  /** The cells around the crossing of positions j and i belong to that pattern alone. */
  lemma AroundCrossing(v: version, i: nat, j: nat, x: int, y: int)
    requires i < |Positions(v)| && j < |Positions(v)| && !Corner(|Positions(v)| - 1, i, j)
    requires Abs(x - Positions(v)[j]) <= 2 && Abs(y - Positions(v)[i]) <= 2
    ensures Near(Positions(v), x) == j && Near(Positions(v), y) == i
    ensures 0 <= x < SizeOf(v) && 0 <= y < SizeOf(v)
    ensures Drawn(v, 3, x, y) == Cell(Max(Abs(x - Positions(v)[j]), Abs(y - Positions(v)[i])) != 1, true)
  {
    hide *;
    AroundPosition(v, j, x);
    AroundPosition(v, i, y);
    CrossingDark(v, i, j, x, y);
    CrossingDrawn(v, x, y);
  }

  lemma PositionRange(p: seq<int>, n: nat, k: nat)
    requires Spaced(p, n) && k < |p|
    ensures 6 <= p[k] <= n - 7
  {
    if k > 0 {
      Apart(p, 0, k);
    }
    if k < |p| - 1 {
      Apart(p, k, |p| - 1);
    }
  }

  /** The alignment pattern at the crossing of positions j and i. */
  method DrawCrossing(modules: array2<bool>, reserved: array2<bool>, v: version, i: nat, j: nat)
    requires Pair(modules, reserved, SizeOf(v))
    requires i < |Positions(v)| && j < |Positions(v)| && !Corner(|Positions(v)| - 1, i, j)
    modifies modules, reserved
    ensures forall x, y :: 0 <= x < SizeOf(v) && 0 <= y < SizeOf(v) ==>
      Cell(modules[y, x], reserved[y, x]) ==
      if Abs(x - Positions(v)[j]) <= 2 && Abs(y - Positions(v)[i]) <= 2 then Drawn(v, 3, x, y)
      else old(Cell(modules[y, x], reserved[y, x]))
  {
    var cx, cy := Positions(v)[j], Positions(v)[i];
    ghost var size := SizeOf(v);
    for dy := -2 to 3
      invariant forall x, y :: 0 <= x < size && 0 <= y < size ==>
        Cell(modules[y, x], reserved[y, x]) ==
        if Abs(x - cx) <= 2 && -2 <= y - cy < dy then Drawn(v, 3, x, y) else old(Cell(modules[y, x], reserved[y, x]))
    {
      for dx := -2 to 3
        invariant forall x, y :: 0 <= x < size && 0 <= y < size ==>
          Cell(modules[y, x], reserved[y, x]) ==
          if (Abs(x - cx) <= 2 && -2 <= y - cy < dy) || (y - cy == dy && -2 <= x - cx < dx) then Drawn(v, 3, x, y)
          else old(Cell(modules[y, x], reserved[y, x]))
      {
        hide Drawn, Positions, SizeOf;
        AroundCrossing(v, i, j, cx + dx, cy + dy);
        Set(modules, reserved, cx + dx, cy + dy, Max(Abs(dx), Abs(dy)) != 1);
      }
    }
  }

  /** Cell (x, y) belongs to a crossing before (i, j) in reading order. */
  predicate Passed(p: seq<int>, x: int, y: int, i: int, j: int) {
    && Near(p, x) >= 0 && Near(p, y) >= 0 && !Corner(|p| - 1, Near(p, y), Near(p, x))
    && (Near(p, y) < i || (Near(p, y) == i && Near(p, x) < j))
  }

  lemma PassedNext(v: version, x: int, y: int, i: nat, j: nat)
    requires i < |Positions(v)| && j < |Positions(v)|
    ensures var p := Positions(v);
      Passed(p, x, y, i, j + 1) <==>
      Passed(p, x, y, i, j) || (!Corner(|p| - 1, i, j) && Abs(x - p[j]) <= 2 && Abs(y - p[i]) <= 2)
  {
    var p := Positions(v);
    if Abs(x - p[j]) <= 2 && Abs(y - p[i]) <= 2 {
      PositionsSpaced(v);
      NearSpaced(p, SizeOf(v), x, j);
      NearSpaced(p, SizeOf(v), y, i);
    }
    hide Near, Positions;
  }

  method DrawAlignment(modules: array2<bool>, reserved: array2<bool>, v: version)
    requires Pair(modules, reserved, SizeOf(v)) && Shows(modules, reserved, v, 2)
    modifies modules, reserved
    ensures Shows(modules, reserved, v, 3)
  {
    hide Positions, Near;
    var positions := AlignmentPositions(v);
    ghost var size := SizeOf(v);
    var last := |positions| - 1;
    for i := 0 to last + 1
      invariant forall x, y :: 0 <= x < size && 0 <= y < size ==>
        Cell(modules[y, x], reserved[y, x]) ==
        if Passed(positions, x, y, i, 0) then Drawn(v, 3, x, y) else Drawn(v, 2, x, y)
    {
      for j := 0 to last + 1
        invariant forall x, y :: 0 <= x < size && 0 <= y < size ==>
          Cell(modules[y, x], reserved[y, x]) ==
          if Passed(positions, x, y, i, j) then Drawn(v, 3, x, y) else Drawn(v, 2, x, y)
      {
        hide Drawn, Passed;
        forall x, y | 0 <= x < size && 0 <= y < size
          ensures Passed(positions, x, y, i, j + 1) <==>
            Passed(positions, x, y, i, j) || (!Corner(last, i, j) && Abs(x - positions[j]) <= 2 && Abs(y - positions[i]) <= 2)
        {
          PassedNext(v, x, y, i, j);
        }
        var corner := (i == 0 && j == 0) || (i == 0 && j == last) || (i == last && j == 0);
        if corner {
          continue;
        }
        DrawCrossing(modules, reserved, v, i, j);
      }
    }
  }

  method DrawVersion(modules: array2<bool>, reserved: array2<bool>, v: version)
    requires Pair(modules, reserved, SizeOf(v)) && Shows(modules, reserved, v, 3)
    modifies modules, reserved
    ensures Shows(modules, reserved, v, 4)
  {
    hide VersionTurn, WithCheck, WordBit, Positions, Near;
    var size := SizeOf(v);
    if v < 7 {
      return;
    }
    var bits := v as bv32;
    for i := 0 to 12
      invariant bits == VersionCheck(v as bv32, i)
    {
      bits := VersionTurn(bits);
    }
    var word := WithCheck(v as bv32, bits);
    hide VersionCheck, VersionWord;
    for i := 0 to 18
      invariant word == VersionWord(v)
      invariant forall x, y :: 0 <= x < size && 0 <= y < size ==>
        Cell(modules[y, x], reserved[y, x]) ==
        if (InVersionBlock(size, x, y) && VersionIndex(size, x, y) < i) || (InVersionBlock(size, y, x) && VersionIndex(size, y, x) < i)
        then Drawn(v, 4, x, y) else Drawn(v, 3, x, y)
    {
      var dark := WordBit(word, i);
      var a, b := size - 11 + i % 3, i / 3;
      Set(modules, reserved, a, b, dark);
      Set(modules, reserved, b, a, dark);
    }
  }

  method FormatPositions(size: nat) returns (first: seq<(int, int)>, second: seq<(int, int)>)
    ensures first == seq(15, i requires 0 <= i < 15 => FirstFormat(i))
    ensures second == seq(15, i requires 0 <= i < 15 => SecondFormat(size, i))
  {
    first := [];
    for i := 0 to 6
      invariant first == seq(i, k requires 0 <= k < i => FirstFormat(k))
    {
      first := first + [(8, i)];
    }
    first := first + [(8, 7), (8, 8), (7, 8)];
    for i := 9 to 15
      invariant first == seq(i, k requires 0 <= k < i => FirstFormat(k))
    {
      first := first + [(14 - i, 8)];
    }
    second := [];
    for i := 0 to 8
      invariant second == seq(i, k requires 0 <= k < i => SecondFormat(size, k))
    {
      second := second + [(size - 1 - i, 8)];
    }
    for i := 8 to 15
      invariant second == seq(i, k requires 0 <= k < i => SecondFormat(size, k))
    {
      second := second + [(8, size - 15 + i)];
    }
  }

  /** Cell (x, y) is one of the first k places of a copy of the format strip. */
  ghost predicate Among(copy: seq<(int, int)>, k: nat, x: int, y: int) {
    exists i :: 0 <= i < k && i < |copy| && copy[i] == (x, y)
  }

  method ReserveCopy(modules: array2<bool>, reserved: array2<bool>, size: nat, copy: seq<(int, int)>)
    requires Pair(modules, reserved, size)
    requires forall i :: 0 <= i < |copy| ==> 0 <= copy[i].0 < size && 0 <= copy[i].1 < size
    modifies modules, reserved
    ensures forall x, y :: 0 <= x < size && 0 <= y < size ==>
      Cell(modules[y, x], reserved[y, x]) ==
      if Among(copy, |copy|, x, y) then Cell(false, true) else old(Cell(modules[y, x], reserved[y, x]))
  {
    for i := 0 to |copy|
      invariant forall x, y :: 0 <= x < size && 0 <= y < size ==>
        Cell(modules[y, x], reserved[y, x]) ==
        if Among(copy, i, x, y) then Cell(false, true) else old(Cell(modules[y, x], reserved[y, x]))
    {
      forall x, y
        ensures Among(copy, i + 1, x, y) <==> Among(copy, i, x, y) || copy[i] == (x, y)
      {
      }
      hide Among;
      Set(modules, reserved, copy[i].0, copy[i].1, false);
    }
  }

  /** The two copies of the format strip are layer 5. */
  lemma FormatLayer(v: version, x: int, y: int)
    requires 0 <= x < SizeOf(v) && 0 <= y < SizeOf(v)
    ensures var n := SizeOf(v);
      InLayer(v, 5, x, y) <==>
      Among(seq(15, i requires 0 <= i < 15 => FirstFormat(i)), 15, x, y)
      || Among(seq(15, i requires 0 <= i < 15 => SecondFormat(n, i)), 15, x, y)
  {
    var n := SizeOf(v);
    var first := seq(15, i requires 0 <= i < 15 => FirstFormat(i));
    var second := seq(15, i requires 0 <= i < 15 => SecondFormat(n, i));
    if InLayer(v, 5, x, y) {
      if x == 8 && y <= 8 {
        assert first[if y <= 5 then y else y - 1] == (x, y);
      } else if y == 8 && x <= 7 {
        assert first[if x == 7 then 8 else 14 - x] == (x, y);
      } else if y == 8 {
        assert second[n - 1 - x] == (x, y);
      } else {
        assert second[y - n + 15] == (x, y);
      }
    }
  }

  method ReserveFormat(modules: array2<bool>, reserved: array2<bool>, v: version)
    requires Pair(modules, reserved, SizeOf(v)) && Shows(modules, reserved, v, 4)
    modifies modules, reserved
    ensures Shows(modules, reserved, v, 5)
  {
    hide Positions, Near;
    var first, second := FormatPositions(SizeOf(v));
    ReserveCopy(modules, reserved, SizeOf(v), first);
    ReserveCopy(modules, reserved, SizeOf(v), second);
    forall x, y | 0 <= x < SizeOf(v) && 0 <= y < SizeOf(v)
      ensures Cell(modules[y, x], reserved[y, x]) == Drawn(v, 5, x, y)
    {
      FormatLayer(v, x, y);
      hide Among, FirstFormat, SecondFormat;
    }
  }

  method FunctionPatterns(v: version) returns (modules: array2<bool>, reserved: array2<bool>)
    ensures Pair(modules, reserved, SizeOf(v))
    ensures fresh(modules) && fresh(reserved)
    ensures forall x, y :: 0 <= x < SizeOf(v) && 0 <= y < SizeOf(v) ==>
      Cell(modules[y, x], reserved[y, x]) == Pattern(v, x, y)
  {
    var size := SizeOf(v);
    modules := new bool[size, size]((_, _) => false);
    reserved := new bool[size, size]((_, _) => false);
    DrawTiming(modules, reserved, v);
    DrawFinders(modules, reserved, v);
    DrawAlignment(modules, reserved, v);
    DrawVersion(modules, reserved, v);
    ReserveFormat(modules, reserved, v);
    Set(modules, reserved, 8, size - 8, true);
    hide Positions, Near;
  }
}
