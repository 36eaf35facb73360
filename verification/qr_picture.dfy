/** Every symbol looks as the standard draws it: finders, alignment patterns, timing, and the format and version
    information read back from where the standard puts them. */
module QrPicture {
  import opened Options
  import opened QrStandard
  import opened QrVersion
  import opened QrLayout
  import opened QrCapacity
  import QrLandmarks

  // ----- Alignment positions -----

  lemma CentresCount(v: version)
    ensures |AlignmentCentres(v)| == if v == 1 then 0 else v / 7 + 2
  {
  }

  lemma CentresEnds(v: version)
    requires v > 1
    ensures var c := AlignmentCentres(v); |c| >= 2 && c[0] == 6 && c[|c| - 1] == SizeOf(v) - 7
  {
  }

  /** How far apart the last two are. */
  function Spacing(v: version): int
    requires v > 1
  {
    CentresCount(v);
    var c := AlignmentCentres(v);
    c[|c| - 1] - c[|c| - 2]
  }

  /** The standard's centres are evenly spaced but for the first. */
  ghost predicate Even(v: version)
    requires v > 1
  {
    var c := AlignmentCentres(v);
    forall k :: 2 <= k < |c| ==> c[k] - c[k - 1] == Spacing(v)
  }

  lemma Step7(v: version)
    requires 7 <= v < 14
    ensures Spacing(v) == AlignStep(v)
  {
    assert AlignCount(v) == 3;
  }

  lemma Step14(v: version)
    requires 14 <= v < 21
    ensures Spacing(v) == AlignStep(v)
  {
    assert AlignCount(v) == 4;
  }

  lemma Step21(v: version)
    requires 21 <= v < 28
    ensures Spacing(v) == AlignStep(v)
  {
    assert AlignCount(v) == 5;
  }

  lemma Step28(v: version)
    requires 28 <= v < 35
    ensures Spacing(v) == AlignStep(v)
  {
    assert AlignCount(v) == 6;
  }

  lemma Step35(v: version)
    requires 35 <= v < 41
    ensures Spacing(v) == AlignStep(v)
  {
    assert AlignCount(v) == 7;
  }

  lemma SpacingIsStep(v: version)
    requires v >= 7
    ensures Spacing(v) == AlignStep(v)
  {
    hide *;
    if v >= 35 { Step35(v); } else if v >= 28 { Step28(v); } else if v >= 21 { Step21(v); }
    else if v >= 14 { Step14(v); } else { Step7(v); }
  }

  lemma FewCentres(v: version)
    requires 1 < v < 21
    ensures Even(v)
  {
  }

  lemma ManyCentres(v: version)
    requires 21 <= v < 28
    ensures Even(v)
  {
  }

  lemma MoreCentres(v: version)
    requires 28 <= v < 35
    ensures Even(v)
  {
  }

  lemma MostCentres(v: version)
    requires 35 <= v
    ensures Even(v)
  {
  }

  lemma EvenCentres(v: version)
    requires v > 1
    ensures Even(v)
  {
    hide *;
    if v < 21 { FewCentres(v); } else if v < 28 { ManyCentres(v); } else if v < 35 { MoreCentres(v); } else { MostCentres(v); }
  }

  lemma OneStep(k: nat, step: int)
    requires k > 1
    ensures (k - 1) * step == (k - 2) * step + step
  {
  }

  lemma Headed(c: seq<int>, i: nat)
    requires i < |c|
    ensures c[i..] == [c[i]] + c[i + 1..] && c[|c|..] == []
  {
  }

  lemma TopStep(v: version, k: nat)
    requires k > 0
    ensures TopPositions(v, k) == [SizeOf(v) - 7 - (k - 1) * AlignStep(v)] + TopPositions(v, k - 1) && TopPositions(v, 0) == []
  {
    hide AlignStep, SizeOf;
  }

  lemma {:induction false} TopAre(v: version, k: nat)
    requires 2 <= v && 0 < k <= v / 7 + 1
    ensures var c := AlignmentCentres(v);
      && |c| == v / 7 + 2 && TopPositions(v, k) == c[|c| - k..]
      && c[|c| - k] == SizeOf(v) - 7 - (k - 1) * AlignStep(v)
  {
    hide AlignmentCentres, AlignStep, SizeOf, Spacing;
    CentresCount(v);
    CentresEnds(v);
    var c := AlignmentCentres(v);
    if k > 1 {
      TopAre(v, k - 1);
      EvenCentres(v);
      SpacingIsStep(v);
      OneStep(k, AlignStep(v));
      Headed(c, |c| - k);
      TopStep(v, k);
      hide TopPositions;
      assert c[|c| - k + 1] - c[|c| - k] == AlignStep(v);
    } else {
      TopStep(v, 1);
      Headed(c, |c| - 1);
      hide TopPositions;
    }
  }

  /** The alignment positions are those of the standard's table, version 32 included. */
  lemma PositionsAreListed(v: version)
    ensures Positions(v) == AlignmentCentres(v)
  {
    hide AlignmentCentres, AlignStep, TopPositions;
    CentresCount(v);
    if v > 1 {
      CentresEnds(v);
      TopAre(v, v / 7 + 1);
      var c := AlignmentCentres(v);
      assert c == [6] + c[1..];
    }
  }


  // ----- Finders, alignment patterns, the dark module -----

  predicate IsDark(row: string, x: nat) {
    x < |row| && row[x] == '#'
  }

  lemma FinderFirst(x: nat)
    requires x < 7
    ensures IsDark(FinderRow(0), x) && QrLandmarks.Ring(3, 3, x, 0) == 3
  {
  }

  lemma FinderSecond(x: nat)
    requires x < 7
    ensures IsDark(FinderRow(1), x) <==> QrLandmarks.Ring(3, 3, x, 1) == 3
    ensures QrLandmarks.Ring(3, 3, x, 1) >= 2
  {
  }

  lemma FinderHeart(x: nat, y: nat)
    requires x < 7 && 2 <= y < 5
    ensures IsDark(FinderRow(y), x) <==> QrLandmarks.Ring(3, 3, x, y) == 3 || QrLandmarks.Ring(3, 3, x, y) <= 1
  {
    if x == 0 {} else if x == 1 {} else if x == 2 {} else if x == 3 {} else if x == 4 {} else if x == 5 {} else {}
  }

  lemma FinderBottom(x: nat, y: nat)
    requires x < 7 && 5 <= y < 7
    ensures IsDark(FinderRow(y), x) <==> QrLandmarks.Ring(3, 3, x, y) == 3 || QrLandmarks.Ring(3, 3, x, y) <= 1
  {
    if x == 0 {} else if x == 1 {} else if x == 2 {} else if x == 3 {} else if x == 4 {} else if x == 5 {} else {}
  }

  lemma FinderRings(x: nat, y: nat)
    requires x < 7 && y < 7
    ensures IsDark(FinderRow(y), x) <==> QrLandmarks.Ring(3, 3, x, y) == 3 || QrLandmarks.Ring(3, 3, x, y) <= 1
  {
    hide *;
    if y == 0 { FinderFirst(x); } else if y == 1 { FinderSecond(x); } else if y < 5 { FinderHeart(x, y); } else { FinderBottom(x, y); }
  }

  lemma RingMoves(n: nat, cx: int, cy: int, x: nat, y: nat)
    requires n >= 21 && QrLandmarks.Centre(n, cx, cy) && x < 7 && y < 7
    ensures QrLandmarks.Ring(cx, cy, cx - 3 + x, cy - 3 + y) == QrLandmarks.Ring(3, 3, x, y) <= 4
    ensures 0 <= cx - 3 + x < n && 0 <= cy - 3 + y < n
  {
  }

  lemma SizeIsLarge(v: version)
    ensures SizeOf(v) >= 21
  {
  }

  /** The three finders are the standard's picture, whatever is drawn after them. */
  lemma FinderPicture(v: version, cx: int, cy: int, x: nat, y: nat)
    requires QrLandmarks.Centre(SizeOf(v), cx, cy) && x < 7 && y < 7
    ensures Pattern(v, cx - 3 + x, cy - 3 + y).dark <==> IsDark(FinderRow(y), x)
  {
    hide *;
    SizeIsLarge(v);
    FinderRings(x, y);
    RingMoves(SizeOf(v), cx, cy, x, y);
    QrLandmarks.FindersIntact(v, cx, cy, cx - 3 + x, cy - 3 + y);
  }

  lemma AlignmentRings(x: nat, y: nat)
    requires x < 5 && y < 5
    ensures IsDark(AlignmentRow(y), x) <==> Max(Abs(x - 2), Abs(y - 2)) != 1
  {
    if y == 0 {} else if y == 1 {} else if y == 2 {} else if y == 3 {} else {}
  }

  /** Nothing is drawn over an alignment pattern. */
  lemma AlignmentStays(v: version, x: int, y: int)
    requires InLayer(v, 3, x, y)
    ensures !InLayer(v, 4, x, y) && !InLayer(v, 5, x, y) && !InLayer(v, 6, x, y)
  {
    MiddleFacts(v, x);
    MiddleFacts(v, y);
    hide Near, Positions;
  }

  lemma AlignmentShows(v: version, x: int, y: int)
    requires InLayer(v, 3, x, y)
    ensures Pattern(v, x, y).dark == LayerDark(v, 3, x, y)
  {
    AlignmentStays(v, x, y);
    QrLandmarks.LayerStep(v, 6, x, y);
    QrLandmarks.LayerStep(v, 5, x, y);
    QrLandmarks.LayerStep(v, 4, x, y);
    QrLandmarks.LayerStep(v, 3, x, y);
    hide InLayer, LayerDark, Drawn;
  }

  lemma NearPosition(v: version, k: nat, x: int)
    requires v > 1 && k < |Positions(v)| && Abs(x - Positions(v)[k]) <= 2
    ensures Near(Positions(v), x) == k
  {
    hide Positions, Near, Spaced;
    PositionsSpaced(v);
    NearSpaced(Positions(v), SizeOf(v), x, k);
  }

  lemma AlignmentLayer(v: version, i: nat, j: nat, x: int, y: int)
    requires v > 1 && i < |Positions(v)| && j < |Positions(v)| && !Corner(|Positions(v)| - 1, i, j)
    requires Abs(x - Positions(v)[j]) <= 2 && Abs(y - Positions(v)[i]) <= 2
    ensures InLayer(v, 3, x, y)
    ensures LayerDark(v, 3, x, y) <==> Max(Abs(x - Positions(v)[j]), Abs(y - Positions(v)[i])) != 1
  {
    hide Positions, Near, Corner, Max, Abs;
    NearPosition(v, j, x);
    NearPosition(v, i, y);
  }

  /** At every crossing of the standard's positions but the three finders' stands the standard's picture. */
  lemma AlignmentPicture(v: version, i: nat, j: nat, x: nat, y: nat)
    requires var last := |AlignmentCentres(v)| - 1;
      i <= last && j <= last && (i, j) != (0, 0) && (i, j) != (0, last) && (i, j) != (last, 0)
    requires x < 5 && y < 5
    ensures var c := AlignmentCentres(v);
      Pattern(v, c[j] - 2 + x, c[i] - 2 + y).dark <==> IsDark(AlignmentRow(y), x)
  {
    hide AlignmentCentres, Positions, Pattern, IsDark, FinderRow, AlignmentRow, InLayer, LayerDark;
    CentresCount(v);
    PositionsAreListed(v);
    AlignmentRings(x, y);
    var c := AlignmentCentres(v);
    AlignmentLayer(v, i, j, c[j] - 2 + x, c[i] - 2 + y);
    AlignmentShows(v, c[j] - 2 + x, c[i] - 2 + y);
  }

  lemma DarkModule(v: version)
    ensures Pattern(v, 8, SizeOf(v) - 8).dark
  {
    hide InLayer;
    assert InLayer(v, 6, 8, SizeOf(v) - 8) by { DarkLayer(v); }
  }

  lemma DarkLayer(v: version)
    ensures InLayer(v, 6, 8, SizeOf(v) - 8)
  {
  }
}
