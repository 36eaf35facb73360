/** What a camera finds first: the finders and the timing lines come through all the later
    layers untouched. */
module QrLandmarks {
  import opened QrVersion
  import opened QrLayout
  import opened QrCapacity

  /** The ring of the finder whose centre is (cx, cy) that (x, y) lies on. */
  function Ring(cx: int, cy: int, x: int, y: int): int {
    Max(Abs(x - cx), Abs(y - cy))
  }

  /** The three finder centres. */
  predicate Centre(n: nat, cx: int, cy: int) {
    (cx == 3 && cy == 3) || (cx == n - 4 && cy == 3) || (cx == 3 && cy == n - 4)
  }

  lemma NotOver(v: version, x: int, y: int)
    requires InLayer(v, 2, x, y)
    ensures !InLayer(v, 3, x, y) && !InLayer(v, 4, x, y) && !InLayer(v, 5, x, y) && !InLayer(v, 6, x, y)
  {
    MiddleFacts(v, x);
    MiddleFacts(v, y);
    hide Near, Positions;
  }

  /** In every version each finder stands complete: a dark ring, a light one, a dark heart of
      three by three, and the light separator around it. */
  lemma FindersIntact(v: version, cx: int, cy: int, x: int, y: int)
    requires Centre(SizeOf(v), cx, cy)
    requires 0 <= x < SizeOf(v) && 0 <= y < SizeOf(v) && Ring(cx, cy, x, y) <= 4
    ensures Pattern(v, x, y).dark <==> Ring(cx, cy, x, y) == 3 || Ring(cx, cy, x, y) <= 1
  {
    NotOver(v, x, y);
    LayerStep(v, 6, x, y);
    LayerStep(v, 5, x, y);
    LayerStep(v, 4, x, y);
    LayerStep(v, 3, x, y);
    LayerStep(v, 2, x, y);
    hide Near, Positions, Drawn;
  }

  lemma LayerStep(v: version, k: nat, x: int, y: int)
    requires k > 0
    ensures Drawn(v, k, x, y) == if InLayer(v, k, x, y) then Cell(LayerDark(v, k, x, y), true) else Drawn(v, k - 1, x, y)
  {
    hide InLayer, LayerDark;
  }

  /** Between the finders the timing lines alternate without a break, the alignment patterns
      that cross them included. */
  lemma TimingAlternates(v: version, i: int)
    requires 8 <= i <= SizeOf(v) - 9
    ensures Pattern(v, i, 6).dark <==> i % 2 == 0
    ensures Pattern(v, 6, i).dark <==> i % 2 == 0
  {
    TimingCrossing(v, i);
    MiddleFacts(v, 6);
    MiddleFacts(v, i);
    LayerStep(v, 6, i, 6);
    LayerStep(v, 5, i, 6);
    LayerStep(v, 4, i, 6);
    LayerStep(v, 3, i, 6);
    LayerStep(v, 2, i, 6);
    LayerStep(v, 1, i, 6);
    LayerStep(v, 6, 6, i);
    LayerStep(v, 5, 6, i);
    LayerStep(v, 4, 6, i);
    LayerStep(v, 3, 6, i);
    LayerStep(v, 2, 6, i);
    LayerStep(v, 1, 6, i);
    hide Near, Positions, Drawn;
  }

  /** A pattern on the timing line is drawn in step with it, because positions are even. */
  lemma TimingCrossing(v: version, i: int)
    ensures InLayer(v, 3, i, 6) ==> (LayerDark(v, 3, i, 6) <==> i % 2 == 0)
    ensures InLayer(v, 3, 6, i) ==> (LayerDark(v, 3, 6, i) <==> i % 2 == 0)
  {
    if v >= 2 {
      PositionsSpaced(v);
      MiddleFacts(v, 6);
      var p := Positions(v);
      assert Spaced(p, SizeOf(v));
      NearMeans(p, i);
      hide Positions, Near, Spaced;
      assert p[0] == 6 && (Near(p, i) >= 0 ==> p[Near(p, i)] % 2 == 0) by { EvenAt(p, SizeOf(v), Near(p, i)); }
      if Near(p, i) >= 0 {
        InStep(i, p[Near(p, i)]);
      }
    } else {
      MiddleFacts(v, i);
    }
  }

  lemma EvenAt(p: seq<int>, n: nat, k: int)
    requires Spaced(p, n) && -1 <= k < |p|
    ensures p[0] == 6 && (k >= 0 ==> p[k] % 2 == 0)
  {
  }

  lemma InStep(i: int, q: int)
    requires q % 2 == 0 && Abs(i - q) <= 2
    ensures Max(Abs(i - q), Abs(6 - 6)) != 1 <==> i % 2 == 0
    ensures Max(Abs(6 - 6), Abs(i - q)) != 1 <==> i % 2 == 0
  {
  }
}
