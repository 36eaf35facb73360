/** A finished symbol: what each of its modules shows, and the encoder that draws it. */
module QrSymbol {
  import opened Options
  import opened QrVersion
  import opened QrData
  import opened QrLayout
  import opened QrMask
  import opened QrMaskTable
  import opened QrPenalty
  import opened QrWalk
  import QrBlocks
  import QrCapacity
  import QrFormat
  import QrPattern
  import QrPlace

  // ----- The grid of a version -----

  function PatternDark(v: version): (g: Grid)
    ensures IsGrid(g, SizeOf(v))
    ensures forall x, y :: 0 <= x < SizeOf(v) && 0 <= y < SizeOf(v) ==> g[y][x] == Pattern(v, x, y).dark
  {
    seq(SizeOf(v), y requires 0 <= y < SizeOf(v) =>
      seq(SizeOf(v), x requires 0 <= x < SizeOf(v) => Pattern(v, x, y).dark))
  }

  function PatternReserved(v: version): (g: Grid)
    ensures IsGrid(g, SizeOf(v))
    ensures forall x, y :: 0 <= x < SizeOf(v) && 0 <= y < SizeOf(v) ==> g[y][x] == Pattern(v, x, y).reserved
  {
    seq(SizeOf(v), y requires 0 <= y < SizeOf(v) =>
      seq(SizeOf(v), x requires 0 <= x < SizeOf(v) => Pattern(v, x, y).reserved))
  }

  lemma PatternWalkable(v: version)
    ensures Walkable(SizeOf(v), PatternReserved(v))
  {
    forall y | 0 <= y < SizeOf(v)
      ensures PatternReserved(v)[y][6]
    {
      QrCapacity.ReservedLayers(v, 6, y);
      hide Pattern;
    }
  }

  /** The free spots of a version, in the order of the walk. */
  function Spots(v: version): seq<Spot> {
    FreeSpots(SizeOf(v), PatternReserved(v))
  }

  lemma {:induction false} DistinctSize(s: seq<Spot>)
    requires NoRepeats(s)
    ensures |set c | c in s| == |s|
  {
    var all := set c | c in s;
    if |s| == 0 {
      assert all == {};
    } else {
      var short, last := s[..|s| - 1], s[|s| - 1];
      DistinctSize(short);
      var fewer := set c | c in short;
      assert s == short + [last];
      assert all == fewer + {last};
      assert last !in fewer;
    }
  }

  lemma SpotsAre(v: version)
    ensures NoRepeats(Spots(v))
    ensures forall s: Spot :: s in Spots(v) <==> Inside(SizeOf(v), s) && !Pattern(v, s.0, s.1).reserved
  {
    PatternWalkable(v);
    WalkIsExact(SizeOf(v), PatternReserved(v));
    hide Pattern, FreeSpots, SizeOf;
  }

  lemma FreeSpot(v: version, s: Spot)
    ensures s in QrCapacity.FreeSet(v) <==> Inside(SizeOf(v), s) && !Pattern(v, s.0, s.1).reserved
  {
    hide Pattern, SizeOf;
    QrCapacity.CellsRange(v, s);
  }

  /** The walk over a version's grid visits as many spots as the closed form has modules. */
  lemma SpotsCount(v: version)
    ensures |Spots(v)| == DataModules(v)
    ensures NoRepeats(Spots(v))
    ensures forall s: Spot :: s in Spots(v) <==> Inside(SizeOf(v), s) && !Pattern(v, s.0, s.1).reserved
  {
    hide *;
    SpotsAre(v);
    DistinctSize(Spots(v));
    QrCapacity.FreeCount(v);
    var all := set c | c in Spots(v);
    forall s: Spot
      ensures s in all <==> s in QrCapacity.FreeSet(v)
    {
      FreeSpot(v, s);
    }
    assert all == QrCapacity.FreeSet(v);
  }

  // ----- What the modules of a grid show -----

  /** The format strip is reserved. */
  lemma StripReserved(v: version, s: Spot)
    requires Inside(SizeOf(v), s) && FormatIndex(SizeOf(v), s.0, s.1) >= 0
    ensures Pattern(v, s.0, s.1).reserved
  {
    QrCapacity.ReservedLayers(v, s.0, s.1);
    hide Pattern;
  }

  /** What module s shows when the free spots hold `bits`, light after the last of them,
      flipped by mask `flip` if there is one; and the strip names mask `strip` if there is
      one. Everything else is the function pattern. */
  ghost predicate Shows(g: Grid, v: version, bits: seq<bool>, flip: Option<nat>, strip: Option<nat>) {
    && IsGrid(g, SizeOf(v))
    && (strip.Some? ==> strip.value < 8)
    && (forall s: Spot :: Inside(SizeOf(v), s) && Pattern(v, s.0, s.1).reserved ==>
         At(g, s) ==
         var i := FormatIndex(SizeOf(v), s.0, s.1);
         if i >= 0 && strip.Some? then FormatBit(strip.value, i) else Pattern(v, s.0, s.1).dark)
    && (forall i :: 0 <= i < |Spots(v)| ==>
         && Inside(SizeOf(v), Spots(v)[i])
         && At(g, Spots(v)[i]) == ((i < |bits| && bits[i]) != (flip.Some? && InMask(flip.value, Spots(v)[i].0, Spots(v)[i].1))))
  }

  /** The symbol of these codewords under mask m. */
  ghost predicate IsSymbol(g: Grid, v: version, codewords: seq<bv8>, m: nat) {
    Shows(g, v, Stream(codewords), Some(m), Some(m))
  }

  /** Nothing about the grid is left open. */
  lemma ShowsUnique(g: Grid, h: Grid, v: version, bits: seq<bool>, flip: Option<nat>, strip: Option<nat>)
    requires Shows(g, v, bits, flip, strip) && Shows(h, v, bits, flip, strip)
    ensures g == h
  {
    SpotsCount(v);
    hide Pattern, Spots, FormatBit, FormatIndex, InMask;
    forall x, y | 0 <= x < SizeOf(v) && 0 <= y < SizeOf(v)
      ensures g[y][x] == h[y][x]
    {
      var s := (x, y);
      assert Inside(SizeOf(v), s);
      assert At(g, s) == g[y][x] && At(h, s) == h[y][x];
      if !Pattern(v, s.0, s.1).reserved {
        assert s in Spots(v);
        var i :| 0 <= i < |Spots(v)| && Spots(v)[i] == s;
      }
    }
    assert forall y :: 0 <= y < SizeOf(v) ==> g[y] == h[y];
  }

  lemma FreshPattern(v: version, dark: Grid)
    requires dark == PatternDark(v)
    ensures forall i :: 0 <= i < |Spots(v)| ==> Inside(SizeOf(v), Spots(v)[i]) && !At(dark, Spots(v)[i])
  {
    SpotsCount(v);
    forall i | 0 <= i < |Spots(v)|
      ensures Inside(SizeOf(v), Spots(v)[i]) && !At(dark, Spots(v)[i])
    {
      var s := Spots(v)[i];
      assert s in Spots(v);
      UnreservedLight(v, 6, s.0, s.1);
    }
  }

  lemma {:induction false} UnreservedLight(v: version, k: nat, x: int, y: int)
    requires !Drawn(v, k, x, y).reserved
    ensures !Drawn(v, k, x, y).dark
  {
    hide InLayer, LayerDark;
    if k > 0 {
      UnreservedLight(v, k - 1, x, y);
    }
  }

  /** The walk has laid the bits over the pattern. */
  lemma LaidShows(g: Grid, v: version, bits: seq<bool>)
    requires HoldsBits(g, PatternDark(v), SizeOf(v), Spots(v), bits)
    ensures Shows(g, v, bits, None, None)
  {
    FreshPattern(v, PatternDark(v));
    SpotsCount(v);
    hide Pattern, Spots, FormatIndex;
    forall s: Spot | Inside(SizeOf(v), s) && Pattern(v, s.0, s.1).reserved
      ensures At(g, s) == Pattern(v, s.0, s.1).dark
    {
      assert s !in Spots(v);
    }
  }

  lemma MaskShows(g: Grid, before: Grid, v: version, bits: seq<bool>, m: nat, strip: Option<nat>)
    requires MaskedFrom(g, before, PatternReserved(v), SizeOf(v), m)
    ensures Shows(before, v, bits, None, strip) ==> Shows(g, v, bits, Some(m), strip)
    ensures Shows(before, v, bits, Some(m), strip) ==> Shows(g, v, bits, None, strip)
  {
    SpotsCount(v);
    hide Pattern, Spots, FormatIndex, InMask, FormatBit;
    forall i | 0 <= i < |Spots(v)|
      ensures Inside(SizeOf(v), Spots(v)[i]) && !At(PatternReserved(v), Spots(v)[i])
    {
      assert Spots(v)[i] in Spots(v);
    }
  }

  lemma FormatShows(g: Grid, before: Grid, v: version, bits: seq<bool>, m: nat, flip: Option<nat>, strip: Option<nat>)
    requires FormattedFrom(g, before, SizeOf(v), m) && Shows(before, v, bits, flip, strip)
    ensures Shows(g, v, bits, flip, Some(m))
  {
    SpotsCount(v);
    hide Pattern, Spots, FormatIndex, InMask, FormatBit;
    forall i | 0 <= i < |Spots(v)|
      ensures Inside(SizeOf(v), Spots(v)[i]) && FormatIndex(SizeOf(v), Spots(v)[i].0, Spots(v)[i].1) < 0
    {
      var s := Spots(v)[i];
      assert s in Spots(v);
      if FormatIndex(SizeOf(v), s.0, s.1) >= 0 {
        StripReserved(v, s);
      }
    }
  }

  // ----- The encoder -----

  /** How a version shares its codewords out. */
  function PlanOf(v: version): QrBlocks.Plan {
    hide *;
    TotalPositive(v);
    QrBlocks.Plan(BlockCount(v), EccLength(v), TotalCodewords(v))
  }

  lemma TotalPositive(v: version)
    ensures TotalCodewords(v) > 0
  {
    VersionFacts(v);
    hide EccLength, BlockCount, DataModules, TotalCodewords;
  }

  lemma PlanFacts(v: version)
    ensures PlanOf(v).Valid()
    ensures PlanOf(v).Offset(PlanOf(v).blocks) == DataCodewords(v)
    ensures PlanOf(v).ColumnStart(PlanOf(v).Width()) == TotalCodewords(v)
    ensures TotalCodewords(v) / BlockCount(v) < 255
    ensures 0 < TotalCodewords(v) && 8 * TotalCodewords(v) <= DataModules(v)
  {
    VersionFacts(v);
    hide EccLength, BlockCount, DataModules;
    PlanOf(v).Totals();
  }

  /** The codewords of a payload: its data, in blocks with error correction, interleaved. */
  ghost predicate Encodes(codewords: seq<bv8>, data: seq<bv8>, bytes: seq<bv8>, v: version)
    requires PlanOf(v).Valid()
  {
    && |data| == DataCodewords(v) && Holds(data, bytes, v)
    && |codewords| == TotalCodewords(v) && QrBlocks.Interleaves(codewords, data, PlanOf(v))
  }

  /** No mask's symbol of these codewords scores lower than score, among the first k masks. */
  ghost predicate NoneBetter(v: version, codewords: seq<bv8>, k: nat, score: int) {
    forall m: nat, g: Grid :: m < k && IsSymbol(g, v, codewords, m) ==> score <= Penalty(g, SizeOf(v))
  }

  /** Mask best is the first whose symbol scores this low. */
  ghost predicate FirstBest(v: version, codewords: seq<bv8>, best: nat, score: int) {
    && (forall g: Grid :: IsSymbol(g, v, codewords, best) ==> Penalty(g, SizeOf(v)) == score)
    && (forall m: nat, g: Grid :: m < best && IsSymbol(g, v, codewords, m) ==> score < Penalty(g, SizeOf(v)))
  }

  /** Applying, scoring and undoing one mask. */
  method TryMask(modules: array2<bool>, reserved: array2<bool>, v: version, ghost codewords: seq<bv8>, m: nat,
                 ghost strip: Option<nat>)
    returns (score: int)
    requires Pair(modules, reserved, SizeOf(v)) && GridOf(reserved) == PatternReserved(v) && m < 8
    requires Shows(GridOf(modules), v, Stream(codewords), None, strip)
    modifies modules
    ensures GridOf(reserved) == old(GridOf(reserved))
    ensures Shows(GridOf(modules), v, Stream(codewords), None, Some(m))
    ensures forall g: Grid :: IsSymbol(g, v, codewords, m) ==> Penalty(g, SizeOf(v)) == score
  {
    hide MaskedFrom, FormattedFrom, GridOf, Penalty, Stream, FormatBit, FormatIndex, InMask, Spots, Pattern;
    ghost var bits, g0 := Stream(codewords), GridOf(modules);
    ApplyMask(modules, reserved, m);
    MaskShows(GridOf(modules), g0, v, bits, m, strip);
    ghost var g1 := GridOf(modules);
    QrFormat.PlaceFormat(modules, m);
    FormatShows(GridOf(modules), g1, v, bits, m, Some(m), strip);
    ghost var g2 := GridOf(modules);
    score := PenaltyOf(modules);
    forall g: Grid | IsSymbol(g, v, codewords, m)
      ensures Penalty(g, SizeOf(v)) == score
    {
      ShowsUnique(g, g2, v, bits, Some(m), Some(m));
    }
    ApplyMask(modules, reserved, m);
    MaskShows(GridOf(modules), g2, v, bits, m, Some(m));
  }

  /** Trying the eight masks and keeping the best. */
  method ChooseMask(modules: array2<bool>, reserved: array2<bool>, v: version, ghost codewords: seq<bv8>)
    returns (best: nat)
    requires Pair(modules, reserved, SizeOf(v)) && GridOf(reserved) == PatternReserved(v)
    requires Shows(GridOf(modules), v, Stream(codewords), None, None)
    modifies modules
    ensures best < 8 && IsSymbol(GridOf(modules), v, codewords, best)
    ensures NoneBetter(v, codewords, 8, Penalty(GridOf(modules), SizeOf(v)))
    ensures FirstBest(v, codewords, best, Penalty(GridOf(modules), SizeOf(v)))
  {
    hide MaskedFrom, FormattedFrom, Shows, GridOf, Penalty, Stream;
    best := 0;
    var bestScore: Option<int> := None;
    ghost var bits, strip: Option<nat> := Stream(codewords), None;
    for mask := 0 to 8
      invariant best <= mask && (bestScore.None? <==> mask == 0)
      invariant GridOf(reserved) == PatternReserved(v)
      invariant Shows(GridOf(modules), v, bits, None, strip)
      invariant bestScore.Some? ==>
        && best < mask
        && NoneBetter(v, codewords, mask, bestScore.value)
        && FirstBest(v, codewords, best, bestScore.value)
    {
      hide IsSymbol;
      var score := TryMask(modules, reserved, v, codewords, mask, strip);
      strip := Some(mask);
      if bestScore.None? || score < bestScore.value {
        bestScore := Some(score);
        best := mask;
      }
    }
    ghost var g0 := GridOf(modules);
    ApplyMask(modules, reserved, best);
    MaskShows(GridOf(modules), g0, v, bits, best, strip);
    ghost var g1 := GridOf(modules);
    QrFormat.PlaceFormat(modules, best);
    FormatShows(GridOf(modules), g1, v, bits, best, Some(best), strip);
    assert IsSymbol(GridOf(modules), v, codewords, best);
  }

  /** Function patterns, then the codewords, then the best mask. */
  method DrawSymbol(v: version, codewords: seq<bv8>) returns (modules: array2<bool>, best: nat)
    ensures modules.Length0 == modules.Length1 == SizeOf(v) && fresh(modules)
    ensures best < 8 && IsSymbol(GridOf(modules), v, codewords, best)
    ensures NoneBetter(v, codewords, 8, Penalty(GridOf(modules), SizeOf(v)))
    ensures FirstBest(v, codewords, best, Penalty(GridOf(modules), SizeOf(v)))
  {
    hide Shows, GridOf, Penalty, Stream, FreeSpots, PatternDark, PatternReserved, IsSymbol, NoneBetter, FirstBest, HoldsBits, Pattern;
    var reserved;
    modules, reserved := QrPattern.FunctionPatterns(v);
    GridsAre(modules, reserved, v);
    PatternWalkable(v);
    QrPlace.PlaceCodewords(modules, reserved, codewords);
    LaidShows(GridOf(modules), v, Stream(codewords));
    best := ChooseMask(modules, reserved, v, codewords);
  }

  lemma EncodesIf(codewords: seq<bv8>, data: seq<bv8>, bytes: seq<bv8>, v: version)
    requires PlanOf(v).Valid()
    requires |data| == DataCodewords(v) && Holds(data, bytes, v)
    requires |codewords| == PlanOf(v).total && QrBlocks.Interleaves(codewords, data, PlanOf(v))
    ensures Encodes(codewords, data, bytes, v)
  {
    hide Holds, DataCodewords, TotalCodewords, QrBlocks.Interleaves, BlockCount, EccLength;
  }

  lemma GridsAre(modules: array2<bool>, reserved: array2<bool>, v: version)
    requires Pair(modules, reserved, SizeOf(v))
    requires forall x, y :: 0 <= x < SizeOf(v) && 0 <= y < SizeOf(v) ==>
      Cell(modules[y, x], reserved[y, x]) == Pattern(v, x, y)
    ensures GridOf(modules) == PatternDark(v) && GridOf(reserved) == PatternReserved(v)
  {
    hide Pattern;
    forall y | 0 <= y < SizeOf(v)
      ensures GridOf(modules)[y] == PatternDark(v)[y]
      ensures GridOf(reserved)[y] == PatternReserved(v)[y]
    {
      forall x | 0 <= x < SizeOf(v)
        ensures GridOf(modules)[y][x] == PatternDark(v)[y][x]
        ensures GridOf(reserved)[y][x] == PatternReserved(v)[y][x]
      {
        assert Cell(modules[y, x], reserved[y, x]) == Pattern(v, x, y);
      }
    }
  }
}
