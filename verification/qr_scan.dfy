/** A scanner for the symbols the encoder draws, written from the standard's side: read the first
    copy of the format, unmask, walk the zigzag, take the blocks apart, correct each one, parse. It
    gets the payload back from the encoder's grid, and from any grid near enough to it. The second
    copy of the format is never looked at, so damage to it does no harm and it repairs none. */
module QrScan {
  import opened Options
  import opened QrVersion
  import opened Bits
  import opened QrData
  import opened QrLayout
  import opened QrMask
  import opened QrMaskTable
  import opened QrWalk
  import opened QrBch
  import opened QrInformation
  import opened QrStandard
  import opened QrSymbol
  import opened QrBlocks
  import opened QrVersionWords
  import QrLandmarks
  import RS = ReedSolomon

  // ----- The format -----

  /** The fifteen modules of the format strip's first copy. */
  function ReadStrip(g: Grid, n: nat): (bits: seq<bool>)
    requires n >= 21 && IsGrid(g, n)
    ensures |bits| == 15
  {
    seq(15, i requires 0 <= i < 15 => FirstPlace(n, i); At(g, FirstStrip()[14 - i]))
  }

  /** The standard's places are the encoder's. */
  lemma FirstPlace(n: nat, i: nat)
    requires n >= 21 && i < 15
    ensures |FirstStrip()| == 15 && FirstStrip()[14 - i] == FirstFormat(i) && Inside(n, FirstFormat(i))
  {
  }

  lemma SecondPlace(n: nat, i: nat)
    requires n >= 21 && i < 15
    ensures |SecondStrip(n)| == 15 && SecondStrip(n)[14 - i] == SecondFormat(n, i) && Inside(n, SecondFormat(n, i))
  {
  }

  function FormatBits(m: nat): (bits: seq<bool>)
    requires m < 8
    ensures |bits| == 15
  {
    seq(15, i requires 0 <= i < 15 => BitSet(FormatInformation(m), i))
  }

  lemma FormatBitsAre(m: nat)
    requires m < 8
    ensures FormatBits(m) == WordBits(FormatWord(m), 15)
  {
    hide BitSet, FormatWord, FormatInformation, WordBit;
    forall i | 0 <= i < 15
      ensures FormatBits(m)[i] == WordBits(FormatWord(m), 15)[i]
    {
      FormatBitIs(m, i);
    }
  }

  /** The mask from k up whose format is within three bits of the strip. */
  function MaskNamed(strip: seq<bool>, k: nat): Option<nat>
    requires |strip| == 15 && k <= 8
    decreases 8 - k
  {
    if k == 8 then None
    else if Hamming(strip, FormatBits(k), 15) <= 3 then Some(k)
    else MaskNamed(strip, k + 1)
  }

  /** Up to three wrong bits leave the mask readable. */
  lemma {:induction false} MaskSurvives(strip: seq<bool>, k: nat, m: nat)
    requires |strip| == 15 && k <= m < 8
    requires Hamming(strip, FormatBits(m), 15) <= 3
    ensures MaskNamed(strip, k) == Some(m)
    decreases 8 - k
  {
    hide FormatWord, WordBits, Hamming, FormatBits;
    if k < m {
      FormatBitsAre(k);
      FormatBitsAre(m);
      FormatWordsFarApart(k, m);
      HammingTriangle(FormatBits(k), strip, FormatBits(m), 15);
      MaskSurvives(strip, k + 1, m);
    }
  }

  // ----- The codewords -----

  /** The free modules along the walk, with mask m taken off. */
  function Unmasked(g: Grid, v: version, m: nat): (bits: seq<bool>)
    requires IsGrid(g, SizeOf(v))
    ensures |bits| == DataModules(v)
  {
    SpotsCount(v);
    seq(|Spots(v)|, i requires 0 <= i < |Spots(v)| =>
      assert Spots(v)[i] in Spots(v);
      At(g, Spots(v)[i]) != InMask(m, Spots(v)[i].0, Spots(v)[i].1))
  }

  function ReadCodewords(g: Grid, v: version, m: nat): (codewords: seq<bv8>)
    requires IsGrid(g, SizeOf(v))
    ensures |codewords| == TotalCodewords(v)
  {
    PlanFacts(v);
    Bytes(Unmasked(g, v, m)[..8 * TotalCodewords(v)])
  }

  /** Unmasking and walking the encoder's grid gives its codewords, then light modules. */
  lemma SymbolCodewords(g: Grid, v: version, codewords: seq<bv8>, m: nat)
    requires IsSymbol(g, v, codewords, m) && |codewords| == TotalCodewords(v)
    ensures ReadCodewords(g, v, m) == codewords
    ensures Unmasked(g, v, m) == Stream(codewords) + Falses(DataModules(v) - 8 * TotalCodewords(v))
  {
    PlanFacts(v);
    SpotsCount(v);
    hide Spots, DataModules, InMask, Stream, Pattern, FormatIndex, Bytes;
    var bits := Unmasked(g, v, m);
    assert bits == Stream(codewords) + Falses(DataModules(v) - 8 * TotalCodewords(v));
    assert bits[..8 * TotalCodewords(v)] == Stream(codewords);
    BytesOfStream(codewords);
  }

  /** Both copies on the encoder's grid, at the standard's places, are the standard's format information. */
  lemma StripShown(g: Grid, v: version, codewords: seq<bv8>, m: nat, i: nat)
    requires IsSymbol(g, v, codewords, m) && i < 15
    ensures m < 8 && IsGrid(g, SizeOf(v)) && |FirstStrip()| == 15 && |SecondStrip(SizeOf(v))| == 15
    ensures Inside(SizeOf(v), FirstStrip()[14 - i]) && Inside(SizeOf(v), SecondStrip(SizeOf(v))[14 - i])
    ensures At(g, FirstStrip()[14 - i]) == BitSet(FormatInformation(m), i)
    ensures At(g, SecondStrip(SizeOf(v))[14 - i]) == BitSet(FormatInformation(m), i)
  {
    var n := SizeOf(v);
    hide Spots, InMask, Stream, Pattern, FormatWord, FirstStrip, SecondStrip, BitSet, FormatInformation, FormatBit;
    FirstPlace(n, i);
    SecondPlace(n, i);
    StripPlaces(n, i);
    CopiesApart(n, FirstFormat(i).0, FirstFormat(i).1);
    StripReserved(v, FirstFormat(i));
    StripReserved(v, SecondFormat(n, i));
    FormatBitIs(m, i);
    hide FirstFormat, SecondFormat;
  }

  /** The strip of the encoder's grid is the format word itself. */
  lemma SymbolStrip(g: Grid, v: version, codewords: seq<bv8>, m: nat)
    requires IsSymbol(g, v, codewords, m)
    ensures m < 8 && IsGrid(g, SizeOf(v)) && ReadStrip(g, SizeOf(v)) == FormatBits(m)
  {
    hide *;
    StripShown(g, v, codewords, m, 0);
    SizeIsLarge(v);
    forall i | 0 <= i < 15
      ensures ReadStrip(g, SizeOf(v))[i] == FormatBits(m)[i]
    {
      StripShown(g, v, codewords, m, i);
      ReadStripAt(g, SizeOf(v), i);
      FormatBitsAt(m, i);
    }
  }

  lemma SizeIsLarge(v: version)
    ensures SizeOf(v) >= 21
  {
  }

  lemma ReadStripAt(g: Grid, n: nat, i: nat)
    requires n >= 21 && IsGrid(g, n) && i < 15
    ensures |FirstStrip()| == 15 && Inside(n, FirstStrip()[14 - i])
    ensures ReadStrip(g, n)[i] == At(g, FirstStrip()[14 - i])
  {
    FirstPlace(n, i);
    hide FirstStrip, FirstFormat, At;
  }

  lemma FormatBitsAt(m: nat, i: nat)
    requires m < 8 && i < 15
    ensures FormatBits(m)[i] == BitSet(FormatInformation(m), i)
  {
    hide BitSet, FormatInformation;
  }

  // ----- Correction -----

  /** This data's codeword is within half the error correction length of the block. */
  ghost predicate Explains(data: seq<bv8>, block: seq<bv8>, degree: nat)
    requires degree > 0
  {
    |data| + degree == |block| && 2 * RS.Distance(block, RS.Codeword(data, degree)) <= degree
  }

  /** The data whose codeword is that near to the received block, if there is any. */
  ghost function Corrected(block: seq<bv8>, degree: nat): Option<seq<bv8>>
    requires degree > 0
  {
    if data :| Explains(data, block, degree) then Some(data) else None
  }

  lemma CorrectedIs(block: seq<bv8>, data: seq<bv8>, degree: nat)
    requires degree > 0 && |block| <= 255 && Explains(data, block, degree)
    ensures Corrected(block, degree) == Some(data)
  {
    hide RS.Distance, RS.Codeword;
    var found := Corrected(block, degree).value;
    RS.UniqueCorrection(block, found, data, degree);
  }

  /** The corrected data of the first n blocks, if every one can be corrected. */
  ghost function CorrectedData(codewords: seq<bv8>, plan: Plan, n: nat): Option<seq<bv8>>
    requires plan.Valid() && n <= plan.blocks && |codewords| == plan.ColumnStart(plan.Width())
  {
    if n == 0 then Some([])
    else
      var before := CorrectedData(codewords, plan, n - 1);
      var block := Corrected(ReadBlock(codewords, plan, n - 1), plan.ecc);
      if before.None? || block.None? then None else Some(before.value + block.value)
  }

  /** Every block has at most half as many wrong codewords as error correction codewords. */
  ghost predicate Correctable(received: seq<bv8>, sent: seq<bv8>, plan: Plan)
    requires plan.Valid()
  {
    && |received| == |sent| == plan.ColumnStart(plan.Width())
    && forall j :: 0 <= j < plan.blocks ==>
         2 * RS.Distance(ReadBlock(received, plan, j), ReadBlock(sent, plan, j)) <= plan.ecc
  }

  lemma {:induction false} DataSurvives(received: seq<bv8>, sent: seq<bv8>, data: seq<bv8>, plan: Plan, n: nat)
    requires plan.Valid() && Interleaves(sent, data, plan) && Correctable(received, sent, plan) && n <= plan.blocks
    requires plan.total / plan.blocks < 255 && |received| == plan.ColumnStart(plan.Width())
    ensures plan.Offset(n) <= |data|
    ensures CorrectedData(received, plan, n) == Some(data[..plan.Offset(n)])
  {
    hide *;
    plan.OffsetMonotone(n, plan.blocks);
    DataLength(sent, data, plan);
    CorrectedStep(received, plan, n);
    if n > 0 {
      DataSurvives(received, sent, data, plan, n - 1);
      BlocksRecovered(sent, data, plan, n - 1);
      var d := BlockData(data, plan, n - 1);
      BlockExplained(received, sent, data, plan, n - 1);
      CorrectedIs(ReadBlock(received, plan, n - 1), d, plan.ecc);
      BlockSlices(data, plan, n - 1);
    } else {
      NoBlocks(plan);
    }
  }

  lemma CorrectedStep(codewords: seq<bv8>, plan: Plan, n: nat)
    requires plan.Valid() && n <= plan.blocks && |codewords| == plan.ColumnStart(plan.Width())
    ensures CorrectedData(codewords, plan, n) ==
      if n == 0 then Some([])
      else
        var before := CorrectedData(codewords, plan, n - 1);
        var block := Corrected(ReadBlock(codewords, plan, n - 1), plan.ecc);
        if before.None? || block.None? then None else Some(before.value + block.value)
  {
    hide ReadBlock, Corrected;
  }

  lemma NoBlocks(plan: Plan)
    requires plan.Valid()
    ensures plan.Offset(0) == 0
  {
  }

  lemma BlockSlices(data: seq<bv8>, plan: Plan, j: nat)
    requires plan.Valid() && j < plan.blocks && |data| == plan.Offset(plan.blocks)
    ensures plan.Offset(j) <= plan.Offset(j + 1) <= |data|
    ensures data[..plan.Offset(j)] + BlockData(data, plan, j) == data[..plan.Offset(j + 1)]
  {
    plan.OffsetMonotone(j, j + 1);
    plan.OffsetMonotone(j + 1, plan.blocks);
  }

  lemma BlockExplained(received: seq<bv8>, sent: seq<bv8>, data: seq<bv8>, plan: Plan, j: nat)
    requires plan.Valid() && Interleaves(sent, data, plan) && Correctable(received, sent, plan) && j < plan.blocks
    requires plan.total / plan.blocks < 255
    ensures Explains(BlockData(data, plan, j), ReadBlock(received, plan, j), plan.ecc)
    ensures plan.ecc > 0 && |ReadBlock(received, plan, j)| <= 255
  {
    hide RS.Distance, RS.Codeword, ReadBlock, Interleaves;
    DataLength(sent, data, plan);
    BlocksRecovered(sent, data, plan, j);
  }

  lemma DataLength(sent: seq<bv8>, data: seq<bv8>, plan: Plan)
    requires plan.Valid() && Interleaves(sent, data, plan)
    ensures |data| == plan.Offset(plan.blocks) && |sent| == plan.ColumnStart(plan.Width())
  {
    hide PaddedBlock;
  }

  // ----- The scanner -----

  /** The version whose symbols have this side. */
  function VersionOf(n: nat): Option<version> {
    if n >= 21 && (n - 17) % 4 == 0 && (n - 17) / 4 <= 40 then Some((n - 17) / 4) else None
  }

  ghost function Scan(g: Grid): Option<seq<bv8>> {
    var side := VersionOf(|g|);
    if side.None? || !IsGrid(g, |g|) then None
    else
      var v := side.value;
      var mask := MaskNamed(ReadStrip(g, SizeOf(v)), 0);
      if mask.None? then None
      else
        PlanFacts(v);
        var data := CorrectedData(ReadCodewords(g, v, mask.value), PlanOf(v), PlanOf(v).blocks);
        if data.None? then None else ParseData(data.value, v)
  }

  /** h is g with at most three bits of the first format copy wrong and every block still correctable. */
  ghost predicate NearEnough(h: Grid, g: Grid, v: version, m: nat) {
    && IsGrid(h, SizeOf(v)) && IsGrid(g, SizeOf(v)) && PlanOf(v).Valid()
    && Hamming(ReadStrip(h, SizeOf(v)), ReadStrip(g, SizeOf(v)), 15) <= 3
    && Correctable(ReadCodewords(h, v, m), ReadCodewords(g, v, m), PlanOf(v))
  }

  lemma ScanSteps(g: Grid, v: version, m: nat, data: seq<bv8>)
    requires IsGrid(g, SizeOf(v)) && MaskNamed(ReadStrip(g, SizeOf(v)), 0) == Some(m) && PlanOf(v).Valid()
    requires |ReadCodewords(g, v, m)| == PlanOf(v).ColumnStart(PlanOf(v).Width())
    requires CorrectedData(ReadCodewords(g, v, m), PlanOf(v), PlanOf(v).blocks) == Some(data)
    ensures Scan(g) == ParseData(data, v)
  {
    hide ReadCodewords, ReadStrip, MaskNamed, CorrectedData, ParseData, PlanOf;
  }

  /** A damaged symbol that is near enough scans as the payload it was drawn for. */
  lemma DamagedSymbolScans(h: Grid, g: Grid, bytes: seq<bv8>, data: seq<bv8>, codewords: seq<bv8>, v: version, m: nat)
    requires Fits(|bytes|, v) && PlanOf(v).Valid() && Encodes(codewords, data, bytes, v)
    requires IsSymbol(g, v, codewords, m) && NearEnough(h, g, v, m)
    ensures Scan(h) == Some(bytes)
  {
    hide ReadCodewords, ReadStrip, Hamming, IsSymbol, Holds, Interleaves, Fits, FormatBits, CorrectedData, DataCodewords,
         TotalCodewords, ParseData, MaskNamed, Scan, PlanOf, Shows, BlockCount;
    var plan := PlanOf(v);
    PlanFacts(v);
    PlanTotal(v);
    SymbolStrip(g, v, codewords, m);
    SymbolCodewords(g, v, codewords, m);
    MaskSurvives(ReadStrip(h, SizeOf(v)), 0, m);
    hide *;
    DataLength(codewords, data, plan);
    DataSurvives(ReadCodewords(h, v, m), codewords, data, plan, plan.blocks);
    assert data[..|data|] == data;
    ScanSteps(h, v, m, data);
    ParseHeld(bytes, v, data);
  }

  lemma PlanTotal(v: version)
    ensures PlanOf(v).blocks == BlockCount(v) && PlanOf(v).total == TotalCodewords(v)
  {
    hide TotalCodewords, BlockCount, EccLength;
  }

  /** The encoder's own grid scans. */
  lemma SymbolScans(g: Grid, bytes: seq<bv8>, data: seq<bv8>, codewords: seq<bv8>, v: version, m: nat)
    requires Fits(|bytes|, v) && PlanOf(v).Valid() && Encodes(codewords, data, bytes, v)
    requires IsSymbol(g, v, codewords, m)
    ensures NearEnough(g, g, v, m) && Scan(g) == Some(bytes)
  {
    hide *;
    NearItself(g, v, codewords, m);
    DamagedSymbolScans(g, g, bytes, data, codewords, v, m);
  }

  lemma NearItself(g: Grid, v: version, codewords: seq<bv8>, m: nat)
    requires IsSymbol(g, v, codewords, m) && PlanOf(v).Valid()
    ensures NearEnough(g, g, v, m)
  {
    hide Hamming, ReadStrip, ReadCodewords, IsSymbol, PlanOf, Correctable;
    SymbolGrid(g, v, codewords, m);
    SizeIsLarge(v);
    HammingSelf(ReadStrip(g, SizeOf(v)), 15);
    PlanFacts(v);
    CorrectableSelf(ReadCodewords(g, v, m), PlanOf(v));
  }

  lemma CorrectableSelf(received: seq<bv8>, plan: Plan)
    requires plan.Valid() && |received| == plan.ColumnStart(plan.Width())
    ensures Correctable(received, received, plan)
  {
    hide RS.Distance, ReadBlock;
    forall j | 0 <= j < plan.blocks
      ensures RS.Distance(ReadBlock(received, plan, j), ReadBlock(received, plan, j)) == 0
    {
      RS.DistanceZero(ReadBlock(received, plan, j), ReadBlock(received, plan, j));
    }
  }

  lemma SymbolGrid(g: Grid, v: version, codewords: seq<bv8>, m: nat)
    requires IsSymbol(g, v, codewords, m)
    ensures IsGrid(g, SizeOf(v))
  {
    hide Pattern, Spots, InMask, FormatBit, FormatIndex, Stream;
  }

  // ----- The version information -----

  /** Where bit i of the version information stands, at the upper right and at the lower left. */
  function VersionPlace(n: int, i: nat, lower: bool): (int, int)
    requires i < 18
  {
    VersionPlaces(n, i);
    var at := VersionBlock(n)[17 - i];
    if lower then (at.1, at.0) else at
  }

  lemma VersionPlaces(n: int, i: nat)
    requires i < 18
    ensures |VersionBlock(n)| == 18 && VersionBlock(n)[17 - i] == (n - 11 + i % 3, i / 3)
  {
  }

  lemma VersionLayer(v: version, i: nat, lower: bool)
    requires v >= 7 && i < 18
    ensures var s := VersionPlace(SizeOf(v), i, lower);
      && Inside(SizeOf(v), s) && InLayer(v, 4, s.0, s.1) && !InLayer(v, 5, s.0, s.1) && !InLayer(v, 6, s.0, s.1)
      && FormatIndex(SizeOf(v), s.0, s.1) < 0
      && LayerDark(v, 4, s.0, s.1) == WordBit(VersionWord(v), i)
  {
    VersionPlaces(SizeOf(v), i);
    hide VersionBlock, WordBit, VersionWord;
  }

  lemma VersionPattern(v: version, i: nat, lower: bool)
    requires v >= 7 && i < 18
    ensures var s := VersionPlace(SizeOf(v), i, lower);
      Inside(SizeOf(v), s) && FormatIndex(SizeOf(v), s.0, s.1) < 0
      && Pattern(v, s.0, s.1) == Cell(BitSet(VersionInformation(v), i), true)
  {
    hide *;
    var s := VersionPlace(SizeOf(v), i, lower);
    VersionLayer(v, i, lower);
    VersionBitIs(v, i);
    FourthShows(v, s.0, s.1);
  }

  lemma FourthShows(v: version, x: int, y: int)
    requires InLayer(v, 4, x, y) && !InLayer(v, 5, x, y) && !InLayer(v, 6, x, y)
    ensures Pattern(v, x, y) == Cell(LayerDark(v, 4, x, y), true)
  {
    hide InLayer, LayerDark, Drawn;
    QrLandmarks.LayerStep(v, 6, x, y);
    QrLandmarks.LayerStep(v, 5, x, y);
    QrLandmarks.LayerStep(v, 4, x, y);
  }

  /** Both version blocks on the encoder's grid, at the standard's places, are the standard's version information. */
  lemma VersionShown(g: Grid, v: version, codewords: seq<bv8>, m: nat, i: nat, lower: bool)
    requires IsSymbol(g, v, codewords, m) && v >= 7 && i < 18
    ensures IsGrid(g, SizeOf(v)) && Inside(SizeOf(v), VersionPlace(SizeOf(v), i, lower))
    ensures At(g, VersionPlace(SizeOf(v), i, lower)) == BitSet(VersionInformation(v), i)
  {
    VersionPattern(v, i, lower);
    hide VersionPlace, Pattern, Spots, FormatBit, FormatIndex, InMask, Stream, BitSet, VersionInformation;
  }

  /** A version block as it is read. */
  function ReadVersion(g: Grid, n: nat, lower: bool): (bits: seq<bool>)
    requires n >= 21 && IsGrid(g, n)
    ensures |bits| == 18
  {
    seq(18, i requires 0 <= i < 18 => VersionInside(n, i, lower); At(g, VersionPlace(n, i, lower)))
  }

  lemma VersionInside(n: nat, i: nat, lower: bool)
    requires n >= 21 && i < 18
    ensures Inside(n, VersionPlace(n, i, lower))
  {
    VersionPlaces(n, i);
    hide VersionBlock;
  }

  function VersionBits(v: version): (bits: seq<bool>)
    requires v >= 7
    ensures |bits| == 18
  {
    seq(18, i requires 0 <= i < 18 => BitSet(VersionInformation(v), i))
  }

  lemma VersionBitsAre(v: version)
    requires v >= 7
    ensures VersionBits(v) == WordBits(VersionWord(v), 18)
  {
    hide BitSet, VersionWord, VersionInformation, WordBit;
    forall i | 0 <= i < 18
      ensures VersionBits(v)[i] == WordBits(VersionWord(v), 18)[i]
    {
      VersionBitIs(v, i);
    }
  }

  /** The version from k up whose information is within three bits of what was read. */
  function VersionNamed(bits: seq<bool>, k: nat): Option<version>
    requires |bits| == 18 && 7 <= k <= 41
    decreases 41 - k
  {
    if k == 41 then None
    else if Hamming(bits, VersionBits(k), 18) <= 3 then Some(k)
    else VersionNamed(bits, k + 1)
  }

  /** A version block with at most three wrong bits names its version. */
  lemma {:induction false} VersionSurvives(bits: seq<bool>, k: nat, v: version)
    requires |bits| == 18 && 7 <= k <= v && Hamming(bits, VersionBits(v), 18) <= 3
    ensures VersionNamed(bits, k) == Some(v)
    decreases 41 - k
  {
    hide VersionWord, WordBits, Hamming, VersionBits;
    if k < v {
      VersionBitsAre(k);
      VersionBitsAre(v);
      VersionWordsFarApart(k, v);
      HammingTriangle(VersionBits(k), bits, VersionBits(v), 18);
      VersionSurvives(bits, k + 1, v);
    }
  }

  lemma VersionBlockRead(g: Grid, v: version, codewords: seq<bv8>, m: nat, lower: bool)
    requires IsSymbol(g, v, codewords, m) && v >= 7
    ensures IsGrid(g, SizeOf(v)) && SizeOf(v) >= 21 && ReadVersion(g, SizeOf(v), lower) == VersionBits(v)
  {
    hide *;
    SymbolGrid(g, v, codewords, m);
    SizeIsLarge(v);
    forall i | 0 <= i < 18
      ensures ReadVersion(g, SizeOf(v), lower)[i] == VersionBits(v)[i]
    {
      VersionShown(g, v, codewords, m, i, lower);
      ReadVersionAt(g, SizeOf(v), i, lower);
      VersionBitsAt(v, i);
    }
  }

  lemma ReadVersionAt(g: Grid, n: nat, i: nat, lower: bool)
    requires n >= 21 && IsGrid(g, n) && i < 18
    ensures Inside(n, VersionPlace(n, i, lower)) && ReadVersion(g, n, lower)[i] == At(g, VersionPlace(n, i, lower))
  {
    VersionInside(n, i, lower);
    hide VersionPlace, At;
  }

  lemma VersionBitsAt(v: version, i: nat)
    requires v >= 7 && i < 18
    ensures VersionBits(v)[i] == BitSet(VersionInformation(v), i)
  {
    hide BitSet, VersionInformation;
  }

  /** From version 7 on either block of a symbol, with up to three modules of it wrong, gives the version. */
  lemma VersionScans(h: Grid, g: Grid, v: version, codewords: seq<bv8>, m: nat, lower: bool)
    requires IsSymbol(g, v, codewords, m) && v >= 7 && IsGrid(g, SizeOf(v)) && IsGrid(h, SizeOf(v))
    requires Hamming(ReadVersion(h, SizeOf(v), lower), ReadVersion(g, SizeOf(v), lower), 18) <= 3
    ensures VersionNamed(ReadVersion(h, SizeOf(v), lower), 7) == Some(v)
  {
    hide *;
    VersionBlockRead(g, v, codewords, m, lower);
    VersionSurvives(ReadVersion(h, SizeOf(v), lower), 7, v);
  }
}
