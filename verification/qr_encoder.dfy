/** The encoder from payload to grid, and what its grid promises. */
module QrEncoder {
  import opened Options
  import opened QrVersion
  import opened QrData
  import opened QrPenalty
  import opened QrScan
  import opened QrStandard
  import opened QrSymbol
  import opened QrWalk

  /** g is the symbol of this payload in the smallest version that holds it, under the first
      of the masks whose symbols score lowest. */
  ghost predicate Draws(g: Grid, bytes: seq<bv8>, v: version, data: seq<bv8>, codewords: seq<bv8>, mask: nat) {
    && |bytes| <= ByteCapacity(v) && (forall w: version :: w < v ==> |bytes| > ByteCapacity(w))
    && PlanOf(v).Valid() && Encodes(codewords, data, bytes, v)
    && mask < 8 && IsSymbol(g, v, codewords, mask)
    && IsGrid(g, SizeOf(v))
    && NoneBetter(v, codewords, 8, Penalty(g, SizeOf(v)))
    && FirstBest(v, codewords, mask, Penalty(g, SizeOf(v)))
  }

  /** Nothing when no version holds the payload; otherwise a grid that scans as the payload,
      and still does after damage to at most three modules of the first format copy and, in each
      block, to at most half as many codewords as it has error correction. */
  method QrMatrix(bytes: seq<bv8>) returns (symbol: Option<array2<bool>>)
    ensures symbol.None? <==> |bytes| > 2331
    ensures symbol.Some? ==> fresh(symbol.value)
    ensures symbol.Some? ==> Scan(GridOf(symbol.value)) == Some(bytes)
    ensures symbol.Some? ==>
      exists v, data, codewords, mask ::
        && Draws(GridOf(symbol.value), bytes, v, data, codewords, mask)
        && forall h: Grid :: NearEnough(h, GridOf(symbol.value), v, mask) ==> Scan(h) == Some(bytes)
  {
    hide *;
    var version := VersionFor(|bytes|);
    if version.None? {
      return None;
    }
    var v := version.value;
    PlanFacts(v);
    var data := EncodeData(bytes, v);
    var codewords := QrBlocks.WithErrorCorrection(data, PlanOf(v));
    EncodesIf(codewords, data, bytes, v);
    var modules, mask := DrawSymbol(v, codewords);
    ghost var g := GridOf(modules);
    SymbolGrid(g, v, codewords, mask);
    SymbolScans(g, bytes, data, codewords, v, mask);
    DrawsIf(g, bytes, v, data, codewords, mask);
    forall h: Grid | NearEnough(h, g, v, mask)
      ensures Scan(h) == Some(bytes)
    {
      DamagedSymbolScans(h, g, bytes, data, codewords, v, mask);
    }
    symbol := Some(modules);
  }

  lemma DrawsIf(g: Grid, bytes: seq<bv8>, v: version, data: seq<bv8>, codewords: seq<bv8>, mask: nat)
    requires |bytes| <= ByteCapacity(v) && (forall w: version :: w < v ==> |bytes| > ByteCapacity(w))
    requires PlanOf(v).Valid() && Encodes(codewords, data, bytes, v)
    requires mask < 8 && IsSymbol(g, v, codewords, mask) && IsGrid(g, SizeOf(v))
    requires NoneBetter(v, codewords, 8, Penalty(g, SizeOf(v)))
    requires FirstBest(v, codewords, mask, Penalty(g, SizeOf(v)))
    ensures Draws(g, bytes, v, data, codewords, mask)
  {
    hide ByteCapacity, PlanOf, Encodes, IsSymbol, NoneBetter, FirstBest, Penalty;
  }
}
