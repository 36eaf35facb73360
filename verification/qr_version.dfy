/** The sizes and capacities of the forty QR versions at error correction level M. */
module QrVersion {
  import opened Options
  import opened QrStandard
  import opened Bits

  type version = v: int | 1 <= v <= 40 witness 1

  /** The side of a version's symbol, in modules. */
  function SizeOf(v: version): nat {
    v * 4 + 17
  }

  /** The number of modules left for codewords, by the closed form. */
  function DataModules(v: version): int {
    var base := (16 * v + 128) * v + 64;
    if v < 2 then base
    else
      var aligns := v / 7 + 2;
      base - ((25 * aligns - 10) * aligns - 55) - (if v >= 7 then 36 else 0)
  }

  function TotalCodewords(v: version): int {
    DataModules(v) / 8
  }

  /** Error correction codewords per block. */
  function EccLength(v: version): (n: nat)
    ensures n > 0
  {
    match v
    case 1 => 10
    case 2 => 16
    case 3 => 26
    case 4 => 18
    case 5 => 24
    case 6 => 16
    case 7 => 18
    case 8 => 22
    case 9 => 22
    case 10 => 26
    case 11 => 30
    case 12 => 22
    case 13 => 22
    case 14 => 24
    case 15 => 24
    case 16 => 28
    case 17 => 28
    case 18 => 26
    case 19 => 26
    case 20 => 26
    case 21 => 26
    case 22 => 28
    case 23 => 28
    case 24 => 28
    case 25 => 28
    case 26 => 28
    case 27 => 28
    case 28 => 28
    case 29 => 28
    case 30 => 28
    case 31 => 28
    case 32 => 28
    case 33 => 28
    case 34 => 28
    case 35 => 28
    case 36 => 28
    case 37 => 28
    case 38 => 28
    case 39 => 28
    case _ => 28
  }

  /** Blocks per symbol. */
  function BlockCount(v: version): (n: nat)
    ensures n > 0
  {
    match v
    case 1 => 1
    case 2 => 1
    case 3 => 1
    case 4 => 2
    case 5 => 2
    case 6 => 4
    case 7 => 4
    case 8 => 4
    case 9 => 5
    case 10 => 5
    case 11 => 5
    case 12 => 8
    case 13 => 9
    case 14 => 9
    case 15 => 10
    case 16 => 10
    case 17 => 11
    case 18 => 13
    case 19 => 14
    case 20 => 16
    case 21 => 17
    case 22 => 17
    case 23 => 18
    case 24 => 20
    case 25 => 21
    case 26 => 23
    case 27 => 25
    case 28 => 26
    case 29 => 28
    case 30 => 29
    case 31 => 31
    case 32 => 33
    case 33 => 35
    case 34 => 37
    case 35 => 38
    case 36 => 40
    case 37 => 43
    case 38 => 45
    case 39 => 47
    case _ => 49
  }

  function DataCodewords(v: version): int {
    TotalCodewords(v) - EccLength(v) * BlockCount(v)
  }

  /** The width of the character count. */
  function CountBits(v: version): nat {
    if v <= 9 then 8 else 16
  }

  /** The bits a version has for payload bytes. */
  function Capacity(v: version): int {
    DataCodewords(v) * 8 - 4 - CountBits(v)
  }

  predicate Fits(length: nat, v: version) {
    length * 8 <= Capacity(v)
  }

  /** What a count of the version's width can say. */
  function Wide(v: version): nat {
    if v <= 9 then 256 else 65536
  }

  /** What the tables give each version: whole blocks, of at most 255 codewords, that hold
      some data, and a character count wide enough for whatever fits. */
  predicate Facts(v: version) {
    && EccLength(v) > 0 && BlockCount(v) > 0
    && TotalCodewords(v) / BlockCount(v) > EccLength(v)
    && TotalCodewords(v) / BlockCount(v) < 255
    && Capacity(v) < 8 * Wide(v)
  }

  /** The numbers are those of the standard's tables. */
  predicate Tabled(v: version) {
    var t := Table(v);
    && TotalCodewords(v) == t.total && EccLength(v) == t.ecc && BlockCount(v) == t.short + t.long
    && TotalCodewords(v) / BlockCount(v) == t.shortData + t.ecc && TotalCodewords(v) % BlockCount(v) == t.long
    && CountBits(v) == CountWidth(v)
    && 8 * ByteCapacity(v) <= Capacity(v) < 8 * ByteCapacity(v) + 8
  }

  // ----- The tables -----

  /** The closed form gives the standard's number of codewords. */
  lemma EarlyTotals(v: version)
    requires v < 14
    ensures TotalCodewords(v) == Table(v).total
  {
  }

  lemma MiddleTotals(v: version)
    requires 14 <= v < 28
    ensures TotalCodewords(v) == Table(v).total
  {
  }

  lemma LateTotals(v: version)
    requires 28 <= v
    ensures TotalCodewords(v) == Table(v).total
  {
  }

  /** The two arrays are the standard's columns. */
  lemma ColumnsAre(v: version)
    ensures EccLength(v) == Table(v).ecc && BlockCount(v) == Table(v).short + Table(v).long
  {
  }

  /** The standard's rows add up. */
  lemma RowsAddUp(v: version)
    ensures var t := Table(v);
      && t.short > 0 && t.ecc > 0 && 0 < t.shortData && t.shortData + t.ecc < 255
      && t.total == (t.short + t.long) * (t.shortData + t.ecc) + t.long
  {
  }

  lemma CapacityAddsUp(v: version)
    ensures var t := Table(v);
      && 8 * ByteCapacity(v) + 4 + CountWidth(v) <= 8 * (t.total - t.ecc * (t.short + t.long)) < 8 * ByteCapacity(v) + 12 + CountWidth(v)
      && ByteCapacity(v) + 1 < Wide(v)
  {
  }

  lemma RowDivides(v: version)
    ensures var t := Table(v);
      t.short + t.long > 0 && t.total / (t.short + t.long) == t.shortData + t.ecc && t.total % (t.short + t.long) == t.long
  {
    hide Table;
    RowsAddUp(v);
    var t := Table(v);
    QuotientIs(t.total, t.short + t.long, t.shortData + t.ecc, t.long);
  }

  lemma RowPositive(v: version)
    ensures var t := Table(v); t.short > 0 && t.ecc > 0 && 0 < t.shortData && t.shortData + t.ecc < 255
  {
    RowsAddUp(v);
    hide Table;
  }

  /** Every version has the numbers of the standard's tables, and usable blocks. */
  lemma VersionFacts(v: version)
    ensures Facts(v) && Tabled(v)
  {
    hide Table, ByteCapacity, TotalCodewords, EccLength, BlockCount;
    TotalIs(v);
    ColumnsAre(v);
    RowPositive(v);
    RowDivides(v);
    CapacityAddsUp(v);
  }

  lemma TotalIs(v: version)
    ensures TotalCodewords(v) == Table(v).total
  {
    if v < 14 { EarlyTotals(v); } else if v < 28 { MiddleTotals(v); } else { LateTotals(v); }
  }

  /** What fits is what the standard's byte capacities allow. */
  lemma FitsIs(length: nat, v: version)
    ensures Fits(length, v) <==> length <= ByteCapacity(v)
  {
    VersionFacts(v);
    hide Table, ByteCapacity, Capacity, TotalCodewords, EccLength, BlockCount;
  }

  lemma CapacityGrows(v: version)
    ensures ByteCapacity(v) <= 2331
  {
  }

  lemma LargestCapacity()
    ensures ByteCapacity(40) == 2331
  {
  }

  /** The smallest version whose byte capacity in the standard's table is enough, or none for more than 2331 bytes. */
  method VersionFor(length: nat) returns (r: Option<version>)
    ensures r.None? <==> length > 2331
    ensures r.Some? ==> length <= ByteCapacity(r.value) && forall v: version :: v < r.value ==> length > ByteCapacity(v)
    ensures r.Some? ==> Fits(length, r.value)
  {
    hide Fits, ByteCapacity;
    forall v: version
      ensures (Fits(length, v) <==> length <= ByteCapacity(v)) && ByteCapacity(v) <= 2331
    {
      FitsIs(length, v);
      CapacityGrows(v);
    }
    LargestCapacity();
    for v := 1 to 41
      invariant forall w: version :: w < v ==> !Fits(length, w)
    {
      if Fits(length, v) {
        return Some(v);
      }
    }
    return None;
  }
}
