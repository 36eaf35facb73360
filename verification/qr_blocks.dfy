/** Splitting a symbol's data into blocks, giving each block its error correction, and
    interleaving the blocks; with the reading that undoes it. Everything here is for any
    number of blocks, any error correction length and any total. */
module QrBlocks {
  import opened ReedSolomon

  lemma BlockProducts(n: nat, q: nat, ecc: nat)
    ensures n * (q - ecc) == n * q - n * ecc && (q + 1) * n == n * q + n
  {
  }

  /** How a symbol's codewords are shared out: this many blocks with this many error
      correction codewords each, total codewords in all. The short blocks come first and
      the long ones carry one data codeword more. */
  datatype Plan = Plan(blocks: nat, ecc: nat, total: nat) {
    ghost predicate Valid() {
      blocks > 0 && ecc > 0 && ecc <= total / blocks
    }

    function Short(): (n: nat)
      requires blocks > 0
      ensures 0 < n <= blocks
    {
      blocks - total % blocks
    }

    /** The data codewords of a short block. */
    function ShortData(): nat
      requires Valid()
    {
      total / blocks - ecc
    }

    /** The data codewords of block i. */
    function Length(i: nat): nat
      requires Valid()
    {
      ShortData() + (if i < Short() then 0 else 1)
    }

    /** Where block i's data begins. */
    function Offset(i: nat): nat
      requires Valid()
    {
      if i == 0 then 0 else Offset(i - 1) + Length(i - 1)
    }

    /** The columns of the interleaving, the placeholder's among them. */
    function Width(): nat
      requires Valid()
    {
      ShortData() + 1 + ecc
    }

    /** The first block that has a codeword in column c. */
    function First(c: nat): (j: nat)
      requires Valid()
      ensures j <= blocks
    {
      if c == ShortData() then Short() else 0
    }

    /** Where column c begins in the interleaved sequence. */
    function ColumnStart(c: nat): nat
      requires Valid()
    {
      if c == 0 then 0 else ColumnStart(c - 1) + (blocks - First(c - 1))
    }

    lemma {:induction false} OffsetClosed(i: nat)
      requires Valid()
      ensures Offset(i) == i * ShortData() + (if i <= Short() then 0 else i - Short())
    {
      if i > 0 {
        OffsetClosed(i - 1);
      }
    }

    lemma {:induction false} ColumnClosed(c: nat)
      requires Valid()
      ensures ColumnStart(c) == c * blocks - (if c <= ShortData() then 0 else Short())
    {
      if c > 0 {
        ColumnClosed(c - 1);
      }
    }

    /** The blocks use up the data, and the columns the total. */
    lemma Totals()
      requires Valid()
      ensures Offset(blocks) == total - blocks * ecc
      ensures ColumnStart(Width()) == total
    {
      hide Offset, ColumnStart;
      OffsetClosed(blocks);
      ColumnClosed(Width());
      var q, r := total / blocks, total % blocks;
      BlockProducts(blocks, q, ecc);
      assert total == blocks * q + r;
      assert Width() == q + 1 && ShortData() == q - ecc;
    }

    lemma {:induction false} OffsetMonotone(i: nat, j: nat)
      requires Valid() && i <= j
      ensures Offset(i) <= Offset(j)
    {
      if i < j {
        OffsetMonotone(i, j - 1);
      }
    }

    lemma {:induction false} ColumnMonotone(c: nat, d: nat)
      requires Valid() && c <= d
      ensures ColumnStart(c) <= ColumnStart(d)
    {
      if c < d {
        ColumnMonotone(c, d - 1);
      }
    }
  }

  /** Block i's share of the data. */
  function BlockData(data: seq<bv8>, plan: Plan, i: nat): (block: seq<bv8>)
    requires plan.Valid() && i < plan.blocks && |data| == plan.Offset(plan.blocks)
    ensures |block| == plan.Length(i)
  {
    plan.OffsetMonotone(i + 1, plan.blocks);
    data[plan.Offset(i)..plan.Offset(i + 1)]
  }

  /** Block i with its placeholder, if it is short, and its error correction. */
  function PaddedBlock(data: seq<bv8>, plan: Plan, i: nat): (block: seq<bv8>)
    requires plan.Valid() && i < plan.blocks && |data| == plan.Offset(plan.blocks)
    ensures |block| == plan.Width()
  {
    var d := BlockData(data, plan, i);
    d + (if i < plan.Short() then [0] else []) + Ecc(d, GeneratorPoly(plan.ecc))
  }

  /** Column c of the padded blocks, without placeholders. */
  function Column(blocks: seq<seq<bv8>>, plan: Plan, c: nat): (column: seq<bv8>)
    requires plan.Valid() && |blocks| == plan.blocks
    requires forall j :: 0 <= j < |blocks| ==> |blocks[j]| > c
    ensures |column| == plan.blocks - plan.First(c)
  {
    seq(plan.blocks - plan.First(c), k requires 0 <= k < plan.blocks - plan.First(c) => blocks[plan.First(c) + k][c])
  }

  /** The first n columns, one after the other. */
  function Columns(blocks: seq<seq<bv8>>, plan: Plan, n: nat): (r: seq<bv8>)
    requires plan.Valid() && |blocks| == plan.blocks
    requires forall j :: 0 <= j < |blocks| ==> |blocks[j]| >= n
    ensures |r| == plan.ColumnStart(n)
  {
    if n == 0 then [] else Columns(blocks, plan, n - 1) + Column(blocks, plan, n - 1)
  }

  /** Where the codeword of block j in column c stands. */
  lemma {:induction false} ColumnsAt(blocks: seq<seq<bv8>>, plan: Plan, n: nat, c: nat, j: nat)
    requires plan.Valid() && |blocks| == plan.blocks
    requires forall j :: 0 <= j < |blocks| ==> |blocks[j]| >= n
    requires c < n && plan.First(c) <= j < plan.blocks
    ensures plan.ColumnStart(c) + (j - plan.First(c)) < plan.ColumnStart(n)
    ensures Columns(blocks, plan, n)[plan.ColumnStart(c) + (j - plan.First(c))] == blocks[j][c]
  {
    if c < n - 1 {
      ColumnsAt(blocks, plan, n - 1, c, j);
    }
  }

  ghost predicate Interleaves(codewords: seq<bv8>, data: seq<bv8>, plan: Plan)
    requires plan.Valid()
  {
    && |data| == plan.Offset(plan.blocks)
    && codewords == Columns(seq(plan.blocks, i requires 0 <= i < plan.blocks => PaddedBlock(data, plan, i)), plan, plan.Width())
  }

  /** Column by column, leaving out the placeholders. */
  method Interleave(blocks: seq<seq<bv8>>, plan: Plan) returns (result: seq<bv8>)
    requires plan.Valid() && |blocks| == plan.blocks
    requires forall j :: 0 <= j < |blocks| ==> |blocks[j]| == plan.Width()
    ensures result == Columns(blocks, plan, plan.Width())
  {
    result := [];
    for c := 0 to plan.Width()
      invariant result == Columns(blocks, plan, c)
    {
      ghost var before := result;
      for j := 0 to plan.blocks
        invariant result == before + Column(blocks, plan, c)[..if j <= plan.First(c) then 0 else j - plan.First(c)]
      {
        if c != plan.ShortData() || j >= plan.Short() {
          result := result + [blocks[j][c]];
        }
      }
    }
  }

  lemma PaddedIs(data: seq<bv8>, plan: Plan, i: nat)
    requires plan.Valid() && i < plan.blocks && |data| == plan.Offset(plan.blocks)
    ensures var d := BlockData(data, plan, i);
      PaddedBlock(data, plan, i) == d + (if i < plan.Short() then [0] else []) + Ecc(d, GeneratorPoly(plan.ecc))
  {
    hide Ecc, GeneratorPoly;
  }

  method WithErrorCorrection(data: seq<bv8>, plan: Plan) returns (result: seq<bv8>)
    requires plan.Valid() && |data| == plan.Offset(plan.blocks)
    ensures |result| == plan.total
    ensures Interleaves(result, data, plan)
  {
    hide Ecc, GeneratorPoly, Columns;
    var shortBlocks := plan.Short();
    var generator := Generator(plan.ecc);
    var divisor := generator[..];
    var blocks: seq<seq<bv8>> := [];
    var at := 0;
    for i := 0 to plan.blocks
      invariant at == plan.Offset(i)
      invariant |blocks| == i
      invariant forall k :: 0 <= k < i ==> blocks[k] == PaddedBlock(data, plan, k)
    {
      var length := plan.ShortData() + (if i < shortBlocks then 0 else 1);
      plan.OffsetMonotone(i + 1, plan.blocks);
      var block := data[at..at + length];
      ghost var d := block;
      assert d == BlockData(data, plan, i);
      at := at + length;
      var ecc := Remainder(block, divisor);
      if i < shortBlocks {
        block := block + [0];
      }
      assert block == d + (if i < plan.Short() then [0] else []);
      assert block + ecc == PaddedBlock(data, plan, i) by { PaddedIs(data, plan, i); }
      hide PaddedBlock, BlockData;
      blocks := blocks + [block + ecc];
    }
    assert blocks == seq(plan.blocks, i requires 0 <= i < plan.blocks => PaddedBlock(data, plan, i));

    result := Interleave(blocks, plan);
    plan.Totals();
  }

  // ----- Reading back -----

  /** The column that codeword i of block j is in. */
  function ColumnOf(plan: Plan, j: nat, i: nat): nat
    requires plan.Valid()
  {
    if i < plan.Length(j) then i else i - plan.Length(j) + plan.ShortData() + 1
  }

  /** Where codeword i of block j stands in the interleaved sequence. */
  function Place(plan: Plan, j: nat, i: nat): int
    requires plan.Valid()
  {
    plan.ColumnStart(ColumnOf(plan, j, i)) + (j - plan.First(ColumnOf(plan, j, i)))
  }

  lemma PlaceInside(plan: Plan, j: nat, i: nat)
    requires plan.Valid() && j < plan.blocks && i < plan.Length(j) + plan.ecc
    ensures 0 <= Place(plan, j, i) < plan.ColumnStart(plan.Width())
  {
    plan.ColumnMonotone(ColumnOf(plan, j, i) + 1, plan.Width());
  }

  /** The codewords of block j: its data, then its error correction. */
  function ReadBlock(codewords: seq<bv8>, plan: Plan, j: nat): (block: seq<bv8>)
    requires plan.Valid() && j < plan.blocks && |codewords| == plan.ColumnStart(plan.Width())
    ensures |block| == plan.Length(j) + plan.ecc
  {
    seq(plan.Length(j) + plan.ecc, i requires 0 <= i < plan.Length(j) + plan.ecc =>
      PlaceInside(plan, j, i);
      codewords[Place(plan, j, i)])
  }

  /** The data codewords of the first n blocks. */
  function ReadData(codewords: seq<bv8>, plan: Plan, n: nat): (data: seq<bv8>)
    requires plan.Valid() && n <= plan.blocks && |codewords| == plan.ColumnStart(plan.Width())
  {
    if n == 0 then []
    else ReadData(codewords, plan, n - 1) + ReadBlock(codewords, plan, n - 1)[..plan.Length(n - 1)]
  }

  /** De-interleaving gives every block back, data and its own error correction together. */
  lemma BlocksRecovered(codewords: seq<bv8>, data: seq<bv8>, plan: Plan, j: nat)
    requires plan.Valid() && Interleaves(codewords, data, plan) && j < plan.blocks
    ensures ReadBlock(codewords, plan, j) == Codeword(BlockData(data, plan, j), plan.ecc)
  {
    hide Ecc, GeneratorPoly;
    var blocks := seq(plan.blocks, i requires 0 <= i < plan.blocks => PaddedBlock(data, plan, i));
    var word := Codeword(BlockData(data, plan, j), plan.ecc);
    forall i | 0 <= i < |word|
      ensures ReadBlock(codewords, plan, j)[i] == word[i]
    {
      ColumnsAt(blocks, plan, plan.Width(), ColumnOf(plan, j, i), j);
      assert blocks[j] == PaddedBlock(data, plan, j);
    }
  }

  lemma InterleavesSizes(codewords: seq<bv8>, data: seq<bv8>, plan: Plan)
    requires plan.Valid() && Interleaves(codewords, data, plan)
    ensures |data| == plan.Offset(plan.blocks) && |codewords| == plan.ColumnStart(plan.Width())
  {
  }

  lemma BlockRead(codewords: seq<bv8>, data: seq<bv8>, plan: Plan, j: nat)
    requires plan.Valid() && Interleaves(codewords, data, plan) && j < plan.blocks
    ensures |codewords| == plan.ColumnStart(plan.Width()) && plan.Offset(j + 1) <= |data|
    ensures plan.Offset(j) <= plan.Offset(j + 1)
    ensures ReadBlock(codewords, plan, j)[..plan.Length(j)] == data[plan.Offset(j)..plan.Offset(j + 1)]
  {
    hide *;
    InterleavesSizes(codewords, data, plan);
    ErrorCorrected(plan);
    BlocksRecovered(codewords, data, plan, j);
    BlockDataIs(data, plan, j);
    CodewordBegins(BlockData(data, plan, j), plan.ecc);
  }

  lemma ReadDataStep(codewords: seq<bv8>, plan: Plan, n: nat)
    requires plan.Valid() && n <= plan.blocks && |codewords| == plan.ColumnStart(plan.Width())
    ensures n == 0 ==> plan.Offset(n) == 0
    ensures ReadData(codewords, plan, n)
      == if n == 0 then [] else ReadData(codewords, plan, n - 1) + ReadBlock(codewords, plan, n - 1)[..plan.Length(n - 1)]
  {
    hide ReadBlock;
  }

  lemma ErrorCorrected(plan: Plan)
    requires plan.Valid()
    ensures plan.ecc > 0
  {
  }

  lemma BlockDataIs(data: seq<bv8>, plan: Plan, j: nat)
    requires plan.Valid() && j < plan.blocks && |data| == plan.Offset(plan.blocks)
    ensures plan.Offset(j) <= plan.Offset(j + 1) <= |data|
    ensures BlockData(data, plan, j) == data[plan.Offset(j)..plan.Offset(j + 1)]
  {
    plan.OffsetMonotone(j, j + 1);
    plan.OffsetMonotone(j + 1, plan.blocks);
  }

  lemma CodewordBegins(block: seq<bv8>, ecc: nat)
    requires ecc > 0
    ensures |block| <= |Codeword(block, ecc)| && Codeword(block, ecc)[..|block|] == block
  {
  }

  /** De-interleaving gives the data back. */
  lemma {:induction false} DataRecovered(codewords: seq<bv8>, data: seq<bv8>, plan: Plan, n: nat)
    requires plan.Valid() && Interleaves(codewords, data, plan) && n <= plan.blocks
    ensures plan.Offset(n) <= |data|
    ensures ReadData(codewords, plan, n) == data[..plan.Offset(n)]
  {
    hide *;
    InterleavesSizes(codewords, data, plan);
    plan.OffsetMonotone(n, plan.blocks);
    ReadDataStep(codewords, plan, n);
    if n > 0 {
      DataRecovered(codewords, data, plan, n - 1);
      BlockRead(codewords, data, plan, n - 1);
      var from, to := plan.Offset(n - 1), plan.Offset(n);
      assert data[..to] == data[..from] + data[from..to];
    }
  }
}
