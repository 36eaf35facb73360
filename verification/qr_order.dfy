/** The order of a symbol's codewords is the standard's: turn by turn through the blocks, short blocks first,
    data codewords before error correction codewords. */
module QrOrder {
  import opened QrStandard
  import opened QrVersion
  import opened QrBlocks
  import opened QrSymbol

  /** When codeword i of a block has its turn: with the i-th data codewords, or with the error correction
      codewords of its number, which come after every data codeword. */
  function Turn(length: nat, i: nat): (bool, nat) {
    if i < length then (false, i) else (true, i - length)
  }

  predicate Earlier(a: (bool, nat), b: (bool, nat)) {
    if a.0 == b.0 then a.1 < b.1 else b.0
  }

  lemma InColumn(plan: Plan, j: nat, i: nat)
    requires plan.Valid() && j < plan.blocks && i < plan.Length(j) + plan.ecc
    ensures var c := ColumnOf(plan, j, i);
      plan.ColumnStart(c) <= Place(plan, j, i) < plan.ColumnStart(c + 1)
  {
  }

  lemma ColumnsOrdered(plan: Plan, j: nat, i: nat, k: nat, l: nat)
    requires plan.Valid() && j < plan.blocks && i < plan.Length(j) + plan.ecc
    requires k < plan.blocks && l < plan.Length(k) + plan.ecc
    requires ColumnOf(plan, j, i) < ColumnOf(plan, k, l)
    ensures Place(plan, j, i) < Place(plan, k, l)
  {
    hide Place, ColumnOf;
    InColumn(plan, j, i);
    InColumn(plan, k, l);
    plan.ColumnMonotone(ColumnOf(plan, j, i) + 1, ColumnOf(plan, k, l));
  }

  lemma TurnIsColumn(plan: Plan, j: nat, i: nat, k: nat, l: nat)
    requires plan.Valid() && j < plan.blocks && k < plan.blocks
    ensures Earlier(Turn(plan.Length(j), i), Turn(plan.Length(k), l)) <==> ColumnOf(plan, j, i) < ColumnOf(plan, k, l)
    ensures Turn(plan.Length(j), i) == Turn(plan.Length(k), l) <==> ColumnOf(plan, j, i) == ColumnOf(plan, k, l)
  {
  }

  /** Of two codewords the one whose turn is earlier stands before the other, and within a turn the one of the earlier
      block. */
  lemma PlacesOrdered(plan: Plan, j: nat, i: nat, k: nat, l: nat)
    requires plan.Valid() && j < plan.blocks && i < plan.Length(j) + plan.ecc
    requires k < plan.blocks && l < plan.Length(k) + plan.ecc
    ensures Place(plan, j, i) < Place(plan, k, l) <==>
      var a, b := Turn(plan.Length(j), i), Turn(plan.Length(k), l);
      Earlier(a, b) || (a == b && j < k)
  {
    hide Turn, Earlier, ColumnOf;
    TurnIsColumn(plan, j, i, k, l);
    TurnIsColumn(plan, k, l, j, i);
    if ColumnOf(plan, j, i) < ColumnOf(plan, k, l) {
      ColumnsOrdered(plan, j, i, k, l);
    } else if ColumnOf(plan, k, l) < ColumnOf(plan, j, i) {
      ColumnsOrdered(plan, k, l, j, i);
    }
  }

  /** The blocks of a version are the standard's: so many short ones, and then so many longer by one. */
  lemma BlocksAreListed(v: version, j: nat)
    requires j < Table(v).short + Table(v).long
    ensures var plan, t := PlanOf(v), Table(v);
      && plan.Valid() && plan.blocks == t.short + t.long && plan.ecc == t.ecc && plan.total == t.total
      && plan.Length(j) == if j < t.short then t.shortData else t.shortData + 1
  {
    VersionFacts(v);
    PlanFacts(v);
    hide Table, TotalCodewords, EccLength, BlockCount, ByteCapacity, Capacity;
  }
}
