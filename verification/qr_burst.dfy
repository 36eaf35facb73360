/** Why the blocks are interleaved: a burst of damage is shared out among them. */
module QrBurst {
  import opened QrBlocks
  import opened QrScan
  import opened ReedSolomon

  lemma PlaceClosed(plan: Plan, j: nat, i: nat)
    requires plan.Valid()
    ensures
      var c := ColumnOf(plan, j, i);
      Place(plan, j, i) == c * plan.blocks + j - (if c >= plan.ShortData() then plan.Short() else 0)
  {
    plan.ColumnClosed(ColumnOf(plan, j, i));
  }

  /** Codewords of one block that are k apart in the block stand at least k - 1 rounds of all
      the blocks apart in the symbol. */
  lemma PlacesSpread(plan: Plan, j: nat, i: nat, k: nat)
    requires plan.Valid() && k > 0
    ensures Place(plan, j, i + k) - Place(plan, j, i) >= (k - 1) * plan.blocks
  {
    PlaceClosed(plan, j, i);
    PlaceClosed(plan, j, i + k);
    var c, d, short := ColumnOf(plan, j, i), ColumnOf(plan, j, i + k), plan.Short();
    assert d - c >= k;
    hide *;
    Rounds(c, d, k, plan.blocks, short);
  }

  lemma Rounds(c: int, d: int, k: int, b: nat, short: nat)
    requires d - c >= k && short <= b
    ensures d * b - c * b - short >= (k - 1) * b
  {
    assert d * b - c * b == (d - c) * b;
    assert (d - c - k) * b >= 0;
    assert (d - c) * b == k * b + (d - c - k) * b;
    assert k * b == (k - 1) * b + b;
  }

  lemma AtLeast(a: int, t: int, b: nat)
    requires a >= t
    ensures a * b >= t * b
  {
    assert a * b == t * b + (a - t) * b;
  }

  /** All the damage lies in this run of consecutive codewords. */
  ghost predicate Burst(received: seq<bv8>, sent: seq<bv8>, at: nat, length: nat) {
    |received| == |sent| && forall k :: 0 <= k < |sent| && received[k] != sent[k] ==> at <= k < at + length
  }

  /** Words that differ only from index lo up to hi differ in at most hi - lo places. */
  lemma {:induction false} DistanceWithin(p: seq<bv8>, q: seq<bv8>, lo: nat, hi: nat)
    requires |p| == |q| && lo <= hi
    requires forall i :: 0 <= i < |p| && p[i] != q[i] ==> lo <= i < hi
    ensures Distance(p, q) <= hi - lo
    decreases |p|
  {
    if |p| > 0 {
      var n := |p| - 1;
      if n < lo {
        DistanceWithin(p[..n], q[..n], lo, hi);
      } else if n < hi {
        DistanceWithin(p[..n], q[..n], lo, n);
      } else {
        DistanceWithin(p[..n], q[..n], lo, hi);
      }
    }
  }

  /** A burst as long as t rounds of the blocks costs no block more than t + 1 codewords. */
  lemma BurstShared(received: seq<bv8>, sent: seq<bv8>, plan: Plan, at: nat, t: nat, j: nat)
    requires plan.Valid() && |sent| == plan.ColumnStart(plan.Width()) && j < plan.blocks
    requires |received| == |sent| && Burst(received, sent, at, t * plan.blocks)
    ensures Distance(ReadBlock(received, plan, j), ReadBlock(sent, plan, j)) <= t + 1
  {
    hide *;
    var p, q := ReadBlock(received, plan, j), ReadBlock(sent, plan, j);
    var first := FirstDifference(p, q, 0);
    forall i | 0 <= i < |p| && p[i] != q[i]
      ensures first <= i < first + t + 1
    {
      HitNear(received, sent, plan, at, t, j, first, i);
    }
    DistanceWithin(p, q, first, first + t + 1);
  }

  /** Two places of one block that a burst hits are no more than t apart in it. */
  lemma HitNear(received: seq<bv8>, sent: seq<bv8>, plan: Plan, at: nat, t: nat, j: nat, first: nat, i: nat)
    requires plan.Valid() && |sent| == plan.ColumnStart(plan.Width()) && j < plan.blocks
    requires |received| == |sent| && Burst(received, sent, at, t * plan.blocks)
    requires first <= i < |ReadBlock(sent, plan, j)|
    requires ReadBlock(received, plan, j)[first] != ReadBlock(sent, plan, j)[first]
    requires ReadBlock(received, plan, j)[i] != ReadBlock(sent, plan, j)[i]
    ensures i <= first + t
  {
    hide *;
    Hit(received, sent, plan, at, t * plan.blocks, j, first);
    Hit(received, sent, plan, at, t * plan.blocks, j, i);
    if i > first + t {
      PlacesSpread(plan, j, first, i - first);
      AtLeast(i - first - 1, t, plan.blocks);
    }
  }

  lemma Hit(received: seq<bv8>, sent: seq<bv8>, plan: Plan, at: nat, length: nat, j: nat, i: nat)
    requires plan.Valid() && |sent| == plan.ColumnStart(plan.Width()) && j < plan.blocks
    requires Burst(received, sent, at, length)
    requires i < |ReadBlock(sent, plan, j)| && |received| == |sent|
    requires ReadBlock(received, plan, j)[i] != ReadBlock(sent, plan, j)[i]
    ensures i < |ReadBlock(sent, plan, j)| && at <= Place(plan, j, i) < at + length
  {
    PlaceInside(plan, j, i);
    hide Place;
  }

  /** The first place from k on where two blocks differ, or their length. */
  lemma {:induction false} FirstDifference(p: seq<bv8>, q: seq<bv8>, k: nat) returns (first: nat)
    requires |p| == |q| && k <= |p| && forall i :: 0 <= i < k ==> p[i] == q[i]
    ensures first <= |p| && (first < |p| ==> p[first] != q[first]) && forall i :: 0 <= i < first ==> p[i] == q[i]
    decreases |p| - k
  {
    if k == |p| || p[k] != q[k] { first := k; } else { first := FirstDifference(p, q, k + 1); }
  }

  /** So a burst of t rounds is corrected whenever 2 (t + 1) is at most the error correction
      length, wherever in the symbol it falls. */
  lemma BurstCorrectable(received: seq<bv8>, sent: seq<bv8>, plan: Plan, at: nat, t: nat)
    requires plan.Valid() && |sent| == plan.ColumnStart(plan.Width())
    requires |received| == |sent| && Burst(received, sent, at, t * plan.blocks) && 2 * (t + 1) <= plan.ecc
    ensures Correctable(received, sent, plan)
  {
    hide ReadBlock, Distance;
    forall j | 0 <= j < plan.blocks
      ensures 2 * Distance(ReadBlock(received, plan, j), ReadBlock(sent, plan, j)) <= plan.ecc
    {
      BurstShared(received, sent, plan, at, t, j);
    }
  }
}
