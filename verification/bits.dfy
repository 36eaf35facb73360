/** Numbers and their bits, most significant first. */
module Bits {
  function Pow2(k: nat): (p: nat)
    ensures p > 0
  {
    if k == 0 then 1 else 2 * Pow2(k - 1)
  }

  /** value >>> k */
  function ShiftRight(value: nat, k: nat): nat {
    if k == 0 then value else ShiftRight(value, k - 1) / 2
  }

  function BitsOf(value: nat, width: nat): (bits: seq<bool>)
    ensures |bits| == width
  {
    if width == 0 then [] else BitsOf(value / 2, width - 1) + [value % 2 == 1]
  }

  function ValueOf(bits: seq<bool>): nat {
    if |bits| == 0 then 0
    else 2 * ValueOf(bits[..|bits| - 1]) + (if bits[|bits| - 1] then 1 else 0)
  }

  lemma {:induction false} ValueOfBits(value: nat, width: nat)
    requires value < Pow2(width)
    ensures ValueOf(BitsOf(value, width)) == value
  {
    if width > 0 {
      ValueOfBits(value / 2, width - 1);
      var bits := BitsOf(value, width);
      assert bits[..width - 1] == BitsOf(value / 2, width - 1);
    }
  }

  function Falses(n: nat): seq<bool> {
    seq(n, _ => false)
  }

  lemma {:induction false} BitsOfZero(width: nat)
    ensures BitsOf(0, width) == Falses(width)
  {
    if width > 0 {
      BitsOfZero(width - 1);
    }
  }

  lemma {:induction false} ValueBelow(bits: seq<bool>)
    ensures ValueOf(bits) < Pow2(|bits|)
  {
    if |bits| > 0 { ValueBelow(bits[..|bits| - 1]); }
  }

  lemma {:induction false} BitsOfValue(bits: seq<bool>)
    ensures BitsOf(ValueOf(bits), |bits|) == bits
  {
    if |bits| > 0 {
      var init := bits[..|bits| - 1];
      BitsOfValue(init);
      assert bits == init + [bits[|bits| - 1]];
    }
  }

  lemma {:induction false} Pow2Add(a: nat, b: nat)
    ensures Pow2(a + b) == Pow2(a) * Pow2(b)
  {
    if b > 0 {
      Pow2Add(a, b - 1);
      assert Pow2(a) * Pow2(b) == Pow2(a) * (2 * Pow2(b - 1)) == 2 * (Pow2(a) * Pow2(b - 1));
    }
  }

  lemma ValueSnoc(a: seq<bool>, x: bool)
    ensures ValueOf(a + [x]) == 2 * ValueOf(a) + (if x then 1 else 0)
  {
    assert (a + [x])[..|a|] == a;
  }

  lemma {:induction false} ValueConcat(a: seq<bool>, b: seq<bool>)
    ensures ValueOf(a + b) == ValueOf(a) * Pow2(|b|) + ValueOf(b)
  {
    hide ValueOf;
    if |b| == 0 {
      assert a + b == a;
      assert ValueOf([]) == 0 by { ValueOfNone(); }
    } else {
      var init, last := b[..|b| - 1], b[|b| - 1];
      ValueConcat(a, init);
      assert b == init + [last];
      assert a + b == a + init + [last];
      ValueSnoc(a + init, last);
      ValueSnoc(init, last);
      Doubled(ValueOf(a), Pow2(|b| - 1));
    }
  }

  lemma ValueOfNone()
    ensures ValueOf([]) == 0
  {
  }

  lemma Doubled(v: nat, p: nat)
    ensures v * (2 * p) == 2 * (v * p)
  {
  }

  lemma QuotientIs(n: nat, d: nat, q: nat, r: nat)
    requires d > 0 && r < d && n == q * d + r
    ensures n / d == q && n % d == r
  {
    var p, s := n / d, n % d;
    assert n == p * d + s;
    if p < q { Gap(p, q, d); }
    if p > q { Gap(q, p, d); }
  }

  lemma {:induction false} Gap(p: nat, q: nat, d: nat)
    requires p < q
    ensures q * d >= p * d + d
  {
    if q > p + 1 { Gap(p, q - 1, d); }
    assert q * d == (q - 1) * d + d;
  }

  lemma {:induction false} ShiftedIs(value: nat, k: nat)
    ensures value == ShiftRight(value, k) * Pow2(k) + value % Pow2(k)
  {
    if k > 0 {
      ShiftedIs(value, k - 1);
      var q, d, r := ShiftRight(value, k - 1), Pow2(k - 1), value % Pow2(k - 1);
      var h, t := q / 2, q % 2;
      Halve(value, q, d, r, h, t);
    }
  }

  lemma ShiftIsDivision(value: nat, k: nat)
    ensures ShiftRight(value, k) == value / Pow2(k)
  {
    hide ShiftRight, Pow2;
    ShiftedIs(value, k);
    QuotientIs(value, Pow2(k), ShiftRight(value, k), value % Pow2(k));
  }

  lemma Halve(value: nat, q: nat, d: nat, r: nat, h: nat, t: nat)
    requires value == q * d + r && r < d && q == 2 * h + t && t < 2
    ensures 2 * d > 0 && value == h * (2 * d) + value % (2 * d)
  {
    assert q * d == h * (2 * d) + t * d;
    assert t * d <= d;
    QuotientIs(value, 2 * d, h, t * d + r);
  }

  // ----- Groups of bits -----

  /** Whole groups of w bits as numbers; a last part of a group is dropped. */
  function Groups(bits: seq<bool>, w: nat): (values: seq<nat>)
    requires w > 0
  {
    if |bits| < w then [] else [ValueOf(bits[..w])] + Groups(bits[w..], w)
  }

  function Flat(values: seq<nat>, w: nat): (bits: seq<bool>)
    ensures |bits| == |values| * w
  {
    if |values| == 0 then [] else BitsOf(values[0], w) + Flat(values[1..], w)
  }

  lemma {:induction false} GroupsCount(bits: seq<bool>, w: nat, count: nat)
    requires w > 0 && count * w <= |bits| < count * w + w
    ensures |Groups(bits, w)| == count
    decreases count
  {
    if count > 0 {
      assert count * w == (count - 1) * w + w;
      GroupsCount(bits[w..], w, count - 1);
    }
  }

  predicate AllBelow(values: seq<nat>, limit: nat) {
    forall i :: 0 <= i < |values| ==> values[i] < limit
  }

  lemma {:induction false} GroupsBelow(bits: seq<bool>, w: nat)
    requires w > 0
    ensures AllBelow(Groups(bits, w), Pow2(w))
  {
    if |bits| >= w {
      ValueBelow(bits[..w]);
      GroupsBelow(bits[w..], w);
    }
  }

  lemma GroupsCons(group: seq<bool>, rest: seq<bool>, w: nat)
    requires w > 0 && |group| == w
    ensures Groups(group + rest, w) == [ValueOf(group)] + Groups(rest, w)
  {
    assert (group + rest)[..w] == group && (group + rest)[w..] == rest;
    hide ValueOf;
  }

  lemma GroupsTail(tail: seq<bool>, w: nat)
    requires |tail| < w
    ensures Groups(Flat([], w) + tail, w) == []
  {
    assert Flat([], w) + tail == tail;
  }

  lemma FlatFirst(values: seq<nat>, w: nat, tail: seq<bool>)
    requires |values| > 0
    ensures Flat(values, w) + tail == BitsOf(values[0], w) + (Flat(values[1..], w) + tail)
  {
    hide BitsOf;
  }

  lemma {:induction false} GroupsOfFlat(values: seq<nat>, w: nat, tail: seq<bool>)
    requires AllBelow(values, Pow2(w)) && |tail| < w
    ensures Groups(Flat(values, w) + tail, w) == values
  {
    hide Flat, Groups, BitsOf, ValueOf, Pow2;
    if |values| == 0 {
      GroupsTail(tail, w);
    } else {
      FlatFirst(values, w, tail);
      GroupsCons(BitsOf(values[0], w), Flat(values[1..], w) + tail, w);
      ValueOfBits(values[0], w);
      GroupsOfFlat(values[1..], w, tail);
    }
  }

  lemma FlatCons(value: nat, values: seq<nat>, w: nat)
    ensures Flat([value] + values, w) == BitsOf(value, w) + Flat(values, w)
  {
    assert ([value] + values)[1..] == values;
  }

  lemma OneTurn(count: nat, w: nat)
    requires count > 0
    ensures count * w == (count - 1) * w + w && count * w >= w
  {
  }

  lemma {:induction false} FlatOfGroups(bits: seq<bool>, w: nat, count: nat)
    requires w > 0 && |bits| == count * w
    ensures Flat(Groups(bits, w), w) == bits
    decreases count
  {
    if count > 0 {
      OneTurn(count, w);
      FlatOfGroups(bits[w..], w, count - 1);
      FirstGroup(bits, w);
    }
  }

  lemma FirstGroup(bits: seq<bool>, w: nat)
    requires 0 < w <= |bits|
    ensures Flat(Groups(bits, w), w) == bits[..w] + Flat(Groups(bits[w..], w), w)
  {
    hide Flat, BitsOf, ValueOf;
    BitsOfValue(bits[..w]);
    FlatCons(ValueOf(bits[..w]), Groups(bits[w..], w), w);
  }

  lemma {:induction false} GroupsAppend(bits: seq<bool>, count: nat, w: nat, last: seq<bool>)
    requires w > 0 && |bits| == count * w && |last| == w
    ensures Groups(bits + last, w) == Groups(bits, w) + [ValueOf(last)]
    decreases count
  {
    if count == 0 {
      assert bits + last == last && last[..w] == last && last[w..] == [];
    } else {
      assert count * w == (count - 1) * w + w;
      assert (bits + last)[..w] == bits[..w] && (bits + last)[w..] == bits[w..] + last;
      GroupsAppend(bits[w..], count - 1, w, last);
    }
  }

  lemma {:induction false} FlatAppend(values: seq<nat>, v: nat, w: nat)
    ensures Flat(values + [v], w) == Flat(values, w) + BitsOf(v, w)
  {
    if |values| == 0 {
      assert values + [v] == [v];
    } else {
      assert (values + [v])[1..] == values[1..] + [v];
      FlatAppend(values[1..], v, w);
    }
  }
}
