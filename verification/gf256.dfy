/** The field GF(256) of the QR symbol: bytes added by exclusive or and multiplied
    modulo x^8 + x^4 + x^3 + x^2 + 1 (0x11D). `GfMul` is the encoder's loop, `Mul` the
    product it computes, and the lemmas show that `Add` and `Mul` form a field in which
    2 has order 255. */
module GaloisField {

  function Add(a: bv8, b: bv8): bv8 {
    a ^ b
  }

  /** Multiplication by x. */
  function Xtime(a: bv8): bv8 {
    (a << 1) ^ ((0 - (a >> 7)) & 0x1d)
  }

  /** a when the lowest bit of b is set, zero otherwise. */
  function Select(b: bv8, a: bv8): bv8 {
    (0 - (b & 1)) & a
  }

  /** The product, by the lowest bit of b first. */
  function Mul(a: bv8, b: bv8): bv8
    decreases b
  {
    if b == 0 then 0 else Add(Select(b, a), Xtime(Mul(a, b >> 1)))
  }

  // ----- The additive group -----

  lemma AddLaws(a: bv8, b: bv8, c: bv8)
    ensures Add(a, b) == Add(b, a)
    ensures Add(Add(a, b), c) == Add(a, Add(b, c))
    ensures Add(a, 0) == a && Add(0, a) == a
    ensures Add(a, a) == 0
  {
  }

  lemma AddSwap(a: bv8, b: bv8, c: bv8, d: bv8)
    ensures Add(Add(a, b), Add(c, d)) == Add(Add(a, c), Add(b, d))
  {
    hide *;
    AddLaws(a, b, Add(c, d));
    AddLaws(b, c, d);
    AddLaws(c, b, d);
    AddLaws(a, c, Add(b, d));
  }

  // ----- Multiplication -----

  lemma XtimeAdds(a: bv8, b: bv8)
    ensures Xtime(Add(a, b)) == Add(Xtime(a), Xtime(b))
  {
  }

  lemma SelectAdds(a: bv8, b: bv8, c: bv8)
    ensures Select(c, Add(a, b)) == Add(Select(c, a), Select(c, b))
    ensures Select(Add(a, b), c) == Add(Select(a, c), Select(b, c))
  {
  }

  lemma SelectXtime(b: bv8, a: bv8)
    ensures Select(b, Xtime(a)) == Xtime(Select(b, a))
  {
  }

  lemma MulStep(a: bv8, b: bv8)
    ensures Mul(a, b) == Add(Select(b, a), Xtime(Mul(a, b >> 1)))
  {
    if b == 0 {
      assert Xtime(0) == 0;
    }
  }

  lemma {:induction false} MulAddLeft(a: bv8, b: bv8, c: bv8)
    ensures Mul(Add(a, b), c) == Add(Mul(a, c), Mul(b, c))
    decreases c
  {
    if c != 0 {
      MulAddLeft(a, b, c >> 1);
      hide *;
      MulStep(a, c);
      MulStep(b, c);
      MulStep(Add(a, b), c);
      SelectAdds(a, b, c);
      XtimeAdds(Mul(a, c >> 1), Mul(b, c >> 1));
      AddSwap(Select(c, a), Select(c, b), Xtime(Mul(a, c >> 1)), Xtime(Mul(b, c >> 1)));
    }
  }

  lemma ShiftAdds(a: bv8, b: bv8)
    ensures Add(a, b) >> 1 == Add(a >> 1, b >> 1)
  {
  }

  lemma {:induction false} MulAddRight(c: bv8, a: bv8, b: bv8)
    ensures Mul(c, Add(a, b)) == Add(Mul(c, a), Mul(c, b))
    decreases a, b
  {
    if a != 0 || b != 0 {
      MulAddRight(c, a >> 1, b >> 1);
      hide *;
      MulStep(c, a);
      MulStep(c, b);
      MulStep(c, Add(a, b));
      ShiftAdds(a, b);
      SelectAdds(a, b, c);
      XtimeAdds(Mul(c, a >> 1), Mul(c, b >> 1));
      AddSwap(Select(a, c), Select(b, c), Xtime(Mul(c, a >> 1)), Xtime(Mul(c, b >> 1)));
    }
  }

  lemma {:induction false} MulXtimeLeft(a: bv8, b: bv8)
    ensures Mul(Xtime(a), b) == Xtime(Mul(a, b))
    decreases b
  {
    if b != 0 {
      MulXtimeLeft(a, b >> 1);
      hide *;
      MulStep(Xtime(a), b);
      MulStep(a, b);
      SelectXtime(b, a);
      XtimeAdds(Select(b, a), Xtime(Mul(a, b >> 1)));
    }
  }

  lemma LowBit(b: bv8)
    ensures b == Add(b & 1, Xtime(b >> 1))
    ensures b & 1 == 0 || b & 1 == 1
    ensures b & 1 == Select(b, 1)
    ensures b & 1 == 1 ==> forall a :: Select(b, a) == a
    ensures b & 1 == 0 ==> forall a :: Select(b, a) == 0
  {
    assert b & 1 == 0 ==> 0 - (b & 1) == 0;
    assert b & 1 == 1 ==> 0 - (b & 1) == 0xff;
  }

  lemma {:induction false} MulOneLeft(b: bv8)
    ensures Mul(1, b) == b
    decreases b
  {
    if b != 0 {
      MulOneLeft(b >> 1);
      hide *;
      MulStep(1, b);
      LowBit(b);
    }
  }

  lemma {:induction false} MulZero(b: bv8)
    ensures Mul(0, b) == 0 && Mul(b, 0) == 0
    decreases b
  {
    if b != 0 {
      MulZero(b >> 1);
    }
  }

  lemma {:induction false} MulBitLeft(b: bv8, a: bv8)
    ensures Mul(b & 1, a) == Select(b, a)
  {
    LowBit(b);
    MulOneLeft(a);
    MulZero(a);
  }

  lemma {:induction false} MulCommutes(a: bv8, b: bv8)
    ensures Mul(a, b) == Mul(b, a)
    decreases b
  {
    MulZero(a);
    if b != 0 {
      MulCommutes(a, b >> 1);
      hide *;
      LowBit(b);
      MulAddLeft(b & 1, Xtime(b >> 1), a);
      MulXtimeLeft(b >> 1, a);
      MulBitLeft(b, a);
      MulStep(a, b);
    }
  }

  lemma {:induction false} MulAssociates(a: bv8, b: bv8, c: bv8)
    ensures Mul(a, Mul(b, c)) == Mul(Mul(a, b), c)
    decreases c
  {
    MulZero(a);
    if c != 0 {
      MulAssociates(a, b, c >> 1);
      hide *;
      var m := Mul(b, c >> 1);
      MulStep(b, c);
      MulStep(Mul(a, b), c);
      MulAddRight(a, Select(c, b), Xtime(m));
      MulCommutes(a, Xtime(m));
      MulXtimeLeft(m, a);
      MulCommutes(a, m);
      MulZero(a);
      LowBit(c);
    }
  }

  // ----- No zero divisors -----

  /** The product with its eight steps written out. */
  function FlatMul(a: bv8, b: bv8): bv8 {
    Add(Select(b, a), Xtime(Add(Select(b >> 1, a), Xtime(Add(Select(b >> 2, a), Xtime(Add(Select(b >> 3, a), Xtime(
    Add(Select(b >> 4, a), Xtime(Add(Select(b >> 5, a), Xtime(Add(Select(b >> 6, a), Xtime(Select(b >> 7, a)))))))))))))))
  }

  lemma MulFlat(a: bv8, b: bv8)
    ensures Mul(a, b) == FlatMul(a, b)
  {
    var b1, b2, b3 := b >> 1, b >> 2, b >> 3;
    var b4, b5, b6, b7 := b >> 4, b >> 5, b >> 6, b >> 7;
    assert b1 >> 1 == b2 && b2 >> 1 == b3 && b3 >> 1 == b4 && b4 >> 1 == b5 && b5 >> 1 == b6 && b6 >> 1 == b7 && b7 >> 1 == 0;
    assert Mul(a, b7) == Select(b7, a) by {
      MulStep(a, b7);
      MulZero(a);
      assert Xtime(0) == 0;
      AddLaws(Select(b7, a), 0, 0);
    }
    hide Mul, Select, Xtime, Add;
    MulStep(a, b6);
    MulStep(a, b5);
    MulStep(a, b4);
    MulStep(a, b3);
    MulStep(a, b2);
    MulStep(a, b1);
    MulStep(a, b);
  }

  lemma FlatZero00(a: bv8, b: bv8)
    requires FlatMul(a, b) == 0 && b & 0xc0 == 0
    ensures a == 0 || b == 0
  {
  }

  lemma FlatZero01(a: bv8, b: bv8)
    requires FlatMul(a, b) == 0 && b & 0xc0 == 0x40
    ensures a == 0
  {
  }

  lemma FlatZero10(a: bv8, b: bv8)
    requires FlatMul(a, b) == 0 && b & 0xc0 == 0x80
    ensures a == 0
  {
  }

  lemma FlatZero11(a: bv8, b: bv8)
    requires FlatMul(a, b) == 0 && b & 0xc0 == 0xc0
    ensures a == 0
  {
  }

  lemma NoZeroDivisors(a: bv8, b: bv8)
    requires Mul(a, b) == 0
    ensures a == 0 || b == 0
  {
    hide *;
    MulFlat(a, b);
    var top := b & 0xc0;
    assert top == 0 || top == 0x40 || top == 0x80 || top == 0xc0;
    if top == 0 {
      FlatZero00(a, b);
    } else if top == 0x40 {
      FlatZero01(a, b);
    } else if top == 0x80 {
      FlatZero10(a, b);
    } else {
      FlatZero11(a, b);
    }
  }

  // ----- Powers -----

  function Power(a: bv8, k: nat): bv8 {
    if k == 0 then 1 else Mul(a, Power(a, k - 1))
  }

  lemma {:induction false} PowerAdds(a: bv8, j: nat, k: nat)
    ensures Power(a, j + k) == Mul(Power(a, j), Power(a, k))
  {
    if j == 0 {
      MulOneLeft(Power(a, k));
    } else {
      PowerAdds(a, j - 1, k);
      MulAssociates(a, Power(a, j - 1), Power(a, k));
      hide Mul;
    }
  }

  lemma {:induction false} PowerOfPower(a: bv8, j: nat, k: nat)
    ensures Power(a, j * k) == Power(Power(a, j), k)
    decreases k
  {
    hide Mul;
    if k != 0 {
      PowerOfPower(a, j, k - 1);
      PowerAdds(a, j, j * (k - 1));
      assert j * k == j + j * (k - 1);
    }
  }

  lemma {:induction false} PowerOne(k: nat)
    ensures Power(1, k) == 1
  {
    if k != 0 {
      PowerOne(k - 1);
      MulOneLeft(1);
    }
  }

  lemma Product(a: bv8, b: bv8, c: bv8)
    requires FlatMul(a, b) == c
    ensures Mul(a, b) == c
  {
    hide Mul, FlatMul;
    MulFlat(a, b);
  }

  /** Powers of 2 up to 255, reached through every maximal proper divisor of 255. */
  lemma TwoPowers()
    ensures Power(2, 15) == 38 && Power(2, 51) == 10 && Power(2, 85) == 214 && Power(2, 255) == 1
  {
    hide Mul;
    assert Power(2, 1) == 2 by {
      assert Power(2, 0) == 1;
      MulCommutes(2, 1);
      MulOneLeft(2);
    }
    hide Power;
    Product(2, 2, 4);
    Product(4, 2, 8);
    Product(8, 4, 32);
    Product(32, 32, 116);
    Product(116, 32, 38);
    Product(38, 4, 152);
    Product(152, 152, 78);
    Product(78, 152, 10);
    Product(78, 10, 214);
    Product(214, 214, 215);
    Product(215, 214, 1);
    PowerAdds(2, 1, 1);
    PowerAdds(2, 2, 1);
    PowerAdds(2, 3, 2);
    PowerAdds(2, 5, 5);
    PowerAdds(2, 10, 5);
    PowerAdds(2, 15, 2);
    PowerAdds(2, 17, 17);
    PowerAdds(2, 34, 17);
    PowerAdds(2, 34, 51);
    PowerAdds(2, 85, 85);
    PowerAdds(2, 170, 85);
  }

  lemma {:induction false} PowerNonzero(a: bv8, k: nat)
    requires a != 0
    ensures Power(a, k) != 0
  {
    hide Mul;
    if k != 0 {
      PowerNonzero(a, k - 1);
      if Power(a, k) == 0 {
        NoZeroDivisors(a, Power(a, k - 1));
      }
    }
  }

  lemma MulCancels(a: bv8, b: bv8, c: bv8)
    requires a != 0 && Mul(a, b) == Mul(a, c)
    ensures b == c
  {
    MulAddRight(a, b, c);
    AddLaws(Mul(a, b), 0, 0);
    hide Mul;
    NoZeroDivisors(a, Add(b, c));
  }

  /** No power of 2 below the 255th is 1: the least such exponent would divide 255,
      hence one of 15, 51 and 85. */
  lemma {:induction false} OrderOfTwo(k: nat)
    requires 0 < k < 255
    ensures Power(2, k) != 1
  {
    hide Mul, Power;
    if Power(2, k) == 1 {
      var q, r := 255 / k, 255 % k;
      OneToMultiple(k, q);
      PowerAdds(2, k * q, r);
      assert 255 == k * q + r;
      TwoPowers();
      MulOneLeft(Power(2, r));
      if r != 0 {
        OrderOfTwo(r);
      } else {
        Divisors(k, q);
        if 15 % k == 0 {
          OneToMultiple(k, 15 / k);
        } else if 51 % k == 0 {
          OneToMultiple(k, 51 / k);
        } else {
          OneToMultiple(k, 85 / k);
        }
      }
    }
  }

  lemma OneToMultiple(k: nat, q: nat)
    requires Power(2, k) == 1
    ensures Power(2, k * q) == 1
  {
    PowerOfPower(2, k, q);
    PowerOne(q);
  }

  lemma Divisors(k: nat, q: nat)
    requires 0 < k < 255 && k * q == 255
    ensures 15 % k == 0 || 51 % k == 0 || 85 % k == 0
  {
    if k < 16 {
      assert k == 1 || k == 2 || k == 3 || k == 4 || k == 5 || k == 6 || k == 7 || k == 8 || k == 9
          || k == 10 || k == 11 || k == 12 || k == 13 || k == 14 || k == 15;
    } else {
      assert 16 * q <= k * q;
      assert q != 0 && q != 1;
      assert q == 2 || q == 3 || q == 4 || q == 5 || q == 6 || q == 7 || q == 8 || q == 9
          || q == 10 || q == 11 || q == 12 || q == 13 || q == 14 || q == 15;
      assert k == 85 || k == 51 || k == 17;
    }
  }

  /** 2 generates 255 different elements. */
  lemma TwoPowersDistinct(i: nat, j: nat)
    requires i < j < 255
    ensures Power(2, i) != Power(2, j)
  {
    hide Mul, Power;
    if Power(2, i) == Power(2, j) {
      PowerAdds(2, i, j - i);
      PowerNonzero(2, i);
      MulCommutes(Power(2, i), 1);
      MulOneLeft(Power(2, i));
      MulCancels(Power(2, i), Power(2, j - i), 1);
      OrderOfTwo(j - i);
    }
  }

  // ----- The encoder's loop -----

  /** The multiplier's bits from i up. */
  function From(b: bv8, i: nat): bv8
    requires i <= 8
  {
    b >> i
  }

  lemma FromStep(b: bv8, i: nat)
    requires i < 8
    ensures From(b, i + 1) == From(b, i) >> 1
  {
    assert i == 0 || i == 1 || i == 2 || i == 3 || i == 4 || i == 5 || i == 6 || i == 7;
  }

  function Wide(b: bv8): bv32 {
    b as bv32
  }

  /** The accumulator moved up one place and reduced. */
  function Reduced(result: bv32): bv32 {
    (result << 1) ^ ((result >> 7) * 0x11d)
  }

  /** The accumulator with the multiplicand added where bit i of the multiplier is set. */
  function Accumulated(result: bv32, a: bv8, b: bv8, i: nat): bv32
    requires i < 8
  {
    result ^ (((Wide(b) >> i) & 1) * Wide(a))
  }

  lemma ReducedIsXtime(p: bv8)
    ensures Reduced(Wide(p)) == Wide(Xtime(p))
  {
  }

  lemma WideShifts(b: bv8, i: nat)
    requires i < 8
    ensures (Wide(b) >> i) & 1 == if From(b, i) & 1 == 1 then 1 else 0
  {
    assert i == 0 || i == 1 || i == 2 || i == 3 || i == 4 || i == 5 || i == 6 || i == 7;
  }

  lemma BitTimes(p: bv8, a: bv8, bit: bv8, wide: bv32)
    requires wide == if bit & 1 == 1 then 1 else 0
    ensures Wide(p) ^ (wide * Wide(a)) == Wide(Add(Select(bit, a), p))
  {
    if wide == 1 { assert wide * Wide(a) == Wide(a); } else { assert wide * Wide(a) == 0; }
  }

  lemma AccumulatedAdds(p: bv8, a: bv8, b: bv8, i: nat)
    requires i < 8
    ensures Accumulated(Wide(p), a, b, i) == Wide(Add(Select(From(b, i), a), p))
  {
    WideShifts(b, i);
    BitTimes(p, a, From(b, i), (Wide(b) >> i) & 1);
    hide Wide, Add, Select, From;
  }

  function Narrow(result: bv32): bv8 {
    (result & 0xff) as bv8
  }

  lemma WideEnds(p: bv8)
    ensures Narrow(Wide(p)) == p && Wide(0) == 0 && From(p, 8) == 0 && From(p, 0) == p
  {
  }

  method GfMul(a: bv8, b: bv8) returns (product: bv8)
    ensures product == Mul(a, b)
  {
    hide *;
    var result: bv32 := 0;
    WideEnds(b);
    MulZero(a);
    for i := 8 downto 0
      invariant result == Wide(Mul(a, From(b, i)))
    {
      ghost var p, bit := Mul(a, From(b, i + 1)), From(b, i);
      assert p == Mul(a, bit >> 1) by { FromStep(b, i); }
      result := Reduced(result);
      assert result == Wide(Xtime(p)) by { ReducedIsXtime(p); }
      result := Accumulated(result, a, b, i);
      assert result == Wide(Add(Select(bit, a), Xtime(p))) by { AccumulatedAdds(Xtime(p), a, b, i); }
      MulStep(a, bit);
    }
    WideEnds(Mul(a, b));
    product := Narrow(result);
  }
}
