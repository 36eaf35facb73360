/** Reed-Solomon codewords over GF(256): the generator polynomial, the division that
    yields the error correction bytes, and the distance between two codewords.
    Polynomials are sequences of coefficients, highest degree first. */
module ReedSolomon {
  import opened GaloisField

  // ----- Polynomials -----

  function Zeros(n: nat): seq<bv8> {
    seq(n, _ => 0)
  }

  /** The coefficientwise sum of two polynomials of one length. */
  function Sum(p: seq<bv8>, q: seq<bv8>): seq<bv8>
    requires |p| == |q|
  {
    seq(|p|, i requires 0 <= i < |p| => Add(p[i], q[i]))
  }

  function Scale(p: seq<bv8>, c: bv8): seq<bv8> {
    seq(|p|, i requires 0 <= i < |p| => Mul(p[i], c))
  }

  /** The value at x, by Horner's rule. */
  function Eval(p: seq<bv8>, x: bv8): bv8 {
    if |p| == 0 then 0 else Add(Mul(Eval(p[..|p| - 1], x), x), p[|p| - 1])
  }

  lemma {:induction false} EvalConcat(p: seq<bv8>, q: seq<bv8>, x: bv8)
    ensures Eval(p + q, x) == Add(Mul(Eval(p, x), Power(x, |q|)), Eval(q, x))
    decreases |q|
  {
    hide Mul, Add;
    if |q| == 0 {
      assert p + q == p;
      MulCommutes(Eval(p, x), 1);
      MulOneLeft(Eval(p, x));
      AddLaws(Eval(p, x), 0, 0);
    } else {
      var q', last := q[..|q| - 1], q[|q| - 1];
      assert (p + q)[..|p + q| - 1] == p + q';
      EvalConcat(p, q', x);
      var high, low := Mul(Eval(p, x), Power(x, |q'|)), Eval(q', x);
      MulAddLeft(high, low, x);
      MulCommutes(x, Power(x, |q'|));
      MulAssociates(Eval(p, x), Power(x, |q'|), x);
      AddLaws(Mul(high, x), Mul(low, x), last);
    }
  }

  lemma {:induction false} EvalSum(p: seq<bv8>, q: seq<bv8>, x: bv8)
    requires |p| == |q|
    ensures Eval(Sum(p, q), x) == Add(Eval(p, x), Eval(q, x))
    decreases |p|
  {
    hide Mul, Add;
    if |p| == 0 {
      AddLaws(0, 0, 0);
    } else {
      var n := |p| - 1;
      assert Sum(p, q)[..n] == Sum(p[..n], q[..n]);
      EvalSum(p[..n], q[..n], x);
      MulAddLeft(Eval(p[..n], x), Eval(q[..n], x), x);
      AddSwap(Mul(Eval(p[..n], x), x), Mul(Eval(q[..n], x), x), p[n], q[n]);
    }
  }

  lemma {:induction false} EvalScale(p: seq<bv8>, c: bv8, x: bv8)
    ensures Eval(Scale(p, c), x) == Mul(Eval(p, x), c)
    decreases |p|
  {
    hide Mul, Add;
    if |p| == 0 {
      MulZero(c);
    } else {
      var n := |p| - 1;
      assert Scale(p, c)[..n] == Scale(p[..n], c);
      EvalScale(p[..n], c, x);
      var e := Eval(p[..n], x);
      MulAssociates(e, c, x);
      MulCommutes(c, x);
      MulAssociates(e, x, c);
      MulAddLeft(Mul(e, x), p[n], c);
    }
  }

  lemma {:induction false} EvalZeros(n: nat, x: bv8)
    ensures Eval(Zeros(n), x) == 0
  {
    if n != 0 {
      assert Zeros(n)[..n - 1] == Zeros(n - 1);
      EvalZeros(n - 1, x);
      MulZero(x);
    }
  }

  // ----- The generator polynomial -----

  /** p times (x - root). */
  function TimesRoot(p: seq<bv8>, root: bv8): seq<bv8> {
    Sum(p + [0], [0] + Scale(p, root))
  }

  /** The product of (x - 2^k) for every k below n. */
  function RootProduct(n: nat): (p: seq<bv8>)
    ensures |p| == n + 1 && p[0] == 1
  {
    if n == 0 then [1]
    else
      AddLaws(1, 0, 0);
      TimesRoot(RootProduct(n - 1), Power(2, n - 1))
  }

  /** The generator polynomial of the given degree without its leading 1. */
  function GeneratorPoly(degree: nat): (p: seq<bv8>)
    ensures |p| == degree
  {
    RootProduct(degree)[1..]
  }

  lemma TimesRootEval(p: seq<bv8>, root: bv8, x: bv8)
    ensures Eval(TimesRoot(p, root), x) == Mul(Eval(p, x), Add(x, root))
  {
    hide Mul, Add, Eval, Power;
    var e := Eval(p, x);
    EvalSum(p + [0], [0] + Scale(p, root), x);
    assert Eval(p + [0], x) == Mul(e, x) by { ShiftedEval(p, x); }
    assert Eval([0] + Scale(p, root), x) == Mul(e, root) by {
      LeadingZero(Scale(p, root), x);
      EvalScale(p, root, x);
    }
    MulAddRight(e, x, root);
  }

  lemma ShiftedEval(p: seq<bv8>, x: bv8)
    ensures Eval(p + [0], x) == Mul(Eval(p, x), x)
  {
    hide Mul, Add;
    assert (p + [0])[..|p|] == p;
    AddLaws(Mul(Eval(p, x), x), 0, 0);
  }

  lemma LeadingZero(p: seq<bv8>, x: bv8)
    ensures Eval([0] + p, x) == Eval(p, x)
  {
    EvalConcat([0], p, x);
    assert Eval([0], x) == 0 by { EvalZeros(1, x); assert Zeros(1) == [0]; }
    MulZero(Power(x, |p|));
    AddLaws(Eval(p, x), 0, 0);
  }

  lemma {:induction false} RootProductRoots(n: nat, k: nat)
    requires k < n
    ensures Eval(RootProduct(n), Power(2, k)) == 0
  {
    hide Mul, Add, Eval, Power;
    var p, root, x := RootProduct(n - 1), Power(2, n - 1), Power(2, k);
    TimesRootEval(p, root, x);
    if k == n - 1 {
      AddLaws(root, root, 0);
      MulZero(Eval(p, x));
    } else {
      RootProductRoots(n - 1, k);
      MulZero(Add(x, root));
    }
  }

  /** The generator with its leading 1 put back vanishes at 2^0 ... 2^(degree-1). */
  lemma GeneratorRoots(degree: nat, k: nat)
    requires k < degree
    ensures Eval([1] + GeneratorPoly(degree), Power(2, k)) == 0
  {
    assert [1] + GeneratorPoly(degree) == RootProduct(degree);
    RootProductRoots(degree, k);
  }

  // ----- Division -----

  /** One byte fed to the division register. */
  function Fed(register: seq<bv8>, b: bv8, divisor: seq<bv8>): seq<bv8>
    requires |register| == |divisor| > 0
  {
    Sum(register[1..] + [0], Scale(divisor, Add(b, register[0])))
  }

  /** The division register after all the data: the error correction bytes. */
  function Ecc(data: seq<bv8>, divisor: seq<bv8>): (r: seq<bv8>)
    requires |divisor| > 0
    ensures |r| == |divisor|
    decreases |data|
  {
    if |data| == 0 then Zeros(|divisor|)
    else Fed(Ecc(data[..|data| - 1], divisor), data[|data| - 1], divisor)
  }

  /** Where the divisor vanishes, its lower coefficients add up to the leading power. */
  lemma DivisorAtRoot(divisor: seq<bv8>, x: bv8)
    requires Eval([1] + divisor, x) == 0
    ensures Eval(divisor, x) == Power(x, |divisor|)
  {
    EvalConcat([1], divisor, x);
    assert Eval([1], x) == 1 by {
      assert Eval([], x) == 0;
      MulZero(x);
      AddLaws(1, 0, 0);
    }
    MulOneLeft(Power(x, |divisor|));
    hide Mul, Eval, Power;
    AddCancels(Power(x, |divisor|), Eval(divisor, x));
  }

  lemma AddCancels(a: bv8, b: bv8)
    ensures Add(a, b) == 0 <==> a == b
  {
  }

  /** Moving the register up one place drops its leading byte. */
  lemma MovedEval(register: seq<bv8>, x: bv8)
    requires |register| > 0
    ensures Eval(register[1..] + [0], x) == Add(Mul(Eval(register, x), x), Mul(register[0], Power(x, |register|)))
  {
    hide Mul, Add;
    var d, lead, rest := |register|, register[0], register[1..];
    ShiftedEval(rest, x);
    assert [lead] + rest == register;
    EvalConcat([lead], rest, x);
    assert Eval([lead], x) == lead by {
      assert Eval([], x) == 0;
      MulZero(x);
      AddLaws(lead, 0, 0);
    }
    hide Eval;
    var top, low := Mul(lead, Power(x, d - 1)), Eval(rest, x);
    MulAddLeft(top, low, x);
    MulAssociates(lead, Power(x, d - 1), x);
    MulCommutes(x, Power(x, d - 1));
    CancelOuter(Mul(top, x), Mul(low, x));
  }

  lemma CancelOuter(a: bv8, b: bv8)
    ensures Add(Add(a, b), a) == b
  {
  }

  /** The word so far, data then register, keeps every root of the divisor. */
  lemma {:induction false} EccRoot(data: seq<bv8>, divisor: seq<bv8>, x: bv8)
    requires |divisor| > 0
    requires Eval([1] + divisor, x) == 0
    ensures Eval(data + Ecc(data, divisor), x) == 0
    decreases |data|
  {
    hide Mul, Add;
    if |data| == 0 {
      assert data + Ecc(data, divisor) == Zeros(|divisor|);
      EvalZeros(|divisor|, x);
    } else {
      var n, d := |data| - 1, |divisor|;
      var head, b := data[..n], data[n];
      var register := Ecc(head, divisor);
      EccRoot(head, divisor, x);
      EvalConcat(head, register, x);
      EvalConcat(data, Ecc(data, divisor), x);
      EvalSum(register[1..] + [0], Scale(divisor, Add(b, register[0])), x);
      EvalScale(divisor, Add(b, register[0]), x);
      DivisorAtRoot(divisor, x);
      MovedEval(register, x);
      hide Eval, Power;
      FeedAlgebra(Eval(head, x), Eval(register, x), register[0], b, x, Power(x, d));
    }
  }

  /** With h the data so far, e the register, p the leading power: feeding b turns
      h p + e = 0 into (h x + b) p + (e x + lead p + p (b + lead)) = 0. */
  lemma FeedAlgebra(h: bv8, e: bv8, lead: bv8, b: bv8, x: bv8, p: bv8)
    requires Add(Mul(h, p), e) == 0
    ensures Add(Mul(Add(Mul(h, x), b), p), Add(Add(Mul(e, x), Mul(lead, p)), Mul(p, Add(b, lead)))) == 0
  {
    hide Mul;
    assert Mul(h, p) == e by { AddCancels(Mul(h, p), e); }
    MulAddLeft(Mul(h, x), b, p);
    assert Mul(Mul(h, x), p) == Mul(e, x) by {
      MulAssociates(h, x, p);
      MulCommutes(x, p);
      MulAssociates(h, p, x);
    }
    MulCommutes(p, Add(b, lead));
    MulAddLeft(b, lead, p);
    ThreePairs(Mul(e, x), Mul(b, p), Mul(lead, p));
  }

  lemma ThreePairs(a: bv8, b: bv8, c: bv8)
    ensures Add(Add(a, b), Add(Add(a, c), Add(b, c))) == 0
  {
  }

  // ----- Codewords -----

  /** A block's data followed by its error correction bytes. */
  function Codeword(data: seq<bv8>, degree: nat): (word: seq<bv8>)
    requires degree > 0
    ensures |word| == |data| + degree
  {
    data + Ecc(data, GeneratorPoly(degree))
  }

  lemma CodewordRoots(data: seq<bv8>, degree: nat, k: nat)
    requires k < degree
    ensures Eval(Codeword(data, degree), Power(2, k)) == 0
  {
    GeneratorRoots(degree, k);
    EccRoot(data, GeneratorPoly(degree), Power(2, k));
  }

  // ----- Distance -----

  /** The number of positions in which two words differ. */
  function Distance(p: seq<bv8>, q: seq<bv8>): nat
    requires |p| == |q|
    decreases |p|
  {
    if |p| == 0 then 0
    else Distance(p[..|p| - 1], q[..|p| - 1]) + (if p[|p| - 1] == q[|p| - 1] then 0 else 1)
  }

  /** The sum of cs[t] times xs[t] to the k. */
  function PowerSum(cs: seq<bv8>, xs: seq<bv8>, k: nat): bv8
    requires |cs| == |xs|
    decreases |cs|
  {
    if |cs| == 0 then 0
    else
      var n := |cs| - 1;
      Add(PowerSum(cs[..n], xs[..n], k), Mul(cs[n], Power(xs[n], k)))
  }

  /** Every coefficient multiplied by its own base minus y. */
  function Reduce(cs: seq<bv8>, xs: seq<bv8>, y: bv8): seq<bv8>
    requires |cs| == |xs|
  {
    seq(|cs|, t requires 0 <= t < |cs| => Mul(cs[t], Add(xs[t], y)))
  }

  lemma {:induction false} ReducedSum(cs: seq<bv8>, xs: seq<bv8>, y: bv8, k: nat)
    requires |cs| == |xs|
    ensures PowerSum(Reduce(cs, xs, y), xs, k) == Add(PowerSum(cs, xs, k + 1), Mul(PowerSum(cs, xs, k), y))
    decreases |cs|
  {
    hide Mul, Add;
    if |cs| == 0 {
      MulZero(y);
      AddLaws(0, 0, 0);
    } else {
      var n := |cs| - 1;
      assert Reduce(cs, xs, y)[..n] == Reduce(cs[..n], xs[..n], y);
      ReducedSum(cs[..n], xs[..n], y, k);
      var c, x, p := cs[n], xs[n], Power(xs[n], k);
      var s1, s0 := PowerSum(cs[..n], xs[..n], k + 1), PowerSum(cs[..n], xs[..n], k);
      assert Mul(Mul(c, Add(x, y)), p) == Add(Mul(c, Mul(x, p)), Mul(Mul(c, p), y)) by {
        MulAddRight(c, x, y);
        MulAddLeft(Mul(c, x), Mul(c, y), p);
        MulAssociates(c, x, p);
        MulAssociates(c, y, p);
        MulCommutes(y, p);
        MulAssociates(c, p, y);
      }
      MulAddLeft(s0, Mul(c, p), y);
      AddSwap(s1, Mul(s0, y), Mul(c, Mul(x, p)), Mul(Mul(c, p), y));
      assert Power(x, k + 1) == Mul(x, p);
    }
  }

  ghost predicate Distinct(xs: seq<bv8>) {
    forall i, j :: 0 <= i < j < |xs| ==> xs[i] != xs[j]
  }

  /** The Vandermonde argument: if as many power sums vanish as there are distinct bases,
      every coefficient is zero. */
  lemma {:induction false} Vandermonde(cs: seq<bv8>, xs: seq<bv8>)
    requires |cs| == |xs| && Distinct(xs)
    requires forall k :: 0 <= k < |cs| ==> PowerSum(cs, xs, k) == 0
    ensures forall t :: 0 <= t < |cs| ==> cs[t] == 0
    decreases |cs|
  {
    hide Mul, Add, Power;
    if |cs| > 0 {
      var n := |cs| - 1;
      var y := xs[n];
      var reduced := Reduce(cs, xs, y);
      assert reduced[n] == 0 by {
        AddLaws(y, y, 0);
        MulZero(cs[n]);
      }
      forall k | 0 <= k < n
        ensures PowerSum(reduced[..n], xs[..n], k) == 0
      {
        ReducedSum(cs, xs, y, k);
        assert PowerSum(cs, xs, k) == 0 && PowerSum(cs, xs, k + 1) == 0;
        MulZero(y);
        MulZero(Power(y, k));
        AddLaws(0, 0, 0);
        AddLaws(PowerSum(reduced[..n], xs[..n], k), 0, 0);
      }
      Vandermonde(reduced[..n], xs[..n]);
      forall t | 0 <= t < n
        ensures cs[t] == 0
      {
        assert reduced[..n][t] == 0;
        NoZeroDivisors(cs[t], Add(xs[t], y));
        AddCancels(xs[t], y);
      }
      assert cs[n] == 0 by {
        assert PowerSum(cs, xs, 0) == 0;
        ZeroSum(cs[..n], xs[..n]);
        PowerZero(y);
        MulCommutes(cs[n], 1);
        MulOneLeft(cs[n]);
        AddLaws(cs[n], 0, 0);
      }
    }
  }

  lemma PowerZero(y: bv8)
    ensures Power(y, 0) == 1
  {
  }

  lemma {:induction false} ZeroSum(cs: seq<bv8>, xs: seq<bv8>)
    requires |cs| == |xs| && forall t :: 0 <= t < |cs| ==> cs[t] == 0
    ensures PowerSum(cs, xs, 0) == 0
    decreases |cs|
  {
    hide Mul, Add;
    if |cs| > 0 {
      var n := |cs| - 1;
      ZeroSum(cs[..n], xs[..n]);
      MulZero(Power(xs[n], 0));
      AddLaws(0, 0, 0);
    }
  }

  /** The nonzero coefficients of a word. */
  function Coefficients(e: seq<bv8>): (cs: seq<bv8>)
    ensures |cs| <= |e|
    ensures forall t :: 0 <= t < |cs| ==> cs[t] != 0
    decreases |e|
  {
    if |e| == 0 then []
    else
      var n := |e| - 1;
      Coefficients(e[..n]) + (if e[n] == 0 then [] else [e[n]])
  }

  /** The powers of 2 those coefficients stand at, counted from shift at the low end. */
  function Bases(e: seq<bv8>, shift: nat): (xs: seq<bv8>)
    ensures |xs| == |Coefficients(e)|
    decreases |e|
  {
    if |e| == 0 then []
    else
      var n := |e| - 1;
      Bases(e[..n], shift + 1) + (if e[n] == 0 then [] else [Power(2, shift)])
  }

  lemma {:induction false} TermsSum(e: seq<bv8>, shift: nat, k: nat)
    ensures PowerSum(Coefficients(e), Bases(e, shift), k) == Mul(Eval(e, Power(2, k)), Power(Power(2, k), shift))
    decreases |e|
  {
    hide Mul, Add, Power;
    var x := Power(2, k);
    if |e| == 0 {
      MulZero(Power(x, shift));
    } else {
      var n := |e| - 1;
      var last := e[n];
      TermsSum(e[..n], shift + 1, k);
      var h := Eval(e[..n], x);
      assert Mul(h, Power(x, shift + 1)) == Mul(Mul(h, x), Power(x, shift)) by {
        PowerAdds(x, 1, shift);
        PowerFirst(x);
        MulAssociates(h, x, Power(x, shift));
      }
      MulAddLeft(Mul(h, x), last, Power(x, shift));
      var cs, xs := Coefficients(e), Bases(e, shift);
      if last == 0 {
        assert cs == Coefficients(e[..n]) && xs == Bases(e[..n], shift + 1);
        MulZero(Power(x, shift));
        AddLaws(Mul(Mul(h, x), Power(x, shift)), 0, 0);
      } else {
        assert cs[..|cs| - 1] == Coefficients(e[..n]) && xs[..|cs| - 1] == Bases(e[..n], shift + 1);
        assert Power(Power(2, shift), k) == Power(x, shift) by {
          PowerOfPower(2, shift, k);
          PowerOfPower(2, k, shift);
          assert shift * k == k * shift;
        }
      }
    }
  }

  lemma PowerFirst(x: bv8)
    ensures Power(x, 1) == x
  {
    assert Power(x, 0) == 1;
    MulCommutes(x, 1);
    MulOneLeft(x);
  }

  /** Every base is a power of 2 with an exponent from shift up to shift + |e|. */
  lemma {:induction false} BasesRange(e: seq<bv8>, shift: nat, t: nat) returns (i: nat)
    requires t < |Bases(e, shift)|
    ensures shift <= i < shift + |e| && Bases(e, shift)[t] == Power(2, i)
    decreases |e|
  {
    hide Power;
    var n := |e| - 1;
    if t < |Bases(e[..n], shift + 1)| {
      i := BasesRange(e[..n], shift + 1, t);
    } else {
      i := shift;
    }
  }

  lemma {:induction false} BasesDistinct(e: seq<bv8>, shift: nat)
    requires shift + |e| <= 255
    ensures Distinct(Bases(e, shift))
    decreases |e|
  {
    hide Power;
    if |e| > 0 {
      var n := |e| - 1;
      var xs, rest := Bases(e, shift), Bases(e[..n], shift + 1);
      BasesDistinct(e[..n], shift + 1);
      forall i, j | 0 <= i < j < |xs|
        ensures xs[i] != xs[j]
      {
        if j < |rest| {
          assert xs[i] == rest[i] && xs[j] == rest[j];
        } else {
          var high := BasesRange(e[..n], shift + 1, i);
          TwoPowersDistinct(shift, high);
        }
      }
    }
  }

  lemma {:induction false} DistanceIsWeight(p: seq<bv8>, q: seq<bv8>)
    requires |p| == |q|
    ensures Distance(p, q) == |Coefficients(Sum(p, q))|
    decreases |p|
  {
    hide Add;
    if |p| > 0 {
      var n := |p| - 1;
      assert Sum(p, q)[..n] == Sum(p[..n], q[..n]);
      DistanceIsWeight(p[..n], q[..n]);
      AddCancels(p[n], q[n]);
    }
  }

  lemma {:induction false} DistanceZero(p: seq<bv8>, q: seq<bv8>)
    requires |p| == |q|
    ensures Distance(p, q) == 0 <==> p == q
    decreases |p|
  {
    if |p| > 0 {
      var n := |p| - 1;
      DistanceZero(p[..n], q[..n]);
      assert p == p[..n] + [p[n]] && q == q[..n] + [q[n]];
    }
  }

  lemma {:induction false} Triangle(p: seq<bv8>, q: seq<bv8>, r: seq<bv8>)
    requires |p| == |q| == |r|
    ensures Distance(p, r) <= Distance(p, q) + Distance(q, r)
    ensures Distance(p, q) == Distance(q, p)
    decreases |p|
  {
    if |p| > 0 {
      var n := |p| - 1;
      Triangle(p[..n], q[..n], r[..n]);
    }
  }

  ghost predicate HasRoots(word: seq<bv8>, degree: nat) {
    forall k :: 0 <= k < degree ==> Eval(word, Power(2, k)) == 0
  }

  /** Two different words of at most 255 bytes that share the generator's roots differ in
      more positions than the generator has roots. */
  lemma WordsFarApart(p: seq<bv8>, q: seq<bv8>, degree: nat)
    requires |p| == |q| <= 255 && p != q
    requires HasRoots(p, degree) && HasRoots(q, degree)
    ensures Distance(p, q) > degree
  {
    hide Mul, Add, Power, Eval;
    var e := Sum(p, q);
    var cs, xs := Coefficients(e), Bases(e, 0);
    DistanceIsWeight(p, q);
    DistanceZero(p, q);
    if |cs| <= degree {
      forall k | 0 <= k < |cs|
        ensures PowerSum(cs, xs, k) == 0
      {
        EvalSum(p, q, Power(2, k));
        AddLaws(0, 0, 0);
        TermsSum(e, 0, k);
        MulZero(Power(Power(2, k), 0));
      }
      BasesDistinct(e, 0);
      var first := cs[0];
      Vandermonde(cs, xs);
    }
  }

  /** Two blocks of one length whose data differ anywhere differ in at least degree + 1
      bytes once their error correction is attached. */
  lemma MinimumDistance(p: seq<bv8>, q: seq<bv8>, degree: nat)
    requires degree > 0 && |p| == |q| && |p| + degree <= 255 && p != q
    ensures Distance(Codeword(p, degree), Codeword(q, degree)) >= degree + 1
  {
    forall k | 0 <= k < degree
      ensures Eval(Codeword(p, degree), Power(2, k)) == 0
      ensures Eval(Codeword(q, degree), Power(2, k)) == 0
    {
      CodewordRoots(p, degree, k);
      CodewordRoots(q, degree, k);
    }
    assert p == Codeword(p, degree)[..|p|] && q == Codeword(q, degree)[..|q|];
    WordsFarApart(Codeword(p, degree), Codeword(q, degree), degree);
  }

  /** A received block with at most half as many damaged bytes as error correction bytes
      has only one codeword that near, so the data can be recovered. */
  lemma UniqueCorrection(received: seq<bv8>, p: seq<bv8>, q: seq<bv8>, degree: nat)
    requires degree > 0 && |p| == |q| && |p| + degree == |received| <= 255
    requires 2 * Distance(received, Codeword(p, degree)) <= degree
    requires 2 * Distance(received, Codeword(q, degree)) <= degree
    ensures p == q
  {
    if p != q {
      MinimumDistance(p, q, degree);
      Triangle(received, Codeword(p, degree), received);
      Triangle(Codeword(p, degree), received, Codeword(q, degree));
    }
  }

  // ----- The encoder's loops -----

  lemma TimesRootAt(p: seq<bv8>, root: bv8, k: nat)
    requires 0 < k <= |p|
    ensures TimesRoot(p, root)[k] == if k < |p| then Add(Mul(p[k - 1], root), p[k]) else Mul(p[k - 1], root)
  {
    hide Mul;
    assert ([0] + Scale(p, root))[k] == Mul(p[k - 1], root);
  }

  lemma PaddedTimesRoot(zeros: nat, p: seq<bv8>, root: bv8)
    requires |p| > 0
    ensures TimesRoot(Zeros(zeros) + p, root) == Zeros(zeros) + TimesRoot(p, root)
  {
    hide TimesRoot, Zeros;
    var padded := Zeros(zeros) + p;
    ZerosAre(zeros);
    CoefficientAt(p, root, 0);
    CoefficientAt(padded, root, 0);
    forall k | 0 <= k <= |padded|
      ensures TimesRoot(padded, root)[k] == (Zeros(zeros) + TimesRoot(p, root))[k]
    {
      CoefficientAt(padded, root, k);
      if k >= zeros { CoefficientAt(p, root, k - zeros); }
      hide Mul, Add;
      MulZero(root);
      AddLaws(0, 0, 0);
    }
  }

  lemma ZerosAre(n: nat)
    ensures |Zeros(n)| == n && forall i :: 0 <= i < n ==> Zeros(n)[i] == 0
  {
  }

  lemma CoefficientAt(p: seq<bv8>, root: bv8, k: nat)
    requires k <= |p|
    ensures |TimesRoot(p, root)| == |p| + 1
    ensures TimesRoot(p, root)[k]
      == Add(if k == |p| then 0 else p[k], if k == 0 then 0 else Mul(p[k - 1], root))
  {
    hide Mul, Add;
    assert ([0] + Scale(p, root))[k] == if k == 0 then 0 else Mul(p[k - 1], root);
  }

  method Generator(degree: nat) returns (result: array<bv8>)
    requires degree > 0
    ensures result[..] == GeneratorPoly(degree)
    ensures fresh(result)
  {
    hide Mul, Add, Power, TimesRoot, RootProduct, Zeros;
    result := new bv8[degree](_ => 0);
    result[degree - 1] := 1;
    var root: bv8 := 1;
    GeneratorStart(degree);
    for i := 0 to degree
      invariant root == Power(2, i)
      invariant result[..] == (Zeros(degree - i) + RootProduct(i))[1..]
    {
      ghost var full := Zeros(degree - i) + RootProduct(i);
      GeneratorTurn(degree - i, i);
      for j := 0 to degree
        invariant forall k :: 0 <= k < j ==> result[k] == TimesRoot(full, root)[k + 2]
        invariant forall k :: j <= k < degree ==> result[k] == full[k + 1]
      {
        TimesRootAt(full, root, j + 2);
        var product := GfMul(result[j], root);
        result[j] := product;
        if j + 1 < degree {
          result[j] := Add(result[j], result[j + 1]);
        }
      }
      var next := GfMul(root, 2);
      MulCommutes(root, 2);
      root := next;
    }
  }

  lemma GeneratorStart(degree: nat)
    requires degree > 0
    ensures Power(2, 0) == 1
    ensures (Zeros(degree) + RootProduct(0))[1..] == Zeros(degree - 1) + [1]
    ensures Zeros(degree - 1) == seq(degree - 1, _ => 0)
  {
  }

  lemma GeneratorTurn(zeros: nat, i: nat)
    requires zeros > 0
    ensures |Zeros(zeros)| == zeros
    ensures |TimesRoot(Zeros(zeros) + RootProduct(i), Power(2, i))| == zeros + i + 2
    ensures TimesRoot(Zeros(zeros) + RootProduct(i), Power(2, i))[2..] == (Zeros(zeros - 1) + RootProduct(i + 1))[1..]
    ensures Power(2, i + 1) == Mul(2, Power(2, i))
  {
    hide Mul, TimesRoot;
    PaddedTimesRoot(zeros, RootProduct(i), Power(2, i));
    var next := RootProduct(i + 1);
    assert TimesRoot(Zeros(zeros) + RootProduct(i), Power(2, i)) == Zeros(zeros) + next;
    assert (Zeros(zeros) + next)[2..] == (Zeros(zeros - 1) + next)[1..];
  }

  method Remainder(data: seq<bv8>, divisor: seq<bv8>) returns (result: seq<bv8>)
    requires |divisor| > 0
    ensures result == Ecc(data, divisor)
  {
    hide Mul, Add;
    result := seq(|divisor|, _ => 0);
    for n := 0 to |data|
      invariant result == Ecc(data[..n], divisor)
    {
      assert data[..n + 1][..n] == data[..n];
      var factor := Add(data[n], result[0]);
      result := result[1..] + [0];
      ghost var moved := result;
      for i := 0 to |divisor|
        invariant |result| == |divisor|
        invariant forall k :: 0 <= k < i ==> result[k] == Add(moved[k], Mul(divisor[k], factor))
        invariant forall k :: i <= k < |divisor| ==> result[k] == moved[k]
      {
        var product := GfMul(divisor[i], factor);
        result := result[i := Add(result[i], product)];
      }
    }
    assert data[..|data|] == data;
  }
}
