/** The words of the format strip: how far apart they are. */
module QrBch {
  import opened QrLayout
  import opened QrMask
  import opened QrStandard

  /** The number of places among the first k in which two bit sequences differ. */
  function Hamming(a: seq<bool>, b: seq<bool>, k: nat): nat
    requires k <= |a| && k <= |b|
  {
    if k == 0 then 0 else Hamming(a, b, k - 1) + (if a[k - 1] == b[k - 1] then 0 else 1)
  }

  lemma {:induction false} HammingTriangle(a: seq<bool>, b: seq<bool>, c: seq<bool>, k: nat)
    requires k <= |a| && k <= |b| && k <= |c|
    ensures Hamming(a, c, k) <= Hamming(a, b, k) + Hamming(b, c, k)
    ensures Hamming(a, b, k) == Hamming(b, a, k)
  {
    if k > 0 {
      HammingTriangle(a, b, c, k - 1);
    }
  }

  lemma {:induction false} HammingSelf(a: seq<bool>, k: nat)
    requires k <= |a|
    ensures Hamming(a, a, k) == 0
  {
    if k > 0 {
      HammingSelf(a, k - 1);
    }
  }

  function WordBits(word: bv32, k: nat): (bits: seq<bool>)
    requires k <= 32
    ensures |bits| == k
  {
    seq(k, i requires 0 <= i < k => WordBit(word, i))
  }

  function One(word: bv32, i: nat): nat
    requires i < 32
  {
    if WordBit(word, i) then 1 else 0
  }

  function Weight5(word: bv32, i: nat): nat
    requires i + 5 <= 32
  {
    One(word, i) + One(word, i + 1) + One(word, i + 2) + One(word, i + 3) + One(word, i + 4)
  }

  /** How many of the lowest fifteen bits are set. */
  function Weight15(word: bv32): nat {
    Weight5(word, 0) + Weight5(word, 5) + Weight5(word, 10)
  }

  function Xor(a: bv32, b: bv32): bv32 {
    a ^ b
  }

  lemma HalfOf(a: bv32, b: bv32)
    ensures (a ^ b) >> 1 == (a >> 1) ^ (b >> 1)
  {
  }

  lemma HalfXor(a: bv32, b: bv32)
    ensures Half(Xor(a, b)) == Xor(Half(a), Half(b))
  {
    HalfOf(a, b);
  }

  lemma LowXor(a: bv32, b: bv32)
    ensures (Xor(a, b) & 1 != 0) == ((a & 1 != 0) != (b & 1 != 0))
  {
    assert Xor(a, b) & 1 == (a & 1) ^ (b & 1);
  }

  lemma {:induction false} ShiftXor(a: bv32, b: bv32, i: nat)
    ensures Shifted(Xor(a, b), i) == Xor(Shifted(a, i), Shifted(b, i))
  {
    hide Xor, Half;
    if i > 0 {
      ShiftXor(a, b, i - 1);
      HalfXor(Shifted(a, i - 1), Shifted(b, i - 1));
    }
  }

  lemma BitOfXor(a: bv32, b: bv32, i: nat)
    ensures WordBit(Xor(a, b), i) == (WordBit(a, i) != WordBit(b, i))
  {
    hide Xor, Shifted;
    ShiftXor(a, b, i);
    LowXor(Shifted(a, i), Shifted(b, i));
  }

  lemma OneOfXor(a: bv32, b: bv32, n: nat, i: nat)
    requires i < n <= 32
    ensures One(Xor(a, b), i) == if WordBits(a, n)[i] == WordBits(b, n)[i] then 0 else 1
  {
    hide WordBit, Xor;
    BitOfXor(a, b, i);
  }

  lemma HammingOne(a: bv32, b: bv32, n: nat, k: nat)
    requires k < n <= 32
    ensures Hamming(WordBits(a, n), WordBits(b, n), k + 1) == Hamming(WordBits(a, n), WordBits(b, n), k) + One(Xor(a, b), k)
  {
    hide WordBit, Xor, WordBits, One;
    OneOfXor(a, b, n, k);
  }

  lemma HammingFive(a: bv32, b: bv32, n: nat, k: nat)
    requires k + 5 <= n <= 32
    ensures Hamming(WordBits(a, n), WordBits(b, n), k + 5)
         == Hamming(WordBits(a, n), WordBits(b, n), k) + Weight5(Xor(a, b), k)
  {
    hide WordBit, Xor, WordBits, One, Hamming;
    HammingOne(a, b, n, k);
    HammingOne(a, b, n, k + 1);
    HammingOne(a, b, n, k + 2);
    HammingOne(a, b, n, k + 3);
    HammingOne(a, b, n, k + 4);
  }

  lemma HammingIsWeight(a: bv32, b: bv32)
    ensures Hamming(WordBits(a, 15), WordBits(b, 15), 15) == Weight15(Xor(a, b))
  {
    hide Weight5, WordBits, Xor;
    HammingFive(a, b, 15, 0);
    HammingFive(a, b, 15, 5);
    HammingFive(a, b, 15, 10);
  }

  // ----- Format words -----

  /** The division of the format data by 0x537, ten turns at once. */
  function FormatTen(data: bv32): bv32 {
    FormatTurn(FormatTurn(FormatTurn(FormatTurn(FormatTurn(
      FormatTurn(FormatTurn(FormatTurn(FormatTurn(FormatTurn(data))))))))))
  }

  lemma FormatStep(data: bv32, k: nat)
    requires k > 0
    ensures FormatCheck(data, k) == FormatTurn(FormatCheck(data, k - 1))
    ensures FormatCheck(data, 0) == data
  {
    hide FormatTurn;
  }

  lemma FormatTurns(data: bv32)
    ensures FormatCheck(data, 10) == FormatTen(data)
  {
    hide FormatTurn, FormatCheck;
    FormatStep(data, 1);
    FormatStep(data, 2);
    FormatStep(data, 3);
    FormatStep(data, 4);
    FormatStep(data, 5);
    FormatStep(data, 6);
    FormatStep(data, 7);
    FormatStep(data, 8);
    FormatStep(data, 9);
    FormatStep(data, 10);
  }

  lemma FormatTable0(m: nat)
    requires 0 <= m < 3
    ensures Scrambled(FormatData(m), FormatTen(FormatData(m))) == FormatInformation(m)
  {
    if m == 0 {
    } else if m == 1 {
    } else {
    }
  }

  lemma FormatTable3(m: nat)
    requires 3 <= m < 6
    ensures Scrambled(FormatData(m), FormatTen(FormatData(m))) == FormatInformation(m)
  {
    if m == 3 {
    } else if m == 4 {
    } else {
    }
  }

  lemma FormatTable6(m: nat)
    requires 6 <= m < 8
    ensures Scrambled(FormatData(m), FormatTen(FormatData(m))) == FormatInformation(m)
  {
    if m == 6 {
    } else {
    }
  }

  /** The format words are the eight of the standard's table for level M. */
  lemma FormatTable(m: nat)
    requires m < 8
    ensures FormatWord(m) == FormatInformation(m)
  {
    hide Scrambled, FormatTen, FormatInformation, FormatData, FormatCheck;
    FormatTurns(FormatData(m));
    if m < 3 {
      FormatTable0(m);
    } else if m < 6 {
      FormatTable3(m);
    } else {
      FormatTable6(m);
    }
  }

  predicate Difference(d: bv32) {
    d == 0x0537 || d == 0x0a6e || d == 0x0f59 || d == 0x11eb || d == 0x14dc || d == 0x1b85 || d == 0x1eb2
  }

  /** The differences of two format words are the seven nonzero words of a linear code. */
  lemma FormatDifference(a: nat, b: nat)
    requires a < b < 8
    ensures Difference(Xor(FormatInformation(a), FormatInformation(b)))
  {
    if a == 0 {
    } else if a == 1 {
    } else if a == 2 {
    } else if a == 3 {
    } else if a == 4 {
    } else if a == 5 {
    } else {
    }
  }

  lemma DifferenceWeight(d: bv32)
    requires Difference(d)
    ensures Weight15(d) >= 7
  {
    if d == 0x0537 {
      assert Weight15(0x0537) >= 7;
    } else if d == 0x0a6e {
      assert Weight15(0x0a6e) >= 7;
    } else if d == 0x0f59 {
      assert Weight15(0x0f59) >= 7;
    } else if d == 0x11eb {
      assert Weight15(0x11eb) >= 7;
    } else if d == 0x14dc {
      assert Weight15(0x14dc) >= 7;
    } else if d == 0x1b85 {
      assert Weight15(0x1b85) >= 7;
    } else if d == 0x1eb2 {
      assert Weight15(0x1eb2) >= 7;
    }
  }

  /** Any two of the format words differ in at least seven of their fifteen bits. */
  lemma FormatWordsFarApart(a: nat, b: nat)
    requires a < b < 8
    ensures Hamming(WordBits(FormatWord(a), 15), WordBits(FormatWord(b), 15), 15) >= 7
  {
    hide *;
    FormatTable(a);
    FormatTable(b);
    FormatDifference(a, b);
    DifferenceWeight(Xor(FormatInformation(a), FormatInformation(b)));
    HammingIsWeight(FormatInformation(a), FormatInformation(b));
  }
}
