/** The words of the version blocks: how far apart they are. */
module QrVersionWords {
  import opened QrStandard
  import opened QrBch
  import opened QrLayout
  import opened QrVersion

  // ----- The words as a linear code -----

  /** A turn of the division without its multiplication. */
  function Turned(x: bv32): bv32 {
    (x << 1) ^ (if x >= 0x800 then 0x1f25 else 0)
  }

  lemma TurnIs(x: bv32)
    requires x < 0x1000
    ensures VersionTurn(x) == Turned(x) && Turned(x) < 0x1000
  {
    if x >= 0x800 { assert x >> 11 == 1; } else { assert x >> 11 == 0; }
  }

  lemma CheckStep(d: bv32, k: nat)
    requires k > 0 && VersionCheck(d, k - 1) < 0x1000
    ensures VersionCheck(d, k) == Turned(VersionCheck(d, k - 1)) && VersionCheck(d, k) < 0x1000
  {
    hide VersionTurn, Turned;
    TurnIs(VersionCheck(d, k - 1));
  }

  function Six(d: bv32): bv32 {
    Turned(Turned(Turned(Turned(Turned(Turned(d))))))
  }

  lemma SixSteps(d: bv32, k: nat)
    requires VersionCheck(d, k) < 0x1000
    ensures VersionCheck(d, k + 6) == Six(VersionCheck(d, k)) && VersionCheck(d, k + 6) < 0x1000
  {
    hide Turned, VersionCheck;
    CheckStep(d, k + 1);
    CheckStep(d, k + 2);
    CheckStep(d, k + 3);
    CheckStep(d, k + 4);
    CheckStep(d, k + 5);
    CheckStep(d, k + 6);
  }

  function Chosen(d: bv32, bit: bv32, word: bv32): bv32 {
    if d & bit != 0 then word else 0
  }

  /** The sum of the code words of a number's bits. */
  function Combined(d: bv32): bv32 {
    Xor(Xor(Xor(Chosen(d, 1, 0x01f25), Chosen(d, 2, 0x0216f)), Xor(Chosen(d, 4, 0x042de), Chosen(d, 8, 0x085bc))),
        Xor(Chosen(d, 16, 0x10b78), Chosen(d, 32, 0x209d5)))
  }

  lemma DividedIs(d: bv32)
    requires d < 64
    ensures WithCheck(d, Six(Six(d))) == Combined(d)
  {
  }

  lemma NumberBelow(v: version)
    ensures 0 < (v as bv32) < 64
  {
  }

  lemma StartsBelow(d: bv32)
    requires d < 64
    ensures VersionCheck(d, 0) == d < 0x1000
  {
  }

  lemma WordIs(v: version)
    ensures VersionWord(v) == Combined(v as bv32)
  {
    hide Six, Combined, VersionCheck, WithCheck;
    var d := v as bv32;
    NumberBelow(v);
    StartsBelow(d);
    SixSteps(d, 0);
    SixSteps(d, 6);
    DividedIs(d);
  }

  lemma ChosenXor(a: bv32, b: bv32, bit: bv32, word: bv32)
    requires bit in {1, 2, 4, 8, 16, 32}
    ensures Chosen(Xor(a, b), bit, word) == Xor(Chosen(a, bit, word), Chosen(b, bit, word))
  {
    OneBit(a, bit);
    OneBit(b, bit);
    MaskXor(a, b, bit);
    XorLaws(bit);
    XorLaws(word);
    hide Xor;
  }

  lemma OneBit(x: bv32, bit: bv32)
    requires bit in {1, 2, 4, 8, 16, 32}
    ensures x & bit == 0 || x & bit == bit
  {
    if bit == 1 {
    } else if bit == 2 {
    } else if bit == 4 {
    } else if bit == 8 {
    } else if bit == 16 {
    } else {
    }
  }

  lemma MaskXor(a: bv32, b: bv32, bit: bv32)
    ensures Xor(a, b) & bit == Xor(a & bit, b & bit)
  {
  }

  lemma XorLaws(x: bv32)
    ensures Xor(x, x) == 0 && Xor(x, 0) == x && Xor(0, x) == x && Xor(0, 0) == 0
  {
  }

  lemma XorBelow(a: bv32, b: bv32)
    requires a < 64 && b < 64 && a != b
    ensures 0 < Xor(a, b) < 64
  {
  }

  lemma XorSwap(a: bv32, b: bv32, c: bv32, d: bv32)
    ensures Xor(Xor(a, b), Xor(c, d)) == Xor(Xor(a, c), Xor(b, d))
  {
    hide *;
    XorGroups(a, b, Xor(c, d));
    XorGroups(b, c, d);
    XorGroups(c, b, d);
    XorGroups(a, c, Xor(b, d));
  }

  lemma XorGroups(a: bv32, b: bv32, c: bv32)
    ensures Xor(Xor(a, b), c) == Xor(a, Xor(b, c)) && Xor(a, b) == Xor(b, a)
  {
    Groups(a, b, c);
  }

  lemma Groups(a: bv32, b: bv32, c: bv32)
    ensures (a ^ b) ^ c == a ^ (b ^ c) && a ^ b == b ^ a
  {
  }

  lemma XorFour(a0: bv32, a1: bv32, a2: bv32, a3: bv32, b0: bv32, b1: bv32, b2: bv32, b3: bv32)
    ensures Xor(Xor(Xor(a0, a1), Xor(a2, a3)), Xor(Xor(b0, b1), Xor(b2, b3)))
      == Xor(Xor(Xor(a0, b0), Xor(a1, b1)), Xor(Xor(a2, b2), Xor(a3, b3)))
  {
    hide Xor;
    XorSwap(Xor(a0, a1), Xor(a2, a3), Xor(b0, b1), Xor(b2, b3));
    XorSwap(a0, a1, b0, b1);
    XorSwap(a2, a3, b2, b3);
  }

  lemma CombinedXor(a: bv32, b: bv32)
    ensures Xor(Combined(a), Combined(b)) == Combined(Xor(a, b))
  {
    hide Chosen, Xor;
    ChosenXor(a, b, 1, 0x01f25);
    ChosenXor(a, b, 2, 0x0216f);
    ChosenXor(a, b, 4, 0x042de);
    ChosenXor(a, b, 8, 0x085bc);
    ChosenXor(a, b, 16, 0x10b78);
    ChosenXor(a, b, 32, 0x209d5);
    var a4, a5, b4, b5 := Chosen(a, 16, 0x10b78), Chosen(a, 32, 0x209d5), Chosen(b, 16, 0x10b78), Chosen(b, 32, 0x209d5);
    XorFour(Chosen(a, 1, 0x01f25), Chosen(a, 2, 0x0216f), Chosen(a, 4, 0x042de), Chosen(a, 8, 0x085bc),
            Chosen(b, 1, 0x01f25), Chosen(b, 2, 0x0216f), Chosen(b, 4, 0x042de), Chosen(b, 8, 0x085bc));
    XorSwap(a4, a5, b4, b5);
    XorSwap(Xor(Xor(Chosen(a, 1, 0x01f25), Chosen(a, 2, 0x0216f)), Xor(Chosen(a, 4, 0x042de), Chosen(a, 8, 0x085bc))), Xor(a4, a5),
            Xor(Xor(Chosen(b, 1, 0x01f25), Chosen(b, 2, 0x0216f)), Xor(Chosen(b, 4, 0x042de), Chosen(b, 8, 0x085bc))), Xor(b4, b5));
  }

  // ----- Their weight -----

  /** How many of the lowest eighteen bits are set. */
  function Weight18(w: bv32): nat {
    Weight5(w, 0) + Weight5(w, 5) + Weight5(w, 10) + One(w, 15) + One(w, 16) + One(w, 17)
  }

  lemma HammingIsWeight18(a: bv32, b: bv32)
    ensures Hamming(WordBits(a, 18), WordBits(b, 18), 18) == Weight18(Xor(a, b))
  {
    hide Weight5, WordBits, Xor, One, Hamming;
    HammingNone(WordBits(a, 18), WordBits(b, 18));
    HammingFive(a, b, 18, 0);
    HammingFive(a, b, 18, 5);
    HammingFive(a, b, 18, 10);
    HammingOne(a, b, 18, 15);
    HammingOne(a, b, 18, 16);
    HammingOne(a, b, 18, 17);
  }

  lemma HammingNone(a: seq<bool>, b: seq<bool>)
    ensures Hamming(a, b, 0) == 0
  {
  }

  /** A bit by its mask. */
  function Masked(w: bv32, mask: bv32): nat {
    if w & mask != 0 then 1 else 0
  }

  lemma HalfMasked(w: bv32, mask: bv32)
    requires mask < 0x8000_0000
    ensures Masked(Half(w), mask) == Masked(w, mask << 1)
  {
  }

  lemma {:induction false} ShiftedHalf(w: bv32, i: nat)
    ensures Shifted(Half(w), i) == Shifted(w, i + 1)
  {
    hide Half;
    if i > 0 { ShiftedHalf(w, i - 1); }
  }

  lemma OneOfHalf(w: bv32, i: nat)
    requires i < 31
    ensures One(w, i + 1) == One(Half(w), i)
  {
    ShiftedHalf(w, i);
    hide Shifted;
  }

  lemma MaskStep(i: nat)
    requires 0 < i < 18
    ensures Bit(i) == Bit(i - 1) << 1 && Bit(i - 1) < 0x8000_0000
  {
  }

  lemma LowestMasked(w: bv32)
    ensures One(w, 0) == Masked(w, 0x1)
  {
  }

  lemma FirstMask()
    ensures Bit(0) == 0x1
  {
  }

  lemma {:induction false} OneIsMasked(w: bv32, i: nat)
    requires i < 18
    ensures One(w, i) == Masked(w, Bit(i))
    decreases i
  {
    hide *;
    if i == 0 {
      LowestMasked(w);
      FirstMask();
    } else {
      MaskStep(i);
      OneOfHalf(w, i - 1);
      OneIsMasked(Half(w), i - 1);
      HalfMasked(w, Bit(i - 1));
    }
  }

  lemma FiveMasked(w: bv32, i: nat)
    requires i + 5 <= 18
    ensures Weight5(w, i) == Masked(w, Bit(i)) + Masked(w, Bit(i + 1)) + Masked(w, Bit(i + 2))
      + Masked(w, Bit(i + 3)) + Masked(w, Bit(i + 4))
  {
    hide One, Masked, Bit;
    OneIsMasked(w, i);
    OneIsMasked(w, i + 1);
    OneIsMasked(w, i + 2);
    OneIsMasked(w, i + 3);
    OneIsMasked(w, i + 4);
  }

  lemma WeightMasked(w: bv32)
    ensures Weight18(w) == Masked(w, 0x1) + Masked(w, 0x2) + Masked(w, 0x4) + Masked(w, 0x8) + Masked(w, 0x10)
      + Masked(w, 0x20) + Masked(w, 0x40) + Masked(w, 0x80) + Masked(w, 0x100) + Masked(w, 0x200) + Masked(w, 0x400)
      + Masked(w, 0x800) + Masked(w, 0x1000) + Masked(w, 0x2000) + Masked(w, 0x4000) + Masked(w, 0x8000)
      + Masked(w, 0x10000) + Masked(w, 0x20000)
  {
    hide One, Masked, Weight5;
    FiveMasked(w, 0);
    FiveMasked(w, 5);
    FiveMasked(w, 10);
    OneIsMasked(w, 15);
    OneIsMasked(w, 16);
    OneIsMasked(w, 17);
  }

  /** Every nonzero word of the code has at least eight bits set. */
  lemma CombinedWeight(d: bv32)
    requires 0 < d < 64
    ensures Weight18(Combined(d)) >= 8
  {
    hide Weight18;
    WeightMasked(Combined(d));
  }

  /** Any two versions' words differ in at least eight of their eighteen bits. */
  lemma VersionWordsFarApart(a: version, b: version)
    requires a != b
    ensures Hamming(WordBits(VersionWord(a), 18), WordBits(VersionWord(b), 18), 18) >= 8
  {
    hide *;
    WordIs(a);
    WordIs(b);
    NumberBelow(a);
    NumberBelow(b);
    NumbersDiffer(a, b);
    XorBelow(a as bv32, b as bv32);
    CombinedXor(a as bv32, b as bv32);
    CombinedWeight(Xor(a as bv32, b as bv32));
    HammingIsWeight18(VersionWord(a), VersionWord(b));
  }

  lemma Number1To10(v: version)
    requires 1 <= v <= 10
    ensures (v as bv32) as int == v
  {
    assert v == 1 || v == 2 || v == 3 || v == 4 || v == 5
        || v == 6 || v == 7 || v == 8 || v == 9 || v == 10;
  }

  lemma Number11To20(v: version)
    requires 11 <= v <= 20
    ensures (v as bv32) as int == v
  {
    assert v == 11 || v == 12 || v == 13 || v == 14 || v == 15
        || v == 16 || v == 17 || v == 18 || v == 19 || v == 20;
  }

  lemma Number21To30(v: version)
    requires 21 <= v <= 30
    ensures (v as bv32) as int == v
  {
    assert v == 21 || v == 22 || v == 23 || v == 24 || v == 25
        || v == 26 || v == 27 || v == 28 || v == 29 || v == 30;
  }

  lemma Number31To40(v: version)
    requires 31 <= v <= 40
    ensures (v as bv32) as int == v
  {
    assert v == 31 || v == 32 || v == 33 || v == 34 || v == 35
        || v == 36 || v == 37 || v == 38 || v == 39 || v == 40;
  }

  lemma NumberBack(v: version)
    ensures (v as bv32) as int == v
  {
    if v <= 10 {
      Number1To10(v);
    } else if v <= 20 {
      Number11To20(v);
    } else if v <= 30 {
      Number21To30(v);
    } else {
      Number31To40(v);
    }
  }

  lemma NumbersDiffer(a: version, b: version)
    requires a != b
    ensures (a as bv32) != (b as bv32)
  {
    NumberBack(a);
    NumberBack(b);
  }
}
