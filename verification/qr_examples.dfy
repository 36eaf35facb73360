/** One payload worked out by hand: the codewords of the single letter A in version 1. */
module QrExamples {
  import opened Bits
  import opened QrVersion
  import opened QrData
  import GaloisField

  /** Doubling in the field reduces by x^8 + x^4 + x^3 + x^2 + 1. */
  lemma DoublesModulo11D()
    ensures GaloisField.Mul(0x80, 2) == 0x1d && GaloisField.Mul(0x40, 2) == 0x80
  {
    assert GaloisField.Mul(0x80, 1) == 0x80;
  }

  /** Mode, a count of one, the letter, four zeros. */
  function LetterBits(): (bits: seq<bool>)
    ensures |bits| == 24
  {
    [false, true, false, false] + [false, false, false, false, false, false, false, true]
    + [false, true, false, false, false, false, false, true] + [false, false, false, false]
  }

  lemma LetterHeader()
    ensures Header([0x41], 1) + Falses(4) == LetterBits()
  {
    ModeBits();
    CountOfOne();
    StreamOne(0x41);
    LetterByte();
    hide BitsOf, ByteBit, Stream;
  }

  lemma CountOfOne()
    ensures CountBits(1) == 8 && BitsOf(1, 8) == [false, false, false, false, false, false, false, true]
  {
    BitsOfZero(7);
    assert BitsOf(1, 8) == BitsOf(0, 7) + [true];
  }

  lemma LetterByte()
    ensures ByteBits(0x41) == [false, true, false, false, false, false, false, true]
  {
  }

  lemma PackedLetter()
    ensures Bytes(LetterBits()) == [0x40, 0x14, 0x10]
  {
    var b := LetterBits();
    PackEight(b[0..8]);
    PackEight(b[8..16]);
    PackEight(b[16..24]);
    hide Pack;
  }

  lemma LetterPads()
    ensures Pads(13) == [0xec, 0x11, 0xec, 0x11, 0xec, 0x11, 0xec, 0x11, 0xec, 0x11, 0xec, 0x11, 0xec]
  {
  }

  lemma LetterEnds()
    ensures |Header([0x41], 1)| == 20 && Terminator(20, 16) == 4
  {
    HeaderIs([0x41], 1);
    hide Header;
  }

  lemma LetterStart(codewords: seq<bv8>)
    requires |codewords| == 16 && Holds(codewords, [0x41], 1)
    ensures Stream(codewords[..3]) == LetterBits() && codewords[3..] == Pads(13)
  {
    hide *;
    LetterEnds();
    LetterHeader();
    HoldsMeans(codewords, [0x41], 1, 3, 4);
  }

  lemma Joined(codewords: seq<bv8>, k: nat)
    requires k <= |codewords|
    ensures codewords == codewords[..k] + codewords[k..]
  {
  }

  /** Whatever holds the letter in sixteen codewords is these. */
  lemma LetterHeld(codewords: seq<bv8>)
    requires |codewords| == 16 && Holds(codewords, [0x41], 1)
    ensures codewords == [0x40, 0x14, 0x10, 0xec, 0x11, 0xec, 0x11, 0xec, 0x11, 0xec, 0x11, 0xec, 0x11, 0xec, 0x11, 0xec]
  {
    hide *;
    LetterStart(codewords);
    LetterPads();
    PackedLetter();
    BytesOfStream(codewords[..3]);
    Joined(codewords, 3);
  }
}
