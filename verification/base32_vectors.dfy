/** Base32 by example: a vector of section 10 of RFC 4648, the alphabet, and the spaces a person types. */
module Base32Vectors {
  import opened Options
  import opened Bits
  import opened Buffers
  import opened Base32

  function Bits5(a: bool, b: bool, c: bool, d: bool, e: bool): (bits: seq<bool>)
    ensures |bits| == 5
  {
    [a, b, c, d, e]
  }

  lemma Value5(a: bool, b: bool, c: bool, d: bool, e: bool)
    ensures ValueOf(Bits5(a, b, c, d, e))
      == (if a then 16 else 0) + (if b then 8 else 0) + (if c then 4 else 0) + (if d then 2 else 0) + (if e then 1 else 0)
  {
    hide ValueOf;
    ValueOfNone();
    ValueSnoc([], a);
    ValueSnoc([a], b);
    ValueSnoc([a, b], c);
    ValueSnoc([a, b, c], d);
    ValueSnoc([a, b, c, d], e);
    assert [] + [a] == [a] && [a] + [b] == [a, b] && [a, b] + [c] == [a, b, c] && [a, b, c] + [d] == [a, b, c, d];
    assert [a, b, c, d] + [e] == Bits5(a, b, c, d, e);
  }

  lemma ByteF()
    ensures BitsOf(0x66, 8) == [false, true, true, false, false, true, true, false]
  {
    assert BitsOf(0x0c, 5) == [false, true, true, false, false] by { assert BitsOf(0x3, 3) == [false, true, true]; }
  }

  lemma ByteO()
    ensures BitsOf(0x6f, 8) == [false, true, true, false, true, true, true, true]
  {
    assert BitsOf(0x0d, 5) == [false, true, true, false, true] by { assert BitsOf(0x3, 3) == [false, true, true]; }
  }

  lemma BitsFo()
    ensures Padded(Flat([0x66, 0x6f], 8))
      == Bits5(false, true, true, false, false) + (Bits5(true, true, false, false, true)
       + (Bits5(true, false, true, true, true) + (Bits5(true, false, false, false, false) + [])))
  {
    ByteF();
    ByteO();
    FlatCons(0x66, [0x6f], 8);
    FlatCons(0x6f, [], 8);
    assert [0x66] + [0x6f] == [0x66, 0x6f] && [0x6f] + [] == [0x6f];
    assert Flat([], 8) == [];
    hide Flat, BitsOf;
  }

  lemma GroupFirst(a: seq<bool>, rest: seq<bool>)
    requires |a| == 5
    ensures Groups(a + rest, 5) == [ValueOf(a)] + Groups(rest, 5)
  {
    assert (a + rest)[..5] == a && (a + rest)[5..] == rest;
  }

  lemma GroupsFour(a: seq<bool>, b: seq<bool>, c: seq<bool>, d: seq<bool>)
    requires |a| == |b| == |c| == |d| == 5
    ensures Groups(a + (b + (c + (d + []))), 5) == [ValueOf(a), ValueOf(b), ValueOf(c), ValueOf(d)]
  {
    hide *;
    GroupFirst(a, b + (c + (d + [])));
    GroupFirst(b, c + (d + []));
    GroupFirst(c, d + []);
    GroupFirst(d, []);
    NoGroups();
  }

  lemma NoGroups()
    ensures Groups([], 5) == []
  {
  }

  /** "fo", whose sixteen bits are three letters and one bit more. */
  lemma VectorFo()
    ensures Encode(Ascii("fo")) == "MZXQ"
  {
    hide *;
    Letters4();
    BitsFo();
    GroupsFour(Bits5(false, true, true, false, false), Bits5(true, true, false, false, true),
               Bits5(true, false, true, true, true), Bits5(true, false, false, false, false));
    Value5(false, true, true, false, false);
    Value5(true, true, false, false, true);
    Value5(true, false, true, true, true);
    Value5(true, false, false, false, false);
    EncodeIs(Ascii("fo"), [12, 25, 23, 16]);
  }

  lemma Letters4()
    ensures Ascii("fo") == [0x66, 0x6f]
    ensures AllBelow([12, 25, 23, 16], 32) && Letters([12, 25, 23, 16]) == "MZXQ"
  {
  }

  /** The first twenty-six letters are A to Z and the last six the digits 2 to 7. */
  lemma AlphabetIs(v: nat)
    requires v < 32
    ensures Letter(v) as int == if v < 26 then 'A' as int + v else '2' as int + (v - 26)
  {
    LetterIs(v);
  }

  /** Blanks, tabs and line ends anywhere in any text make no difference; letters, digits and = are none of them. */
  lemma TypedSpaces(upper: char -> string, before: string, space: char, after: string)
    requires space == ' ' || space == '\t' || space == '\n' || space == '\r'
    ensures Decode(upper, before + [space] + after) == Decode(upper, before + after)
    ensures forall c: char :: 'A' <= c <= 'Z' || 'a' <= c <= 'z' || '0' <= c <= '9' || c == '=' ==> !IsSpace(c)
  {
    assert IsSpace(space);
    SpaceInserted(upper, before, space, after);
    hide Decode;
  }
}
