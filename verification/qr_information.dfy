/** The format and version information, bit by bit as the standard's tables have it. */
module QrInformation {
  import opened QrStandard
  import opened QrVersion
  import opened QrLayout
  import opened QrMask
  import opened QrBch
  import opened QrVersionWords

  lemma Words7(v: version)
    requires 7 <= v < 14
    ensures Combined(v as bv32) == VersionInformation(v)
  {
    if v == 7 {} else if v == 8 {} else if v == 9 {} else if v == 10 {} else if v == 11 {} else if v == 12 {} else {}
  }

  lemma Words14(v: version)
    requires 14 <= v < 21
    ensures Combined(v as bv32) == VersionInformation(v)
  {
    if v == 14 {} else if v == 15 {} else if v == 16 {} else if v == 17 {} else if v == 18 {} else if v == 19 {} else {}
  }

  lemma Words21(v: version)
    requires 21 <= v < 28
    ensures Combined(v as bv32) == VersionInformation(v)
  {
    if v == 21 {} else if v == 22 {} else if v == 23 {} else if v == 24 {} else if v == 25 {} else if v == 26 {} else {}
  }

  lemma Words28(v: version)
    requires 28 <= v < 35
    ensures Combined(v as bv32) == VersionInformation(v)
  {
    if v == 28 {} else if v == 29 {} else if v == 30 {} else if v == 31 {} else if v == 32 {} else if v == 33 {} else {}
  }

  lemma Words35(v: version)
    requires 35 <= v < 38
    ensures Combined(v as bv32) == VersionInformation(v)
  {
    if v == 35 {} else if v == 36 {} else {}
  }

  lemma Words38(v: version)
    requires 38 <= v
    ensures Combined(v as bv32) == VersionInformation(v)
  {
    if v == 38 {} else if v == 39 {} else {}
  }

  /** The version words are those of the standard's table. */
  lemma VersionTable(v: version)
    requires v >= 7
    ensures VersionWord(v) == VersionInformation(v)
  {
    hide *;
    WordIs(v);
    if v < 14 { Words7(v); } else if v < 21 { Words14(v); } else if v < 28 { Words21(v); } else if v < 35 { Words28(v); } else if v < 38 { Words35(v); } else { Words38(v); }
  }

  lemma BitOfWord(w: bv32, i: nat)
    requires i < 18
    ensures WordBit(w, i) == BitSet(w, i)
  {
    OneIsMasked(w, i);
    hide Bit, WordBit;
  }

  lemma FormatBitIs(m: nat, i: nat)
    requires m < 8 && i < 15
    ensures FormatBit(m, i) == BitSet(FormatInformation(m), i)
  {
    hide BitSet, WordBit, FormatWord;
    FormatTable(m);
    BitOfWord(FormatWord(m), i);
  }

  lemma VersionBitIs(v: version, i: nat)
    requires v >= 7 && i < 18
    ensures WordBit(VersionWord(v), i) == BitSet(VersionInformation(v), i)
  {
    hide *;
    VersionTable(v);
    BitOfWord(VersionWord(v), i);
  }
}
