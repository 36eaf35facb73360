/** The data codewords of a symbol: mode, length, payload, terminator and padding, and the
    reading that takes them back to the payload. */
module QrData {
  import opened Options
  import opened Bits
  import opened QrStandard
  import opened QrVersion

  // ----- Bits of bytes, most significant first -----

  /** Bit k of a byte, counted from the most significant. */
  function ByteBit(b: bv8, k: nat): bool
    requires k < 8
  {
    (b >> (7 - k)) & 1 == 1
  }

  function ByteBits(b: bv8): (bits: seq<bool>)
    ensures |bits| == 8
  {
    seq(8, k requires 0 <= k < 8 => ByteBit(b, k))
  }

  function WithBit(b: bv8, bit: bool): bv8 {
    (b << 1) | (if bit then 1 else 0)
  }

  /** The byte whose last bits are these. */
  function Pack(bits: seq<bool>): bv8 {
    if |bits| == 0 then 0 else WithBit(Pack(bits[..|bits| - 1]), bits[|bits| - 1])
  }

  /** The bits of a sequence of bytes. */
  function Stream(bytes: seq<bv8>): (bits: seq<bool>)
    ensures |bits| == 8 * |bytes|
  {
    seq(8 * |bytes|, i requires 0 <= i < 8 * |bytes| => ByteBit(bytes[i / 8], i % 8))
  }

  /** The whole bytes of a sequence of bits. */
  function Bytes(bits: seq<bool>): (bytes: seq<bv8>)
    ensures |bytes| == |bits| / 8
  {
    seq(|bits| / 8, i requires 0 <= i < |bits| / 8 => Pack(bits[8 * i..8 * i + 8]))
  }

  lemma PackUnpacked(b: bv8)
    ensures Pack(ByteBits(b)) == b
  {
    var bits := ByteBits(b);
    PackEight(bits);
    Reassembled(b);
  }

  function Eight(b0: bool, b1: bool, b2: bool, b3: bool, b4: bool, b5: bool, b6: bool, b7: bool): bv8 {
    WithBit(WithBit(WithBit(WithBit(WithBit(WithBit(WithBit(WithBit(0, b0), b1), b2), b3), b4), b5), b6), b7)
  }

  lemma PackEight(bits: seq<bool>)
    requires |bits| == 8
    ensures Pack(bits) == Eight(bits[0], bits[1], bits[2], bits[3], bits[4], bits[5], bits[6], bits[7])
  {
    assert bits[..7][..6] == bits[..6];
    assert bits[..6][..5] == bits[..5];
    assert bits[..5][..4] == bits[..4];
    assert bits[..4][..3] == bits[..3];
    assert bits[..3][..2] == bits[..2];
    assert bits[..2][..1] == bits[..1];
    assert bits[..1][..0] == [];
    hide WithBit;
  }

  lemma Reassembled(b: bv8)
    ensures Eight(ByteBit(b, 0), ByteBit(b, 1), ByteBit(b, 2), ByteBit(b, 3),
                  ByteBit(b, 4), ByteBit(b, 5), ByteBit(b, 6), ByteBit(b, 7)) == b
  {
  }

  lemma UnpackPacked(bits: seq<bool>)
    requires |bits| == 8
    ensures ByteBits(Pack(bits)) == bits
  {
    PackEight(bits);
  }

  lemma StreamAt(bytes: seq<bv8>, i: nat, k: nat)
    requires i < |bytes| && k < 8
    ensures Stream(bytes)[8 * i + k] == ByteBit(bytes[i], k)
  {
    assert (8 * i + k) / 8 == i && (8 * i + k) % 8 == k;
  }

  lemma StreamBlock(bytes: seq<bv8>, i: nat)
    requires i < |bytes|
    ensures Stream(bytes)[8 * i..8 * i + 8] == ByteBits(bytes[i])
  {
    hide ByteBit;
    forall k | 0 <= k < 8
      ensures Stream(bytes)[8 * i..8 * i + 8][k] == ByteBits(bytes[i])[k]
    {
      StreamAt(bytes, i, k);
    }
  }

  lemma BytesOfStream(bytes: seq<bv8>)
    ensures Bytes(Stream(bytes)) == bytes
  {
    hide ByteBit, Pack, ByteBits;
    forall i | 0 <= i < |bytes|
      ensures Bytes(Stream(bytes))[i] == bytes[i]
    {
      StreamBlock(bytes, i);
      PackUnpacked(bytes[i]);
    }
  }

  lemma StreamOfBytes(bits: seq<bool>)
    requires |bits| % 8 == 0
    ensures Stream(Bytes(bits)) == bits
  {
    hide ByteBit, Pack, ByteBits;
    var bytes := Bytes(bits);
    assert |Stream(bytes)| == |bits|;
    forall j | 0 <= j < |bits|
      ensures Stream(bytes)[j] == bits[j]
    {
      PackedBit(bits, j / 8, j % 8);
    }
  }

  lemma PackedBit(bits: seq<bool>, i: nat, k: nat)
    requires |bits| % 8 == 0 && 8 * i + 8 <= |bits| && k < 8
    ensures i < |Bytes(bits)| && |Stream(Bytes(bits))| == |bits| && Stream(Bytes(bits))[8 * i + k] == bits[8 * i + k]
  {
    hide ByteBit, Pack;
    var block := bits[8 * i..8 * i + 8];
    StreamAt(Bytes(bits), i, k);
    UnpackPacked(block);
    assert block[k] == bits[8 * i + k];
  }

  lemma StreamConcat(p: seq<bv8>, q: seq<bv8>)
    ensures Stream(p + q) == Stream(p) + Stream(q)
  {
    hide ByteBit;
  }

  lemma StreamOne(b: bv8)
    ensures Stream([b]) == ByteBits(b)
  {
    hide ByteBit;
  }

  // ----- Encoding -----

  /** Mode, length and payload, before the terminator. */
  function Header(bytes: seq<bv8>, v: version): seq<bool> {
    BitsOf(4, 4) + BitsOf(|bytes|, CountBits(v)) + Stream(bytes)
  }

  function PadByte(i: nat): bv8 {
    if i % 2 == 0 then 0xec else 0x11
  }

  /** The specification's pad bytes. */
  function Pads(n: nat): seq<bv8> {
    seq(n, i requires 0 <= i < n => PadByte(i))
  }

  function Min(a: int, b: int): int {
    if a < b then a else b
  }

  /** The bits missing to the next byte boundary. */
  function ToBoundary(n: nat): (k: nat)
    ensures k < 8 && (n + k) % 8 == 0
  {
    (8 - n % 8) % 8
  }

  /** The zero bits after the payload: at most four of terminator, as far as n codewords
      have room for them, then up to a byte boundary. */
  function Terminator(used: nat, n: nat): (t: nat)
    requires used <= 8 * n
    ensures (used + t) % 8 == 0 && 8 * ((used + t) / 8) == used + t
    ensures used + t <= 8 * n
  {
    var t := Min(4, 8 * n - used);
    t + ToBoundary(used + t)
  }

  /** Codewords that hold a payload: its header, the terminator's zeros, then pad bytes. */
  ghost predicate Holds(codewords: seq<bv8>, bytes: seq<bv8>, v: version) {
    var header := Header(bytes, v);
    && |header| <= 8 * |codewords|
    && var t := Terminator(|header|, |codewords|);
       var k := (|header| + t) / 8;
    && Stream(codewords[..k]) == header + Falses(t)
    && codewords[k..] == Pads(|codewords| - k)
  }

  method Push(bits: seq<bool>, value: nat, width: nat) returns (r: seq<bool>)
    ensures r == bits + BitsOf(value, width)
  {
    r := bits;
    for i := width downto 0
      invariant r == bits + BitsOf(ShiftRight(value, i), width - i)
    {
      assert ShiftRight(value, i + 1) == ShiftRight(value, i) / 2;
      r := r + [ShiftRight(value, i) % 2 == 1];
    }
  }

  method PushByte(bits: seq<bool>, b: bv8) returns (r: seq<bool>)
    ensures r == bits + ByteBits(b)
  {
    hide ByteBit;
    r := bits;
    for i := 8 downto 0
      invariant r == bits + ByteBits(b)[..8 - i]
    {
      r := r + [ByteBit(b, 7 - i)];
    }
  }

  lemma FitsTotal(length: nat, v: version)
    requires Fits(length, v)
    ensures 4 + CountBits(v) + 8 * length <= 8 * DataCodewords(v)
  {
    hide DataCodewords;
  }

  method EncodeData(bytes: seq<bv8>, v: version) returns (codewords: seq<bv8>)
    requires Fits(|bytes|, v)
    ensures |codewords| == DataCodewords(v)
    ensures Holds(codewords, bytes, v)
  {
    hide *;
    FitsTotal(|bytes|, v);
    HeaderIs(bytes, v);
    var bits := Push([], 4, 4);
    bits := Push(bits, |bytes|, CountBits(v));
    ghost var start := bits;
    StreamEmpty();
    for n := 0 to |bytes|
      invariant bits == start + Stream(bytes[..n])
    {
      assert bytes[..n + 1] == bytes[..n] + [bytes[n]];
      StreamConcat(bytes[..n], [bytes[n]]);
      StreamOne(bytes[n]);
      bits := PushByte(bits, bytes[n]);
    }
    assert bytes[..|bytes|] == bytes;
    assert bits == Header(bytes, v);
    var total := DataCodewords(v);
    var capacity := total * 8;
    ghost var t := Terminator(|bits|, total);
    TerminatorParts(|bits|, total);
    BitsOfZero(Min(4, capacity - |bits|));
    bits := Push(bits, 0, Min(4, capacity - |bits|));
    BitsOfZero(ToBoundary(|bits|));
    bits := Push(bits, 0, ToBoundary(|bits|));
    assert bits == Header(bytes, v) + Falses(t);

    codewords := PackAll(bits);
    StreamOfBytes(bits);
    ghost var whole := codewords;
    codewords := PadTo(codewords, total);
    assert codewords[..|whole|] == whole;
    assert codewords[|whole|..] == Pads(total - |whole|);
    HoldsIf(codewords, bytes, v, |whole|, t);
  }

  /** The two padding codewords in turn. */
  method PadTo(whole: seq<bv8>, total: nat) returns (codewords: seq<bv8>)
    requires |whole| <= total
    ensures |codewords| == total && codewords == whole + Pads(total - |whole|)
  {
    hide *;
    codewords := whole;
    var pad: bv8 := 0xec;
    NoPads();
    while |codewords| < total
      invariant |whole| <= |codewords| <= total
      invariant codewords == whole + Pads(|codewords| - |whole|)
      invariant pad == PadByte(|codewords| - |whole|)
    {
      NextPad(|codewords| - |whole|);
      codewords := codewords + [pad];
      pad := pad ^ (0xec ^ 0x11);
    }
  }

  lemma TerminatorParts(used: nat, n: nat)
    requires used <= 8 * n
    ensures var t := Min(4, 8 * n - used);
      0 <= t && Falses(Terminator(used, n)) == Falses(t) + Falses(ToBoundary(used + t))
    ensures |Falses(Min(4, 8 * n - used))| == Min(4, 8 * n - used)
    ensures |Falses(Terminator(used, n))| == Terminator(used, n)
  {
  }

  lemma HoldsIf(codewords: seq<bv8>, bytes: seq<bv8>, v: version, k: nat, t: nat)
    requires |Header(bytes, v)| <= 8 * |codewords| && t == Terminator(|Header(bytes, v)|, |codewords|)
    requires 8 * k == |Header(bytes, v)| + t && k <= |codewords|
    requires Stream(codewords[..k]) == Header(bytes, v) + Falses(t)
    requires codewords[k..] == Pads(|codewords| - k)
    ensures Holds(codewords, bytes, v)
  {
    hide Header, Stream, Terminator, Pads, Falses;
  }

  /** What holding says, in these terms. */
  lemma HoldsMeans(codewords: seq<bv8>, bytes: seq<bv8>, v: version, k: nat, t: nat)
    requires Holds(codewords, bytes, v) && t == Terminator(|Header(bytes, v)|, |codewords|)
    requires 8 * k == |Header(bytes, v)| + t
    ensures k <= |codewords| && Stream(codewords[..k]) == Header(bytes, v) + Falses(t)
    ensures codewords[k..] == Pads(|codewords| - k)
  {
    hide Header, Stream, Terminator, Pads, Falses;
  }

  lemma StreamEmpty()
    ensures Stream([]) == []
  {
  }

  lemma NoPads()
    ensures Pads(0) == [] && PadByte(0) == 0xec
  {
  }

  lemma NextPad(n: nat)
    ensures Pads(n + 1) == Pads(n) + [PadByte(n)]
    ensures PadByte(n) ^ (0xec ^ 0x11) == PadByte(n + 1)
  {
  }

  lemma HeaderIs(bytes: seq<bv8>, v: version)
    ensures Header(bytes, v) == BitsOf(4, 4) + BitsOf(|bytes|, CountBits(v)) + Stream(bytes)
    ensures |Header(bytes, v)| == 4 + CountBits(v) + 8 * |bytes|
  {
  }

  method PackAll(bits: seq<bool>) returns (codewords: seq<bv8>)
    requires |bits| % 8 == 0
    ensures codewords == Bytes(bits)
  {
    hide WithBit, Pack, Bytes;
    codewords := [];
    var i := 0;
    ghost var k := 0;
    BytesStart(bits);
    while i < |bits|
      invariant i == 8 * k <= |bits|
      invariant codewords == Bytes(bits)[..k]
    {
      var byte: bv8 := 0;
      ghost var block := bits[i..i + 8];
      PackNone();
      for j := 0 to 8
        invariant byte == Pack(block[..j])
      {
        PackNext(block, j);
        byte := WithBit(byte, bits[i + j]);
      }
      assert block[..8] == block;
      ByteOf(bits, k);
      codewords := codewords + [byte];
      i := i + 8;
      k := k + 1;
    }
  }

  lemma BytesStart(bits: seq<bool>)
    ensures |Bytes(bits)| == |bits| / 8 && Bytes(bits)[..0] == []
  {
  }

  lemma PackNone()
    ensures Pack([]) == 0
  {
  }

  lemma PackNext(block: seq<bool>, j: nat)
    requires j < |block|
    ensures Pack(block[..j + 1]) == WithBit(Pack(block[..j]), block[j]) && Pack(block[..0]) == 0
  {
    assert block[..j + 1][..j] == block[..j];
    hide WithBit;
  }

  lemma ByteOf(bits: seq<bool>, k: nat)
    requires 8 * k + 8 <= |bits|
    ensures k < |Bytes(bits)| && Bytes(bits)[k] == Pack(bits[8 * k..8 * k + 8])
    ensures Bytes(bits)[..k + 1] == Bytes(bits)[..k] + [Pack(bits[8 * k..8 * k + 8])]
  {
    hide Pack;
  }

  // ----- Reading back -----

  /** The payload a scanner finds in a symbol's data codewords: byte mode, the count, then
      that many bytes. */
  function ParseData(codewords: seq<bv8>, v: version): Option<seq<bv8>> {
    var bits, at := Stream(codewords), 4 + CountWidth(v);
    if |bits| < at || bits[..4] != [false, true, false, false] then None
    else
      var count := ValueOf(bits[4..at]);
      if |bits| < at + 8 * count then None else Some(Bytes(bits[at..at + 8 * count]))
  }

  lemma Slices<T>(a: seq<T>, b: seq<T>, c: seq<T>, s: seq<T>)
    requires a + b + c <= s
    ensures s[..|a|] == a
    ensures s[|a|..|a| + |b|] == b
    ensures s[|a| + |b|..|a| + |b| + |c|] == c
  {
  }

  /** Codewords that begin with a payload's header read back as that payload. */
  lemma ParseHeader(bytes: seq<bv8>, v: version, codewords: seq<bv8>)
    requires |bytes| < Pow2(CountBits(v))
    requires Header(bytes, v) <= Stream(codewords)
    ensures ParseData(codewords, v) == Some(bytes)
  {
    HeaderIs(bytes, v);
    hide ByteBit, Stream, BitsOf, ValueOf, Bytes, Header, Pow2;
    Slices(BitsOf(4, 4), BitsOf(|bytes|, CountBits(v)), Stream(bytes), Stream(codewords));
    ModeBits();
    ValueOfBits(|bytes|, CountBits(v));
    BytesOfStream(bytes);
  }

  lemma ModeBits()
    ensures BitsOf(4, 4) == [false, true, false, false]
  {
    assert BitsOf(0, 1) == [false];
    assert BitsOf(1, 2) == [false, true];
    assert BitsOf(2, 3) == [false, true, false];
  }

  /** What `EncodeData` promises is enough to read the payload back. */
  lemma ParseHeld(bytes: seq<bv8>, v: version, codewords: seq<bv8>)
    requires Fits(|bytes|, v) && Holds(codewords, bytes, v)
    ensures ParseData(codewords, v) == Some(bytes)
  {
    hide Stream, Header, Pads, Terminator, Falses, DataCodewords;
    VersionFacts(v);
    CountRange();
    var k := (|Header(bytes, v)| + Terminator(|Header(bytes, v)|, |codewords|)) / 8;
    assert codewords == codewords[..k] + codewords[k..];
    StreamConcat(codewords[..k], codewords[k..]);
    ParseHeader(bytes, v, codewords);
  }

  lemma CountRange()
    ensures Pow2(8) == 256 && Pow2(16) == 65536
  {
    assert Pow2(12) == 16 * Pow2(8);
  }
}
