/** Authenticator data (section 6.1 of Web Authentication): a fixed part, then an attested credential
    whose key is CBOR with no length of its own. */
module Authenticator {
  import opened Options
  import opened Buffers
  import opened Cbor
  import opened CborCodec
  import opened CborInputs

  datatype Flags = Flags(userPresent: bool, userVerified: bool, attested: bool, extensions: bool)

  datatype Credential = Credential(aaguid: seq<byte>, id: seq<byte>, coseKey: seq<Entry>)

  datatype Data = Data(rpIdHash: seq<byte>, flags: Flags, signCount: nat, credential: Option<Credential>)

  datatype Problem = TooShort | CredentialTruncated | IdTooLong | IdTruncated | BadItem(error: Error) | NotAMap | Leftover

  datatype Outcome = Parsed(data: Data) | Rejected(problem: Problem)

  const MAX_ID: nat := 1023

  /** Bits 0, 2, 6 and 7 of the flags byte. */
  function FlagsOf(raw: byte): Flags {
    Flags(raw as int % 2 == 1, raw as int / 4 % 2 == 1, raw as int / 64 % 2 == 1, raw as int / 128 % 2 == 1)
  }

  /** The credential's key and what may follow it, from `at` on. */
  function KeyFrom(isUtf8: seq<byte> -> bool, bytes: seq<byte>, fixed: Data, aaguid: seq<byte>, id: seq<byte>, at: nat): Outcome {
    var r := ItemAt(isUtf8, bytes, at, 0);
    if r.Refused? then Rejected(BadItem(r.error))
    else if !r.value.Table? then Rejected(NotAMap)
    else if !fixed.flags.extensions && r.next != |bytes| then Rejected(Leftover)
    else Parsed(fixed.(credential := Some(Credential(aaguid, id, r.value.entries))))
  }

  function CredentialFrom(isUtf8: seq<byte> -> bool, bytes: seq<byte>, fixed: Data): Outcome {
    if |bytes| < 55 then Rejected(CredentialTruncated) else
    var idLength := Big16(bytes, 53);
    if idLength > MAX_ID then Rejected(IdTooLong)
    else if |bytes| < 55 + idLength then Rejected(IdTruncated)
    else KeyFrom(isUtf8, bytes, fixed, bytes[37..53], bytes[55..55 + idLength], 55 + idLength)
  }

  function Fixed(bytes: seq<byte>): Data
    requires |bytes| >= 37
  {
    Data(bytes[..32], FlagsOf(bytes[32]), Big32(bytes, 33), None)
  }

  function Parse(isUtf8: seq<byte> -> bool, bytes: seq<byte>): Outcome {
    if |bytes| < 37 then Rejected(TooShort)
    else if !Fixed(bytes).flags.attested then Parsed(Fixed(bytes))
    else CredentialFrom(isUtf8, bytes, Fixed(bytes))
  }

  method ParseAuthenticatorData(isUtf8: seq<byte> -> bool, bytes: seq<byte>) returns (r: Outcome)
    ensures r == Parse(isUtf8, bytes)
  {
    if |bytes| < 37 { return Rejected(TooShort); }
    var rpIdHash := bytes[..32];
    var raw := bytes[32] as int;
    var flags := Flags(raw % 2 == 1, raw / 4 % 2 == 1, raw / 64 % 2 == 1, raw / 128 % 2 == 1);
    var signCount := Big32(bytes, 33);
    if !flags.attested { return Parsed(Data(rpIdHash, flags, signCount, None)); }

    if |bytes| < 55 { return Rejected(CredentialTruncated); }
    var aaguid := bytes[37..53];
    var idLength := 0x100 * bytes[53] as int + bytes[54] as int;
    if idLength > MAX_ID { return Rejected(IdTooLong); }
    if |bytes| < 55 + idLength { return Rejected(IdTruncated); }
    var id := bytes[55..55 + idLength];

    var reader := new Reader(isUtf8, bytes, 55 + idLength);
    var item := reader.ReadItem(0);
    if item.Refused? { return Rejected(BadItem(item.error)); }
    if !item.value.Table? { return Rejected(NotAMap); }
    if !flags.extensions && reader.offset != |bytes| { return Rejected(Leftover); }
    return Parsed(Data(rpIdHash, flags, signCount, Some(Credential(aaguid, id, item.value.entries))));
  }

  // ----- Reading what an authenticator writes -----

  function Big16Bytes(n: nat): (s: seq<byte>)
    requires n < 0x1_0000
    ensures |s| == 2
  {
    [n / 0x100, Low(n)]
  }

  function Big32Bytes(n: nat): (s: seq<byte>)
    requires n < 0x1_0000_0000
    ensures |s| == 4
  {
    [n / 0x100_0000, Low(n / 0x1_0000), Low(n / 0x100), Low(n)]
  }

  function Prefix(rpIdHash: seq<byte>, raw: byte, signCount: nat): (s: seq<byte>)
    requires |rpIdHash| == 32 && signCount < 0x1_0000_0000
    ensures |s| == 37
  {
    rpIdHash + [raw] + Big32Bytes(signCount)
  }

  predicate CredentialFits(isUtf8: seq<byte> -> bool, c: Credential) {
    && |c.aaguid| == 16 && |c.id| <= 1023
    && Fits(isUtf8, Table(c.coseKey), 0) && Distinct(Table(c.coseKey)) && NoBom(Table(c.coseKey))
  }

  function CredentialBytes(isUtf8: seq<byte> -> bool, c: Credential): seq<byte>
    requires CredentialFits(isUtf8, c)
  {
    c.aaguid + Big16Bytes(|c.id|) + c.id + Encode(isUtf8, Table(c.coseKey), 0)
  }

  lemma PrefixReads(rpIdHash: seq<byte>, raw: byte, signCount: nat, rest: seq<byte>)
    requires |rpIdHash| == 32 && signCount < 0x1_0000_0000
    ensures Fixed(Prefix(rpIdHash, raw, signCount) + rest) == Data(rpIdHash, FlagsOf(raw), signCount, None)
  {
    var bytes := Prefix(rpIdHash, raw, signCount) + rest;
    assert bytes[..32] == rpIdHash;
    assert bytes[32] == raw;
    assert bytes[33..37] == Big32Bytes(signCount);
    assert bytes[33] == bytes[33..37][0] && bytes[34] == bytes[33..37][1];
    assert bytes[35] == bytes[33..37][2] && bytes[36] == bytes[33..37][3];
    FourBytes(signCount);
  }

  /** With the attested flag set, the printed credential comes back and, where the extension flag
      allows bytes after the key, whatever they are. */
  lemma CredentialReads(isUtf8: seq<byte> -> bool, rpIdHash: seq<byte>, raw: byte, signCount: nat, c: Credential, tail: seq<byte>)
    requires |rpIdHash| == 32 && signCount < 0x1_0000_0000 && CredentialFits(isUtf8, c)
    requires FlagsOf(raw).attested && (tail != [] ==> FlagsOf(raw).extensions)
    ensures Parse(isUtf8, Prefix(rpIdHash, raw, signCount) + (CredentialBytes(isUtf8, c) + tail))
      == Parsed(Data(rpIdHash, FlagsOf(raw), signCount, Some(c)))
  {
    hide ItemAt, Fits, Encode, Distinct, NoBom, Clean, FlagsOf, Prefix, Fixed, KeyFrom;
    var prefix := Prefix(rpIdHash, raw, signCount);
    var bytes := prefix + (CredentialBytes(isUtf8, c) + tail);
    PrefixReads(rpIdHash, raw, signCount, CredentialBytes(isUtf8, c) + tail);
    CredentialSplits(isUtf8, prefix, c, tail);
    KeyReads(isUtf8, bytes, Fixed(bytes), c, tail);
  }

  lemma CredentialSplits(isUtf8: seq<byte> -> bool, prefix: seq<byte>, c: Credential, tail: seq<byte>)
    requires |prefix| == 37 && CredentialFits(isUtf8, c)
    ensures var bytes := prefix + (CredentialBytes(isUtf8, c) + tail);
            var key := Encode(isUtf8, Table(c.coseKey), 0);
            && |bytes| == 55 + |c.id| + |key| + |tail|
            && bytes[37..53] == c.aaguid && Big16(bytes, 53) == |c.id| && bytes[55..55 + |c.id|] == c.id
            && Holds(bytes, 55 + |c.id|, key)
  {
    hide Encode, Fits, Distinct, NoBom;
    var key := Encode(isUtf8, Table(c.coseKey), 0);
    var bytes := prefix + (CredentialBytes(isUtf8, c) + tail);
    assert bytes == prefix + c.aaguid + Big16Bytes(|c.id|) + c.id + key + tail;
    assert bytes[53..55] == Big16Bytes(|c.id|);
    assert bytes[53] == bytes[53..55][0] && bytes[54] == bytes[53..55][1];
  }

  lemma KeyReads(isUtf8: seq<byte> -> bool, bytes: seq<byte>, fixed: Data, c: Credential, tail: seq<byte>)
    requires CredentialFits(isUtf8, c) && Holds(bytes, 55 + |c.id|, Encode(isUtf8, Table(c.coseKey), 0))
    requires |bytes| == 55 + |c.id| + |Encode(isUtf8, Table(c.coseKey), 0)| + |tail|
    requires tail != [] ==> fixed.flags.extensions
    ensures KeyFrom(isUtf8, bytes, fixed, c.aaguid, c.id, 55 + |c.id|) == Parsed(fixed.(credential := Some(c)))
  {
    hide ItemAt, Fits, Encode, Distinct, NoBom, Clean;
    var key := Table(c.coseKey);
    CleanIsSame(key);
    ItemDecodes(isUtf8, bytes, 55 + |c.id|, key, 0);
  }

  /** With the attested flag clear, the fixed part is all there is to read. */
  lemma FixedReads(isUtf8: seq<byte> -> bool, rpIdHash: seq<byte>, raw: byte, signCount: nat, tail: seq<byte>)
    requires |rpIdHash| == 32 && signCount < 0x1_0000_0000 && !FlagsOf(raw).attested
    ensures Parse(isUtf8, Prefix(rpIdHash, raw, signCount) + tail)
      == Parsed(Data(rpIdHash, FlagsOf(raw), signCount, None))
  {
    PrefixReads(rpIdHash, raw, signCount, tail);
  }

  /** Bytes added to accepted data are refused exactly when there is a credential and no extension
      flag; otherwise they change nothing. */
  lemma TrailingBytes(isUtf8: seq<byte> -> bool, bytes: seq<byte>, more: seq<byte>)
    requires Parse(isUtf8, bytes).Parsed? && more != []
    ensures Parse(isUtf8, bytes + more)
      == var f := Parse(isUtf8, bytes).data.flags;
         if f.attested && !f.extensions then Rejected(Leftover) else Parse(isUtf8, bytes)
  {
    hide ItemAt, FlagsOf, KeyFrom;
    var longer := bytes + more;
    assert longer[..32] == bytes[..32];
    assert Fixed(longer) == Fixed(bytes);
    if Fixed(bytes).flags.attested {
      var n := Big16(bytes, 53);
      assert Big16(longer, 53) == n;
      assert longer[37..53] == bytes[37..53] && longer[55..55 + n] == bytes[55..55 + n];
      KeyTrailing(isUtf8, bytes, more, Fixed(bytes), bytes[37..53], bytes[55..55 + n], 55 + n);
    }
  }

  lemma KeyTrailing(isUtf8: seq<byte> -> bool, bytes: seq<byte>, more: seq<byte>, fixed: Data, aaguid: seq<byte>, id: seq<byte>, at: nat)
    requires KeyFrom(isUtf8, bytes, fixed, aaguid, id, at).Parsed? && more != []
    ensures KeyFrom(isUtf8, bytes, fixed, aaguid, id, at).data.flags == fixed.flags
    ensures KeyFrom(isUtf8, bytes + more, fixed, aaguid, id, at)
      == if !fixed.flags.extensions then Rejected(Leftover) else KeyFrom(isUtf8, bytes, fixed, aaguid, id, at)
  {
    hide ItemAt;
    var r := ItemAt(isUtf8, bytes, at, 0);
    assert (bytes + more)[at..r.next] == bytes[at..r.next];
    ItemLocal(isUtf8, bytes, at, bytes + more, at, 0);
  }

  // ----- The flags, and every input -----

  /** The flags byte of section 6.1: bit 0 user present, 2 user verified, 6 attested credential data, 7 extension data;
      the others are reserved. */
  function FlagsByte(f: Flags, one: bool, three: bool, four: bool, five: bool): byte {
    (if f.userPresent then 1 else 0) + (if one then 2 else 0) + (if f.userVerified then 4 else 0) + (if three then 8 else 0)
    + (if four then 16 else 0) + (if five then 32 else 0) + (if f.attested then 64 else 0) + (if f.extensions then 128 else 0)
  }

  /** Each flag is read from its own bit, whatever the reserved ones are. */
  lemma FlagsRead(f: Flags, one: bool, three: bool, four: bool, five: bool)
    ensures FlagsOf(FlagsByte(f, one, three, four, five)) == f
  {
    var n := FlagsByte(f, one, three, four, five) as int;
    var e, a := if f.extensions then 1 else 0, if f.attested then 1 else 0;
    assert n / 128 == e;
    assert n / 64 == 2 * e + a;
    assert n / 4 == 32 * e + 16 * a + (if five then 8 else 0) + (if four then 4 else 0) + (if three then 2 else 0)
      + (if f.userVerified then 1 else 0);
  }

  /** These bytes are laid out as this data with this credential: the key is a CBOR map, and bytes may follow it where the
      extension flag says so. */
  ghost predicate LaidOut(isUtf8: seq<byte> -> bool, bytes: seq<byte>, d: Data, raw: byte, key: seq<byte>, tail: seq<byte>) {
    && |d.rpIdHash| == 32 && d.signCount < 0x1_0000_0000 && d.flags == FlagsOf(raw) && d.flags.attested && d.credential.Some?
    && var c := d.credential.value;
    && |c.aaguid| == 16 && |c.id| <= 1023
    && bytes == Prefix(d.rpIdHash, raw, d.signCount) + (c.aaguid + Big16Bytes(|c.id|) + c.id + key + tail)
    && Decode(isUtf8, key) == Decoded.Value(Table(c.coseKey))
    && (tail == [] || d.flags.extensions)
  }

  lemma PartsOf(prefix: seq<byte>, aaguid: seq<byte>, length: seq<byte>, id: seq<byte>, key: seq<byte>, tail: seq<byte>)
    requires |prefix| == 37 && |aaguid| == 16 && |length| == 2
    ensures var bytes := prefix + (aaguid + length + id + key + tail);
      && |bytes| == 55 + |id| + |key| + |tail| && bytes[..37] == prefix && bytes[37..53] == aaguid && bytes[53..55] == length
      && bytes[55..55 + |id|] == id && bytes[55 + |id|..55 + |id| + |key|] == key
  {
    var bytes := prefix + (aaguid + length + id + key + tail);
    assert bytes == prefix + aaguid + length + id + key + tail;
  }

  lemma LengthReads(bytes: seq<byte>, n: nat)
    requires |bytes| >= 55 && n < 0x1_0000
    ensures bytes[53..55] == Big16Bytes(n) <==> Big16(bytes, 53) == n
  {
    var two := bytes[53..55];
    assert two == [bytes[53], bytes[54]];
  }

  /** Laid out so, it parses to that data. */
  lemma LaidOutParses(isUtf8: seq<byte> -> bool, bytes: seq<byte>, d: Data, raw: byte, key: seq<byte>, tail: seq<byte>)
    requires LaidOut(isUtf8, bytes, d, raw, key, tail)
    ensures Parse(isUtf8, bytes) == Parsed(d)
  {
    hide ItemAt, FlagsOf, Prefix, Big16Bytes, Big16, Fixed;
    var c := d.credential.value;
    var rest := c.aaguid + Big16Bytes(|c.id|) + c.id + key + tail;
    PrefixReads(d.rpIdHash, raw, d.signCount, rest);
    PartsOf(Prefix(d.rpIdHash, raw, d.signCount), c.aaguid, Big16Bytes(|c.id|), c.id, key, tail);
    LengthReads(bytes, |c.id|);
    var at := 55 + |c.id|;
    assert key[0..|key|] == key;
    ItemLocal(isUtf8, key, 0, bytes, at, 0);
  }

  /** With the attested flag set, data is accepted exactly when the bytes are laid out as it. */
  lemma AcceptedWhen(isUtf8: seq<byte> -> bool, bytes: seq<byte>, d: Data)
    requires d.flags.attested
    ensures Parse(isUtf8, bytes) == Parsed(d) <==> exists raw, key, tail :: LaidOut(isUtf8, bytes, d, raw, key, tail)
  {
    hide LaidOut, Parse;
    if Parse(isUtf8, bytes) == Parsed(d) {
      var raw, key, tail := Layout(isUtf8, bytes, d);
    }
    if raw, key, tail :| LaidOut(isUtf8, bytes, d, raw, key, tail) {
      LaidOutParses(isUtf8, bytes, d, raw, key, tail);
    }
  }

  lemma FixedIs(bytes: seq<byte>)
    requires |bytes| >= 37
    ensures var d := Fixed(bytes);
      |d.rpIdHash| == 32 && d.signCount < 0x1_0000_0000 && bytes[..37] == Prefix(d.rpIdHash, bytes[32], d.signCount)
  {
    var n := Big32(bytes, 33);
    assert Big32Bytes(n) == [bytes[33], bytes[34], bytes[35], bytes[36]] by { FourBytesBack(bytes[33], bytes[34], bytes[35], bytes[36]); }
    assert bytes[..37] == bytes[..32] + [bytes[32]] + [bytes[33], bytes[34], bytes[35], bytes[36]];
  }

  lemma FourBytesBack(a: byte, b: byte, c: byte, d: byte)
    ensures var n := 0x1_0000 * (0x100 * a as int + b as int) + (0x100 * c as int + d as int);
      0 <= n < 0x1_0000_0000 && Big32Bytes(n) == [a, b, c, d]
  {
    var n := 0x1_0000 * (0x100 * a as int + b as int) + (0x100 * c as int + d as int);
    assert n / 0x100 == 0x1_0000 * a as int + 0x100 * b as int + c as int;
    assert n / 0x1_0000 == 0x100 * a as int + b as int;
    assert n / 0x100_0000 == a as int;
  }

  lemma Layout(isUtf8: seq<byte> -> bool, bytes: seq<byte>, d: Data) returns (raw: byte, key: seq<byte>, tail: seq<byte>)
    requires Parse(isUtf8, bytes) == Parsed(d) && d.flags.attested
    ensures LaidOut(isUtf8, bytes, d, raw, key, tail)
  {
    hide ItemAt, FlagsOf, Prefix, Big16Bytes, Big16;
    FixedIs(bytes);
    raw := bytes[32];
    var n := Big16(bytes, 53);
    var at := 55 + n;
    var next := ItemAt(isUtf8, bytes, at, 0).next;
    key, tail := bytes[at..next], bytes[next..];
    assert key[0..|key|] == key;
    ItemLocal(isUtf8, bytes, at, key, 0, 0);
    LengthReads(bytes, n);
    FiveParts(bytes, n, next);
  }

  lemma FiveParts(bytes: seq<byte>, n: nat, next: nat)
    requires 55 + n <= next <= |bytes|
    ensures bytes == bytes[..37] + (bytes[37..53] + bytes[53..55] + bytes[55..55 + n] + bytes[55 + n..next] + bytes[next..])
  {
  }

  /** A byte after data without a credential changes nothing. */
  lemma TrailingZero(isUtf8: seq<byte> -> bool)
    ensures Parse(isUtf8, Zeros(37)).Parsed? && Parse(isUtf8, Zeros(38)) == Parse(isUtf8, Zeros(37))
  {
    hide ItemAt;
    assert Zeros(38) == Zeros(37) + [0];
    TrailingBytes(isUtf8, Zeros(37), [0]);
  }
}
